/** A data buffer as a host lays it out (NVM Express 1.4, section 4.3): pages of 4096 bytes, and the two pointers or the list that name them. */
module NvmePages {
  import opened Bytes
  import opened Endian
  import opened GuestMemory
  import opened NvmeTransfer
  import opened NvmeQueues
  import opened NvmeCommands

  /** How many pages a buffer of `total` bytes touches that starts at offset `start` of its first page. */
  function PageCount(start: nat, total: nat): nat { (start % 4096 + total + 4095) / 4096 }

  /**
   * The host has named these pages: the first pointer leads into the first of them; the second pointer names the
   * other one when there are two, and a list of 8-byte entries for all but the first when there are more.
   */
  ghost predicate Named(m: Memory, b: Buffer, pages: seq<nat>) {
    && b.total > 0 && |pages| == PageCount(b.prp1, b.total) && pages[0] == b.prp1
    && (forall j :: 1 <= j < |pages| ==> pages[j] % 4096 == 0 && pages[j] < 0x1_0000_0000_0000_0000)
    && (|pages| == 2 ==> b.prp2 == pages[1])
    && (|pages| > 2 ==> forall j :: 1 <= j < |pages| ==> Read(m, b.prp2 + 8 * (j - 1), 8) == Some(LeBytes(pages[j], 8)))
  }

  /** Where byte `k` of the buffer is: as far behind the start of its page as it is in that page. */
  function ByteAddress(pages: seq<nat>, k: nat): nat
    requires pages != [] && (pages[0] % 4096 + k) / 4096 < |pages|
  {
    var at := pages[0] % 4096 + k;
    if at < 4096 then pages[0] + k else pages[at / 4096] + at % 4096
  }

  /** The part of page `j` that the buffer uses, from where it starts there. */
  function Used(b: Buffer, j: nat): nat {
    var first := 4096 - b.prp1 % 4096;
    if j == 0 then Min(first, b.total) else if first + (j - 1) * 4096 >= b.total then 0 else Min(4096, b.total - first - (j - 1) * 4096)
  }

  /** Every page is mapped as far as it is used. */
  ghost predicate PagesMapped(m: Memory, b: Buffer, pages: seq<nat>) {
    Disjoint(m) && forall j :: 0 <= j < |pages| ==> Mapped(m, pages[j], Used(b, j))
  }

  lemma CountsPages(b: Buffer)
    requires b.total > 0
    ensures PageCount(b.prp1, b.total) >= 1
    ensures PageCount(b.prp1, b.total) <= 1 <==> b.total <= b.First()
    ensures PageCount(b.prp1, b.total) > 2 <==> b.UsesList()
    ensures forall j: nat :: b.HasPage(j) <==> j + 1 < PageCount(b.prp1, b.total)
  {
  }

  lemma PageOf(b: Buffer, k: nat)
    requires k < b.total
    ensures (b.prp1 % 4096 + k) / 4096 < PageCount(b.prp1, b.total)
    ensures k < b.First() <==> b.prp1 % 4096 + k < 4096
    ensures k >= b.First() ==>
              (k - b.First()) / PAGE == (b.prp1 % 4096 + k) / 4096 - 1 && (k - b.First()) % PAGE == (b.prp1 % 4096 + k) % 4096
  {
  }

  lemma NamedPage(m: Memory, b: Buffer, pages: seq<nat>, j: nat)
    requires Named(m, b, pages) && j + 1 < |pages|
    ensures NextPage(m, b, j) == pages[j + 1]
    ensures b.UsesList() ==> Read(m, b.prp2 + j * 8, 8).Some?
  {
    hide Read, Le, LeBytes, Pow256;
    CountsPages(b);
    Pow256Values();
    LeRoundTrip(pages[j + 1], 8);
    assert b.prp2 + 8 * ((j + 1) - 1) == b.prp2 + j * 8;
  }

  /** The controller finds byte `k` where the host put it. */
  lemma AddressIsHosts(m: Memory, b: Buffer, pages: seq<nat>, k: nat)
    requires Named(m, b, pages) && k < b.total
    ensures pages != [] && (pages[0] % 4096 + k) / 4096 < |pages| && Addr(m, b, k) == ByteAddress(pages, k)
  {
    hide NextPage, Read;
    CountsPages(b);
    PageOf(b, k);
    if k >= b.First() {
      NamedPage(m, b, pages, (k - b.First()) / PAGE);
    }
  }

  /** A buffer the host has named, over mapped pages, is one the controller can move. */
  lemma NamedIsDescribed(m: Memory, b: Buffer, pages: seq<nat>)
    requires Named(m, b, pages) && PagesMapped(m, b, pages)
    ensures Described(m, b)
  {
    hide NextPage, Mapped, Read, Disjoint;
    CountsPages(b);
    assert Used(b, 0) == Min(b.First(), b.total);
    assert pages[0] == b.prp1;
    forall j: nat | b.HasPage(j) ensures PageDescribed(m, b, j) {
      NamedPage(m, b, pages, j);
      assert Used(b, j + 1) == PageBytes(b, j);
      assert Mapped(m, pages[j + 1], Used(b, j + 1));
    }
  }

  /**
   * A Write command of one buffer and, after anything at all in guest memory, a Read command into another, each
   * over pages as its host named them: byte `k` of the second is byte `k` of the first.
   */
  lemma PagesRoundTrip(n: Nvme, m2: Memory, cid1: nat, cid2: nat, src: Buffer, from: seq<nat>, dst: Buffer, to: seq<nat>,
                       slba: nat, blocks: nat, flags: nat, k: nat, x: Byte)
    requires n.Valid() && IoFits(cid1, src.prp1, src.prp2, slba, blocks, flags) && IoFits(cid2, dst.prp1, dst.prp2, slba, blocks, flags)
    requires src.total == dst.total == blocks * 512 && slba * 512 + blocks * 512 <= |n.disk|
    requires Named(n.mem, src, from) && PagesMapped(n.mem, src, from)
    requires Named(m2, dst, to) && PagesMapped(m2, dst, to) && Separate(m2, dst)
    requires k < blocks * 512
    ensures from != [] && (from[0] % 4096 + k) / 4096 < |from| && to != [] && (to[0] % 4096 + k) / 4096 < |to|
    ensures var n1 := ExecuteIO(n, IoCommand(true, cid1, src.prp1, src.prp2, slba, blocks, flags).Encode());
            var n2 := ExecuteIO(n1.(mem := m2), IoCommand(false, cid2, dst.prp1, dst.prp2, slba, blocks, flags).Encode());
            At(n.mem, ByteAddress(from, k)) == Some(x) ==> At(n2.mem, ByteAddress(to, k)) == Some(x)
  {
    hide ExecuteIO, Described, Separate, Addr, At, IoCommand, Named, PagesMapped, ByteAddress, Command.Encode;
    NamedIsDescribed(n.mem, src, from);
    NamedIsDescribed(m2, dst, to);
    AddressIsHosts(n.mem, src, from, k);
    AddressIsHosts(m2, dst, to, k);
    CommandsRoundTrip(n, m2, cid1, cid2, src, dst, slba, blocks, flags);
  }
}
