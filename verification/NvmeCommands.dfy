/** Commands as a host encodes them (NVM Express 1.4, sections 4.2, 5.3 and 5.4): what the controller makes of them. */
module NvmeCommands {
  import opened Bytes
  import opened Endian
  import opened GuestMemory
  import opened DiskFiles
  import opened NvmeTransfer
  import opened NvmeQueues
  import opened NvmeProtocol
  import opened NvmeLink

  const UINT16: nat := 0x1_0000
  const UINT32: nat := 0x1_0000_0000

  /** The 64-byte submission entry of a command that leaves the other fields zero. */
  datatype Command = Command(opcode: Byte, cid: nat, prp1: nat, prp2: nat, cdw10: nat, cdw11: nat, cdw12: nat) {
    predicate Fits() {
      && cid < UINT16 && prp1 < UINT32 * UINT32 && prp2 < UINT32 * UINT32
      && cdw10 < UINT32 && cdw11 < UINT32 && cdw12 < UINT32
    }

    function Encode(): (b: ByteString)
      ensures |b| == SQES
    {
      [opcode, 0] + LeBytes(cid, 2) + Zeros(20) + LeBytes(prp1, 8) + LeBytes(prp2, 8)
      + LeBytes(cdw10, 4) + LeBytes(cdw11, 4) + LeBytes(cdw12, 4) + Zeros(12)
    }
  }

  lemma EncodedParts(c: Command)
    ensures var b := c.Encode();
            && b[0] == c.opcode && b[2..4] == LeBytes(c.cid, 2)
            && b[24..32] == LeBytes(c.prp1, 8) && b[32..40] == LeBytes(c.prp2, 8)
            && b[40..44] == LeBytes(c.cdw10, 4) && b[44..48] == LeBytes(c.cdw11, 4) && b[48..52] == LeBytes(c.cdw12, 4)
  {
    hide LeBytes;
  }

  lemma EncodedFields(c: Command)
    requires c.Fits()
    ensures var b := c.Encode();
            && b[0] == c.opcode && Field(b, 2, 2) == c.cid
            && Field(b, 24, 8) == c.prp1 && Field(b, 32, 8) == c.prp2
            && Field(b, 40, 4) == c.cdw10 && Field(b, 44, 4) == c.cdw11 && Field(b, 48, 4) == c.cdw12
  {
    hide LeBytes, Le, Pow256, Field;
    EncodedParts(c);
    FieldsFit(c);
    LeRoundTrip(c.cid, 2);
    LeRoundTrip(c.prp1, 8);
    LeRoundTrip(c.prp2, 8);
    LeRoundTrip(c.cdw10, 4);
    LeRoundTrip(c.cdw11, 4);
    LeRoundTrip(c.cdw12, 4);
    FieldIs(c.Encode());
  }

  lemma FieldIs(b: ByteString)
    requires |b| == SQES
    ensures Field(b, 2, 2) == Le(b[2..4]) && Field(b, 24, 8) == Le(b[24..32]) && Field(b, 32, 8) == Le(b[32..40])
    ensures Field(b, 40, 4) == Le(b[40..44]) && Field(b, 44, 4) == Le(b[44..48]) && Field(b, 48, 4) == Le(b[48..52])
  {
    hide Le;
  }

  lemma FieldsFit(c: Command)
    requires c.Fits()
    ensures c.cid < Pow256(2) && c.prp1 < Pow256(8) && c.prp2 < Pow256(8)
    ensures c.cdw10 < Pow256(4) && c.cdw11 < Pow256(4) && c.cdw12 < Pow256(4)
  {
    hide Pow256;
    Pow256Values();
  }

  // ----- I/O commands

  /** Read (2) or Write (1) of `blocks` blocks at block address `slba`; the upper half of CDW12 holds flags. */
  function IoCommand(write: bool, cid: nat, prp1: nat, prp2: nat, slba: nat, blocks: nat, flags: nat): Command
    requires blocks > 0
  {
    Command(if write then 1 else 2, cid, prp1, prp2, slba % UINT32, slba / UINT32, flags * UINT16 + (blocks - 1))
  }

  predicate IoFits(cid: nat, prp1: nat, prp2: nat, slba: nat, blocks: nat, flags: nat) {
    && cid < UINT16 && prp1 < UINT32 * UINT32 && prp2 < UINT32 * UINT32 && slba < UINT32 * UINT32
    && 0 < blocks <= UINT16 && flags < UINT16
  }

  /** The controller reads out of an I/O command what the host put in, and moves that many blocks at that place. */
  lemma IoDecodes(n: Nvme, write: bool, cid: nat, prp1: nat, prp2: nat, slba: nat, blocks: nat, flags: nat)
    requires n.Valid() && IoFits(cid, prp1, prp2, slba, blocks, flags)
    ensures var b := IoCommand(write, cid, prp1, prp2, slba, blocks, flags).Encode();
            var r := Transfer(n.mem, n.disk, write, slba * 512, Buffer(prp1, prp2, blocks * 512), 0);
            && CommandId(b) == cid && DataBuffer(b) == Buffer(prp1, prp2, blocks * 512) && DiskOffset(b) == slba * 512
            && ExecuteIO(n, b) == n.(mem := r.0, disk := r.1)
  {
    hide Transfer, Field;
    var c := IoCommand(write, cid, prp1, prp2, slba, blocks, flags);
    EncodedFields(c);
    IoSums(slba, blocks, flags);
  }

  lemma IoSums(slba: nat, blocks: nat, flags: nat)
    requires slba < UINT32 * UINT32 && 0 < blocks <= UINT16
    ensures (slba % UINT32 + slba / UINT32 * UINT32) * LBA == slba * 512
    ensures ((flags * UINT16 + (blocks - 1)) % UINT16 + 1) * LBA == blocks * 512
    ensures flags < UINT16 ==> flags * UINT16 + (blocks - 1) < UINT32
    ensures slba / UINT32 < UINT32
  {
  }

  /**
   * A Write command, then, after anything at all has happened to guest memory, a Read command for the same
   * blocks into another buffer: that buffer receives the bytes written, and no other disk byte has changed.
   */
  lemma CommandsRoundTrip(n: Nvme, m2: Memory, cid1: nat, cid2: nat, src: Buffer, dst: Buffer, slba: nat, blocks: nat, flags: nat)
    requires n.Valid() && IoFits(cid1, src.prp1, src.prp2, slba, blocks, flags) && IoFits(cid2, dst.prp1, dst.prp2, slba, blocks, flags)
    requires src.total == dst.total == blocks * 512 && slba * 512 + blocks * 512 <= |n.disk|
    requires Described(n.mem, src) && Described(m2, dst) && Separate(m2, dst)
    ensures var n1 := ExecuteIO(n, IoCommand(true, cid1, src.prp1, src.prp2, slba, blocks, flags).Encode());
            var n2 := ExecuteIO(n1.(mem := m2), IoCommand(false, cid2, dst.prp1, dst.prp2, slba, blocks, flags).Encode());
            && (forall k :: 0 <= k < blocks * 512 ==> At(n2.mem, Addr(m2, dst, k)) == Some(GuestByte(n.mem, src, k)))
            && (forall i :: 0 <= i < |n.disk| && !(slba * 512 <= i < slba * 512 + blocks * 512) ==> n2.disk[i] == n.disk[i])
  {
    hide Transfer, ExecuteIO, Described, Separate, Addr, GuestByte, At, IoCommand;
    IoDecodes(n, true, cid1, src.prp1, src.prp2, slba, blocks, flags);
    var n1 := ExecuteIO(n, IoCommand(true, cid1, src.prp1, src.prp2, slba, blocks, flags).Encode());
    IoDecodes(n1.(mem := m2), false, cid2, dst.prp1, dst.prp2, slba, blocks, flags);
    WriteThenRead(n.mem, n.disk, slba * 512, src, m2, dst);
    ReadKeepsDisk(m2, n1.disk, slba * 512, dst, 0);
  }

  // ----- creating a queue pair

  /** Create I/O Completion Queue: CDW10 holds the size, counted from zero, and the queue id. */
  function CreateCompletionQueue(g: Pair, cid: nat): Command
    requires g.cqSize > 0
  {
    Command(0x05, cid, g.cqBase, 0, (g.cqSize - 1) * UINT16 + g.cqid, 1, 0)
  }

  /** Create I/O Submission Queue: CDW11 names the completion queue in its high half. */
  function CreateSubmissionQueue(g: Pair, cid: nat): Command
    requires g.sqSize > 0
  {
    Command(0x01, cid, g.sqBase, 0, (g.sqSize - 1) * UINT16 + g.q, g.cqid * UINT16 + 1, 0)
  }

  /** A pair the host may ask for: within the controller's limits, over mapped memory, its rings apart. */
  ghost predicate Creatable(m: Memory, g: Pair) {
    && Disjoint(m) && 0 < g.q < MAX_QUEUES && g.cqid < MAX_QUEUES
    && 0 < g.sqSize <= UINT16 && 0 < g.cqSize <= UINT16 && g.sqBase < UINT32 * UINT32 && g.cqBase < UINT32 * UINT32
    && Mapped(m, g.sqBase, g.SqBytes()) && Mapped(m, g.cqBase, g.CqBytes())
    && Apart(g.sqBase, g.SqBytes(), g.cqBase, g.CqBytes())
  }

  lemma Halves(hi: nat, lo: nat)
    requires hi < UINT16 && lo < UINT16
    ensures (hi * UINT16 + lo) % UINT16 == lo && (hi * UINT16 + lo) / UINT16 % UINT16 == hi
    ensures hi * UINT16 + lo < UINT32
  {
  }

  /** What the admin queue makes of a Create command whose fields are known. */
  lemma AdminCreates(n: Nvme, b: ByteString, base: nat, qid: nat, size: nat, high: nat)
    requires n.Valid() && |b| == SQES && (b[0] == 0x05 || b[0] == 0x01) && qid < MAX_QUEUES && 0 < size <= UINT16 && high < UINT16
    requires Field(b, 24, 8) == base && Field(b, 40, 4) == (size - 1) * UINT16 + qid && Field(b, 44, 4) == high * UINT16 + 1
    ensures Execute(n, 0, b) == if b[0] == 0x05 then n.(cq := n.cq[qid := CompletionQueue(base, size, 0, 1, high)])
                                else n.(sq := n.sq[qid := SubmissionQueue(base, size, 0, high)])
  {
    hide Field;
    Halves(size - 1, qid);
    Halves(high, 1);
  }

  lemma CompletionQueueCreated(n: Nvme, g: Pair, cid: nat)
    requires n.Valid() && Creatable(n.mem, g) && cid < UINT16
    ensures Execute(n, 0, CreateCompletionQueue(g, cid).Encode())
         == n.(cq := n.cq[g.cqid := CompletionQueue(g.cqBase, g.cqSize, 0, 1, 0)])
  {
    hide Field, Mapped, Disjoint, Execute;
    Halves(g.cqSize - 1, g.cqid);
    var c := CreateCompletionQueue(g, cid);
    EncodedFields(c);
    AdminCreates(n, c.Encode(), g.cqBase, g.cqid, g.cqSize, 0);
  }

  lemma SubmissionQueueCreated(n: Nvme, g: Pair, cid: nat)
    requires n.Valid() && Creatable(n.mem, g) && cid < UINT16
    ensures Execute(n, 0, CreateSubmissionQueue(g, cid).Encode())
         == n.(sq := n.sq[g.q := SubmissionQueue(g.sqBase, g.sqSize, 0, g.cqid)])
  {
    hide Field, Mapped, Disjoint, Execute;
    Halves(g.sqSize - 1, g.q);
    Halves(g.cqid, 1);
    var c := CreateSubmissionQueue(g, cid);
    EncodedFields(c);
    AdminCreates(n, c.Encode(), g.sqBase, g.q, g.sqSize, g.cqid);
  }

  /** After the two Create commands, over a cleared completion ring, host and controller start in step. */
  lemma CreatedPairInStep(n: Nvme, g: Pair, cid1: nat, cid2: nat)
    requires n.Valid() && Creatable(n.mem, g) && cid1 < UINT16 && cid2 < UINT16
    requires forall i :: 0 <= i < g.cqSize ==> Blank(n.mem, g, i)
    ensures var n1 := Execute(n, 0, CreateCompletionQueue(g, cid1).Encode());
            InStep(Link(Execute(n1, 0, CreateSubmissionQueue(g, cid2).Encode()), [], []), g)
  {
    hide Execute, Blank, InStep, Mapped, Disjoint;
    CompletionQueueCreated(n, g, cid1);
    var n1 := Execute(n, 0, CreateCompletionQueue(g, cid1).Encode());
    SubmissionQueueCreated(n1, g, cid2);
    FreshPairInStep(Execute(n1, 0, CreateSubmissionQueue(g, cid2).Encode()), g);
  }

  // ----- Identify

  /** A text of `n` bytes from `at` on: the characters of `s`, then spaces, cut to fit. */
  ghost predicate TextField(page: ByteString, at: nat, n: nat, s: string) {
    at + n <= |page| && forall i :: 0 <= i < n ==> page[at + i] == if i < |s| then s[i] as int else 0x20
  }

  /** The lowest byte of CDW10 says what to identify, its upper half which controller. */
  function Identify(cns: nat, cntid: nat, cid: nat, prp1: nat): Command { Command(0x06, cid, prp1, 0, cntid * UINT16 + cns, 0, 0) }

  lemma AdminIdentifies(n: Nvme, b: ByteString, prp1: nat, cns: nat)
    requires n.Valid() && |b| == SQES && b[0] == 0x06 && Field(b, 24, 8) == prp1 && Field(b, 40, 4) % 0x100 == cns
    ensures Execute(n, 0, b) == n.(mem := Write(n.mem, prp1, IdentifyPage(cns, |n.disk| / 512)))
  {
    hide Field, IdentifyPage, Write;
  }

  /** An Identify command stores one page at its first pointer, and nothing else. */
  lemma IdentifyStores(n: Nvme, cns: nat, cntid: nat, cid: nat, prp1: nat)
    requires n.Valid() && cns < 0x100 && cntid < UINT16 && cid < UINT16 && prp1 < UINT32 * UINT32
    requires Disjoint(n.mem) && Mapped(n.mem, prp1, 4096)
    ensures |IdentifyPage(cns, |n.disk| / 512)| == 4096
    ensures var r := Execute(n, 0, Identify(cns, cntid, cid, prp1).Encode());
            r == n.(mem := Write(n.mem, prp1, IdentifyPage(cns, |n.disk| / 512)))
            && Read(r.mem, prp1, 4096) == Some(IdentifyPage(cns, |n.disk| / 512))
  {
    hide IdentifyPage, Mapped, Disjoint, Field, Read, Write, Execute, Command.Encode;
    PageSize(cns, |n.disk| / 512);
    var c := Identify(cns, cntid, cid, prp1);
    LowByte(cntid, cns);
    EncodedFields(c);
    AdminIdentifies(n, c.Encode(), prp1, cns);
    WriteReadBack(n.mem, prp1, IdentifyPage(cns, |n.disk| / 512));
  }

  lemma LowByte(high: nat, low: nat)
    requires high < UINT16 && low < 0x100
    ensures (high * UINT16 + low) % 0x100 == low && high * UINT16 + low < UINT32
  {
    assert high * UINT16 + low == 0x100 * (high * 0x100) + low;
  }

  lemma PageSize(cns: nat, blocks: nat)
    ensures |IdentifyPage(cns, blocks)| == 4096
  {
    hide Ascii, LeBytes, PadText;
  }

  lemma PaddedText(page: ByteString, at: nat, n: nat, s: string)
    requires forall i :: 0 <= i < |s| ==> s[i] as int < 256
    requires at + n <= |page| && page[at..at + n] == PadText(s, n)
    ensures TextField(page, at, n, s)
  {
    forall i | 0 <= i < n ensures page[at + i] == if i < |s| then s[i] as int else 0x20 {
      assert page[at + i] == PadText(s, n)[i];
      assert i < |s| ==> Ascii(s)[..Min(|s|, n)][i] == s[i] as int % 256;
    }
  }

  /** Three texts one after the other, and eight bytes further on. */
  lemma Overlay(a: ByteString, b: ByteString, c: ByteString, d: ByteString)
    requires |a| == 20 && |b| == 40 && |c| == 8 && |d| == 8
    ensures var page := Overwrite(Overwrite(Zeros(4096), 4, a + b + c), 512, d);
            |page| == 4096 && page[4..24] == a && page[24..64] == b && page[64..72] == c && page[512..520] == d
  {
    var text := a + b + c;
    var page := Overwrite(Overwrite(Zeros(4096), 4, text), 512, d);
    assert text[..20] == a && text[20..60] == b && text[60..] == c;
    assert page[4..24] == text[..20];
    assert page[24..64] == text[20..60];
    assert page[64..72] == text[60..];
  }

  lemma ControllerPage(blocks: nat)
    ensures var page := IdentifyPage(1, blocks);
            && |page| == 4096
            && TextField(page, 4, 20, "WEAVE0000000000000001") && TextField(page, 24, 40, "weave NVMe") && TextField(page, 64, 8, "1.0")
            && page[512] == 0x66 && page[513] == 0x44 && page[516..520] == LeBytes(1, 4)
  {
    hide PadText, LeBytes, Ascii, Overwrite, TextField;
    var page := IdentifyPage(1, blocks);
    var d := [0x66, 0x44, 0, 0] + LeBytes(1, 4);
    Overlay(PadText("WEAVE0000000000000001", 20), PadText("weave NVMe", 40), PadText("1.0", 8), d);
    PaddedText(page, 4, 20, "WEAVE0000000000000001");
    PaddedText(page, 24, 40, "weave NVMe");
    PaddedText(page, 64, 8, "1.0");
    assert page[512] == page[512..520][0] && page[513] == page[512..520][1];
    assert page[516..520] == page[512..520][4..] == LeBytes(1, 4);
  }

  /** Identify Controller (NVM Express 1.4, section 5.15.2.1): names, 64-byte commands, 16-byte completions, one namespace. */
  lemma IdentifyControllerReads(n: Nvme, cntid: nat, cid: nat, prp1: nat)
    requires n.Valid() && cntid < UINT16 && cid < UINT16 && prp1 < UINT32 * UINT32 && Disjoint(n.mem) && Mapped(n.mem, prp1, 4096)
    ensures var r := Execute(n, 0, Identify(1, cntid, cid, prp1).Encode());
            && Read(r.mem, prp1, 4096).Some? && r == n.(mem := r.mem)
            && var page := Read(r.mem, prp1, 4096).value;
            && TextField(page, 4, 20, "WEAVE0000000000000001") && TextField(page, 24, 40, "weave NVMe") && TextField(page, 64, 8, "1.0")
            && page[512] == 0x66 && page[513] == 0x44 && Le(page[516..520]) == 1
  {
    hide IdentifyPage, Mapped, Disjoint, Read, Write, TextField, LeBytes, Le, Pow256, Execute;
    IdentifyStores(n, 1, cntid, cid, prp1);
    ControllerPage(|n.disk| / 512);
    Pow256Values();
    LeRoundTrip(1, 4);
  }

  lemma NamespacePage(blocks: nat)
    ensures var page := IdentifyPage(0, blocks);
            && |page| == 4096 && page[0..8] == page[8..16] == page[16..24] == LeBytes(blocks, 8) && page[25] == 0
            && page[128..132] == LeBytes(9 * 0x1_0000, 4)
  {
    hide LeBytes;
    var page := IdentifyPage(0, blocks);
    var b := LeBytes(blocks, 8);
    assert forall i :: 0 <= i < 24 ==> page[i] == (b + b + b)[i];
    assert page[0..8] == b;
    assert page[8..16] == b;
    assert page[16..24] == b;
  }

  /** Identify Namespace (NVM Express 1.4, section 5.15.2.2): size, capacity and use in blocks, one format of 2^9 bytes a block. */
  lemma IdentifyNamespaceReads(n: Nvme, cntid: nat, cid: nat, prp1: nat)
    requires n.Valid() && cntid < UINT16 && cid < UINT16 && prp1 < UINT32 * UINT32 && Disjoint(n.mem) && Mapped(n.mem, prp1, 4096)
    requires |n.disk| / 512 < UINT32 * UINT32
    ensures var r := Execute(n, 0, Identify(0, cntid, cid, prp1).Encode());
            && Read(r.mem, prp1, 4096).Some? && r == n.(mem := r.mem)
            && var page := Read(r.mem, prp1, 4096).value;
            && Le(page[0..8]) == Le(page[8..16]) == Le(page[16..24]) == |n.disk| / 512
            && page[25] == 0 && Le(page[128..132]) == 9 * 0x1_0000
  {
    hide IdentifyPage, Mapped, Disjoint, Read, Write, LeBytes, Le, Pow256, Execute;
    IdentifyStores(n, 0, cntid, cid, prp1);
    NamespacePage(|n.disk| / 512);
    Pow256Values();
    LeRoundTrip(|n.disk| / 512, 8);
    LeRoundTrip(9 * 0x1_0000, 4);
  }

  /** Any other structure a host asks for is a page of zeros. */
  lemma IdentifyOtherReads(n: Nvme, cns: nat, cntid: nat, cid: nat, prp1: nat)
    requires n.Valid() && 1 < cns < 0x100 && cntid < UINT16 && cid < UINT16 && prp1 < UINT32 * UINT32
    requires Disjoint(n.mem) && Mapped(n.mem, prp1, 4096)
    ensures var r := Execute(n, 0, Identify(cns, cntid, cid, prp1).Encode());
            r == n.(mem := r.mem) && Read(r.mem, prp1, 4096) == Some(Zeros(4096))
  {
    hide Mapped, Disjoint, Read, Write, Execute, Command.Encode, Ascii, PadText, LeBytes;
    IdentifyStores(n, cns, cntid, cid, prp1);
  }
}
