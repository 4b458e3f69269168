/** NVMe data transfer: PRP scatter/gather (NVM Express 1.4, section 4.3) against a flat disk image. */
module NvmeTransfer {
  import opened Bytes
  import opened Endian
  import opened GuestMemory
  import opened DiskFiles

  const LBA: nat := 512
  const PAGE: nat := 4096

  /** The data pointer of a command and how many bytes it describes. */
  datatype Buffer = Buffer(prp1: nat, prp2: nat, total: nat) {
    /** Bytes of the first page from PRP1's offset on. */
    function First(): (n: nat)
      ensures 0 < n <= PAGE
    {
      PAGE - prp1 % PAGE
    }

    predicate UsesList() { total > First() + PAGE }

    /** Page `j` after the first holds some byte of the transfer. */
    predicate HasPage(j: nat) { First() + j * PAGE < total }
  }

  /** The guest address of byte `done` of the transfer; 0 when the PRP list cannot be read. */
  function PrpAddr(m: Memory, b: Buffer, done: nat): nat {
    if done < b.First() then b.prp1 + done
    else
      var rem := done - b.First();
      if !b.UsesList() then b.prp2 + rem % PAGE
      else match Read(m, b.prp2 + rem / PAGE * 8, 8)
        case Some(e) => Le(e) + rem % PAGE
        case None => 0
  }

  /** Stores into the disk image; a range that is not wholly inside is discarded. */
  function DiskStore(disk: ByteString, off: nat, data: ByteString): (r: ByteString)
    ensures |r| == |disk|
    ensures forall i :: 0 <= i < |disk| ==>
      r[i] == if off + |data| <= |disk| && off <= i < off + |data| then data[i - off] else disk[i]
  {
    if off + |data| <= |disk| then disk[..off] + data + disk[off + |data|..] else disk
  }

  /** Stores one run of guest bytes; an unmapped run stores nothing. */
  function Gather(m: Memory, gpa: nat, chunk: nat, disk: ByteString, off: nat): (r: ByteString)
    ensures |r| == |disk|
  {
    match Read(m, gpa, chunk)
    case Some(data) => DiskStore(disk, off, data)
    case None => disk
  }

  /** Bytes moved by the iteration that starts at `done`: up to the guest page boundary. */
  function ChunkAt(gpa: nat, b: Buffer, done: nat): (n: nat)
    requires done < b.total
    ensures 0 < n <= b.total - done && n <= PAGE
  {
    Min(PAGE - gpa % PAGE, b.total - done)
  }

  /** The transfer loop from `done` on. */
  function Transfer(m: Memory, disk: ByteString, write: bool, off: nat, b: Buffer, done: nat): (r: (Memory, ByteString))
    ensures |r.1| == |disk|
    decreases b.total - done
  {
    if done >= b.total then (m, disk)
    else
      var gpa := PrpAddr(m, b, done);
      var chunk := ChunkAt(gpa, b, done);
      if write then
        Transfer(m, Gather(m, gpa, chunk, disk, off + done), write, off, b, done + chunk)
      else
        Transfer(Write(m, gpa, Padded(disk, off + done, chunk)), disk, write, off, b, done + chunk)
  }

  lemma TransferStep(m: Memory, disk: ByteString, write: bool, off: nat, b: Buffer, done: nat)
    requires done < b.total
    ensures var gpa := PrpAddr(m, b, done);
            var chunk := ChunkAt(gpa, b, done);
            Transfer(m, disk, write, off, b, done) ==
              if write then Transfer(m, Gather(m, gpa, chunk, disk, off + done), write, off, b, done + chunk)
              else Transfer(Write(m, gpa, Padded(disk, off + done, chunk)), disk, write, off, b, done + chunk)
  {
    hide PrpAddr, Gather, Write, Padded;
  }

  lemma {:induction false} ReadKeepsDisk(m: Memory, disk: ByteString, off: nat, b: Buffer, done: nat)
    ensures Transfer(m, disk, false, off, b, done).1 == disk
    decreases b.total - done
  {
    hide PrpAddr, Write, Padded;
    if done < b.total {
      var gpa := PrpAddr(m, b, done);
      var chunk := ChunkAt(gpa, b, done);
      ReadKeepsDisk(Write(m, gpa, Padded(disk, off + done, chunk)), disk, off, b, done + chunk);
    }
  }

  // ----- what a well-formed PRP pair describes

  /** The base address of page `j` after the first. */
  function NextPage(m: Memory, b: Buffer, j: nat): nat {
    if !b.UsesList() then b.prp2
    else match Read(m, b.prp2 + j * 8, 8)
      case Some(e) => Le(e)
      case None => 0
  }

  /** Byte `k` of the transfer when every page after the first is page aligned. */
  function Addr(m: Memory, b: Buffer, k: nat): nat {
    if k < b.First() then b.prp1 + k else NextPage(m, b, (k - b.First()) / PAGE) + (k - b.First()) % PAGE
  }

  /** How much of page `j` after the first the transfer uses. */
  function PageBytes(b: Buffer, j: nat): (n: nat)
    requires b.HasPage(j)
  {
    Min(PAGE, b.total - (b.First() + j * PAGE))
  }

  /** The later pages are page aligned, the list is readable, and every page is mapped as far as it is used. */
  ghost predicate Described(m: Memory, b: Buffer) {
    && Disjoint(m)
    && Mapped(m, b.prp1, Min(b.First(), b.total))
    && (forall j: nat :: b.HasPage(j) ==> PageDescribed(m, b, j))
  }

  ghost predicate PageDescribed(m: Memory, b: Buffer, j: nat)
    requires b.HasPage(j)
  {
    && (b.UsesList() ==> Mapped(m, b.prp2 + j * 8, 8))
    && NextPage(m, b, j) % PAGE == 0
    && Mapped(m, NextPage(m, b, j), PageBytes(b, j))
  }

  /** No two bytes of the buffer share an address, and none lies in the PRP list. */
  ghost predicate Separate(m: Memory, b: Buffer) {
    && (forall j, k :: 0 <= j < k < b.total ==> Addr(m, b, j) != Addr(m, b, k))
    && (b.UsesList() ==> forall j: nat, k :: b.HasPage(j) && 0 <= k < b.total ==>
         !(b.prp2 + j * 8 <= Addr(m, b, k) < b.prp2 + j * 8 + 8))
  }

  /** The transfer stands at a page boundary of the buffer. */
  predicate AtBoundary(b: Buffer, done: nat) {
    done == 0 || (done >= b.First() && (done - b.First()) % PAGE == 0)
  }

  lemma DivMod(j: nat, r: nat)
    requires r < PAGE
    ensures (j * PAGE + r) / PAGE == j && (j * PAGE + r) % PAGE == r
  {
  }

  ghost predicate RunAt(m: Memory, b: Buffer, done: nat)
    requires done < b.total
  {
    var gpa := PrpAddr(m, b, done);
    var chunk := ChunkAt(gpa, b, done);
    && Mapped(m, gpa, chunk)
    && (forall k :: done <= k < done + chunk ==> Addr(m, b, k) == gpa + (k - done))
    && (done + chunk < b.total ==> AtBoundary(b, done + chunk))
  }

  lemma LaterPageAddr(m: Memory, b: Buffer, j: nat, r: nat)
    requires r < PAGE
    ensures PrpAddr(m, b, b.First() + j * PAGE) == NextPage(m, b, j)
    ensures Addr(m, b, b.First() + j * PAGE + r) == NextPage(m, b, j) + r
  {
    DivMod(j, 0);
    DivMod(j, r);
  }

  lemma LaterPageRun(m: Memory, b: Buffer, j: nat, page: nat, chunk: nat)
    requires page == NextPage(m, b, j) && chunk <= PAGE
    ensures forall k :: b.First() + j * PAGE <= k < b.First() + j * PAGE + chunk ==>
              Addr(m, b, k) == page + (k - (b.First() + j * PAGE))
  {
    var done := b.First() + j * PAGE;
    forall k | done <= k < done + chunk
      ensures Addr(m, b, k) == page + (k - done)
    {
      LaterPageAddr(m, b, j, k - done);
    }
  }

  lemma LaterPageIsRun(m: Memory, b: Buffer, done: nat, j: nat)
    requires Described(m, b) && done < b.total && done == b.First() + j * PAGE
    ensures RunAt(m, b, done)
  {
    hide Mapped, Disjoint, PrpAddr, Addr, NextPage;
    assert b.HasPage(j);
    var page := NextPage(m, b, j);
    LaterPageAddr(m, b, j, 0);
    var chunk := Min(PAGE, b.total - done);
    assert ChunkAt(page, b, done) == chunk && Mapped(m, page, chunk) by {
      assert PageDescribed(m, b, j);
    }
    LaterPageRun(m, b, j, page, chunk);
    if done + chunk < b.total {
      assert done + chunk - b.First() == (j + 1) * PAGE + 0;
      DivMod(j + 1, 0);
    }
  }

  /** From a boundary, one iteration moves a run of consecutive addresses and ends at a boundary. */
  lemma ChunkIsRun(m: Memory, b: Buffer, done: nat)
    requires Described(m, b) && done < b.total && AtBoundary(b, done)
    ensures RunAt(m, b, done)
  {
    if done >= b.First() {
      LaterPageIsRun(m, b, done, (done - b.First()) / PAGE);
    }
  }

  // ----- the transfer is a flat copy

  /** The guest byte that byte `k` of the transfer names. */
  function GuestByte(m: Memory, b: Buffer, k: nat): Byte {
    match At(m, Addr(m, b, k)) case Some(x) => x case None => 0
  }

  function DiskByte(disk: ByteString, i: nat): Byte { if i < |disk| then disk[i] else 0 }

  /** These are the guest bytes of the transfer from byte `done` on. */
  ghost predicate HoldsRun(m: Memory, b: Buffer, done: nat, data: ByteString) {
    forall i :: 0 <= i < |data| ==> data[i] == GuestByte(m, b, done + i)
  }

  lemma ChunkReads(m: Memory, b: Buffer, done: nat)
    requires Described(m, b) && done < b.total && AtBoundary(b, done)
    ensures var chunk := ChunkAt(PrpAddr(m, b, done), b, done);
            var r := Read(m, PrpAddr(m, b, done), chunk);
            r.Some? && HoldsRun(m, b, done, r.value)
  {
    hide AtBoundary, PageDescribed, PrpAddr, Addr, Read, Mapped, Disjoint, At;
    ChunkIsRun(m, b, done);
    RunReads(m, b, done, PrpAddr(m, b, done), ChunkAt(PrpAddr(m, b, done), b, done));
  }

  lemma RunReads(m: Memory, b: Buffer, done: nat, gpa: nat, chunk: nat)
    requires chunk > 0 && Mapped(m, gpa, chunk) && Disjoint(m)
    requires forall k :: done <= k < done + chunk ==> Addr(m, b, k) == gpa + (k - done)
    ensures var r := Read(m, gpa, chunk); r.Some? && HoldsRun(m, b, done, r.value)
  {
    hide Addr, Read, Mapped, At, Disjoint;
    ReadBytes(m, gpa, chunk);
    forall i | 0 <= i < chunk
      ensures Read(m, gpa, chunk).value[i] == GuestByte(m, b, done + i)
    {
      assert Addr(m, b, done + i) == gpa + i;
    }
  }

  lemma ChunkEndsAtBoundary(m: Memory, b: Buffer, done: nat)
    requires Described(m, b) && done < b.total && AtBoundary(b, done)
    ensures var next := done + ChunkAt(PrpAddr(m, b, done), b, done); next == b.total || AtBoundary(b, next)
  {
    ChunkIsRun(m, b, done);
  }

  /** Where the run of bytes that is moved together with byte `k` ends: at the end of its page, or of the transfer. */
  function RunEnd(b: Buffer, k: nat): nat {
    Min(if k < b.First() then b.First() else b.First() + ((k - b.First()) / PAGE + 1) * PAGE, b.total)
  }

  lemma ChunkEndsRun(m: Memory, b: Buffer, done: nat, k: nat)
    requires Described(m, b) && done < b.total && AtBoundary(b, done)
    requires done <= k < done + ChunkAt(PrpAddr(m, b, done), b, done)
    ensures RunEnd(b, k) == done + ChunkAt(PrpAddr(m, b, done), b, done)
  {
    hide Mapped, Disjoint, PrpAddr, NextPage;
    if done >= b.First() {
      var j := (done - b.First()) / PAGE;
      assert b.HasPage(j) && done == b.First() + j * PAGE;
      assert PageDescribed(m, b, j);
      LaterPageAddr(m, b, j, 0);
      DivMod(j, k - done);
    } else {
      FirstPageAddr(m, b);
    }
  }

  lemma FirstPageAddr(m: Memory, b: Buffer)
    ensures PrpAddr(m, b, 0) == b.prp1 && b.prp1 % PAGE + b.First() == PAGE
  {
  }

  /**
   * From byte `done` on, each run of the buffer that fits on the disk is there, a run that would reach past
   * its end is not, and the disk is otherwise as before.
   */
  ghost predicate Gathered(m: Memory, disk: ByteString, disk': ByteString, off: nat, b: Buffer, done: nat) {
    && |disk'| == |disk|
    && forall i :: 0 <= i < |disk| ==>
         disk'[i] == if off + done <= i < off + b.total && off + RunEnd(b, i - off) <= |disk| then GuestByte(m, b, i - off) else disk[i]
  }

  /** NVMe write: the gathered guest bytes land at the disk offset, run by run as far as they fit, and nothing else changes. */
  lemma {:induction false} WriteGathers(m: Memory, disk: ByteString, off: nat, b: Buffer, done: nat)
    requires Described(m, b) && (done == b.total || (done < b.total && AtBoundary(b, done)))
    ensures var r := Transfer(m, disk, true, off, b, done);
            r.0 == m && Gathered(m, disk, r.1, off, b, done)
    decreases b.total - done
  {
    hide Described, Gathered, HoldsRun, AtBoundary, PrpAddr, GuestByte, ChunkAt, DiskStore, Read, Gather, RunEnd;
    if done < b.total {
      var gpa := PrpAddr(m, b, done);
      var chunk := ChunkAt(gpa, b, done);
      ChunkReads(m, b, done);
      ChunkEndsAtBoundary(m, b, done);
      var disk1 := Gather(m, gpa, chunk, disk, off + done);
      var data := Read(m, gpa, chunk).value;
      GatherMapped(m, gpa, chunk, disk, off + done);
      WriteGathers(m, disk1, off, b, done + chunk);
      var r := Transfer(m, disk1, true, off, b, done + chunk);
      forall k | done <= k < done + chunk ensures RunEnd(b, k) == done + chunk {
        ChunkEndsRun(m, b, done, k);
      }
      GatheredJoins(m, disk, data, r.1, off, b, done);
    } else {
      GatheredNothing(m, disk, off, b);
    }
  }

  lemma GatherMapped(m: Memory, gpa: nat, chunk: nat, disk: ByteString, off: nat)
    requires Read(m, gpa, chunk).Some?
    ensures Gather(m, gpa, chunk, disk, off) == DiskStore(disk, off, Read(m, gpa, chunk).value)
  {
  }

  lemma GatheredNothing(m: Memory, disk: ByteString, off: nat, b: Buffer)
    ensures Gathered(m, disk, disk, off, b, b.total)
  {
  }

  lemma GatheredJoins(m: Memory, disk: ByteString, data: ByteString, disk': ByteString, off: nat, b: Buffer, done: nat)
    requires done + |data| <= b.total
    requires forall k :: done <= k < done + |data| ==> RunEnd(b, k) == done + |data|
    requires HoldsRun(m, b, done, data)
    requires Gathered(m, DiskStore(disk, off + done, data), disk', off, b, done + |data|)
    ensures Gathered(m, disk, disk', off, b, done)
  {
    hide RunEnd, GuestByte;
    forall i | 0 <= i < |disk|
      ensures disk'[i] == if off + done <= i < off + b.total && off + RunEnd(b, i - off) <= |disk| then GuestByte(m, b, i - off) else disk[i]
    {
      if off + done <= i < off + done + |data| {
        assert RunEnd(b, i - off) == done + |data|;
        assert data[i - off - done] == GuestByte(m, b, done + (i - off - done));
      }
    }
  }

  ghost predicate SameBuffer(m: Memory, m': Memory, b: Buffer) {
    forall k :: 0 <= k < b.total ==> Addr(m', b, k) == Addr(m, b, k)
  }

  /** A stored range misses every entry of the PRP list. */
  ghost predicate MissesList(b: Buffer, gpa: nat, n: nat) {
    b.UsesList() ==> forall j: nat :: b.HasPage(j) ==> Apart(gpa, n, b.prp2 + j * 8, 8)
  }

  lemma StoreKeepsPage(m: Memory, b: Buffer, gpa: nat, data: ByteString, j: nat)
    requires b.HasPage(j) && Described(m, b) && Mapped(m, gpa, |data|) && MissesList(b, gpa, |data|)
    ensures var m' := Write(m, gpa, data);
            NextPage(m', b, j) == NextPage(m, b, j) && PageDescribed(m', b, j)
  {
    hide Write, Read, Mapped;
    assert PageDescribed(m, b, j);
    WriteLayout(m, gpa, data);
    var entry := b.prp2 + j * 8;
    if b.UsesList() {
      assert Apart(gpa, |data|, entry, 8);
      WriteApart(m, gpa, data, entry, 8);
      assert Read(Write(m, gpa, data), entry, 8) == Read(m, entry, 8);
    }
  }

  lemma SamePagesSameAddr(m: Memory, m': Memory, b: Buffer, k: nat)
    requires forall j: nat :: b.HasPage(j) ==> NextPage(m', b, j) == NextPage(m, b, j)
    requires k < b.total
    ensures Addr(m', b, k) == Addr(m, b, k)
  {
    if k >= b.First() {
      assert b.HasPage((k - b.First()) / PAGE);
    }
  }

  /** Storing data that misses the PRP list leaves the buffer described as before. */
  lemma StoreKeepsBuffer(m: Memory, b: Buffer, gpa: nat, data: ByteString)
    requires Described(m, b) && Mapped(m, gpa, |data|) && MissesList(b, gpa, |data|)
    ensures Described(Write(m, gpa, data), b)
    ensures SameBuffer(m, Write(m, gpa, data), b)
  {
    var m' := Write(m, gpa, data);
    WriteLayout(m, gpa, data);
    forall j: nat | b.HasPage(j)
      ensures NextPage(m', b, j) == NextPage(m, b, j) && PageDescribed(m', b, j)
    {
      StoreKeepsPage(m, b, gpa, data, j);
    }
    forall k | 0 <= k < b.total
      ensures Addr(m', b, k) == Addr(m, b, k)
    {
      SamePagesSameAddr(m, m', b, k);
    }
  }

  /** The run of one iteration shares no address with the PRP list. */
  lemma ChunkMissesList(m: Memory, b: Buffer, done: nat)
    requires Described(m, b) && Separate(m, b) && done < b.total && AtBoundary(b, done)
    ensures MissesList(b, PrpAddr(m, b, done), ChunkAt(PrpAddr(m, b, done), b, done))
  {
    ChunkIsRun(m, b, done);
    var gpa := PrpAddr(m, b, done);
    var chunk := ChunkAt(gpa, b, done);
    forall j: nat | b.UsesList() && b.HasPage(j)
      ensures Apart(gpa, chunk, b.prp2 + j * 8, 8)
    {
      var e := b.prp2 + j * 8;
      var i := if gpa <= e < gpa + chunk then e - gpa else 0;
      assert !(e <= Addr(m, b, done + i) < e + 8);
    }
  }

  /** One iteration of a read: its bytes arrive, the buffer stays described, all else is untouched. */
  lemma ChunkStores(m: Memory, disk: ByteString, off: nat, b: Buffer, done: nat)
    requires Described(m, b) && Separate(m, b) && done < b.total && AtBoundary(b, done)
    ensures var gpa := PrpAddr(m, b, done);
            var chunk := ChunkAt(gpa, b, done);
            var m' := Write(m, gpa, Padded(disk, off + done, chunk));
            && Described(m', b) && SameBuffer(m, m', b)
            && (forall k :: done <= k < done + chunk ==> At(m', Addr(m, b, k)) == Some(DiskByte(disk, off + k)))
            && (forall a: nat :: (forall k :: done <= k < done + chunk ==> Addr(m, b, k) != a) ==> At(m', a) == At(m, a))
  {
    ChunkIsRun(m, b, done);
    ChunkMissesList(m, b, done);
    var gpa := PrpAddr(m, b, done);
    var data := Padded(disk, off + done, ChunkAt(gpa, b, done));
    StoreKeepsBuffer(m, b, gpa, data);
    StoreRun(m, b, done, gpa, data);
  }

  lemma StoreRun(m: Memory, b: Buffer, done: nat, gpa: nat, data: ByteString)
    requires Disjoint(m) && Mapped(m, gpa, |data|)
    requires forall k :: done <= k < done + |data| ==> Addr(m, b, k) == gpa + (k - done)
    ensures var m' := Write(m, gpa, data);
            && (forall k :: done <= k < done + |data| ==> At(m', Addr(m, b, k)) == Some(data[k - done]))
            && (forall a: nat :: (forall k :: done <= k < done + |data| ==> Addr(m, b, k) != a) ==> At(m', a) == At(m, a))
  {
    var m' := Write(m, gpa, data);
    forall k | done <= k < done + |data|
      ensures At(m', Addr(m, b, k)) == Some(data[k - done])
    {
      WriteByte(m, gpa, data, gpa + (k - done));
    }
    forall a: nat | forall k :: done <= k < done + |data| ==> Addr(m, b, k) != a
      ensures At(m', a) == At(m, a)
    {
      var k := if gpa <= a < gpa + |data| then done + (a - gpa) else done;
      assert done <= k < done + |data| ==> Addr(m, b, k) == gpa + (k - done);
      WriteByte(m, gpa, data, a);
    }
  }

  /** The buffer holds the disk bytes from byte `done` on. */
  ghost predicate Received(m: Memory, m': Memory, disk: ByteString, off: nat, b: Buffer, done: nat) {
    && (forall k :: done <= k < b.total ==> At(m', Addr(m, b, k)) == Some(DiskByte(disk, off + k)))
    && (forall a: nat :: (forall k :: done <= k < b.total ==> Addr(m, b, k) != a) ==> At(m', a) == At(m, a))
  }

  lemma ReceivedNothing(m: Memory, disk: ByteString, off: nat, b: Buffer)
    ensures Received(m, m, disk, off, b, b.total)
  {
  }

  lemma SameBufferSeparate(m: Memory, m': Memory, b: Buffer)
    requires Separate(m, b) && SameBuffer(m, m', b)
    ensures Separate(m', b)
  {
  }

  /** NVMe read: every byte of the buffer receives its disk byte, and no other address changes. */
  lemma {:induction false} ReadScatters(m: Memory, disk: ByteString, off: nat, b: Buffer, done: nat)
    requires Described(m, b) && Separate(m, b)
    requires done == b.total || (done < b.total && AtBoundary(b, done))
    ensures var r := Transfer(m, disk, false, off, b, done);
            r.1 == disk && Received(m, r.0, disk, off, b, done)
    decreases b.total - done
  {
    hide Described, Separate, SameBuffer, Received, AtBoundary, PrpAddr, Padded, Write, At, Addr, ChunkAt;
    if done < b.total {
      ChunkStores(m, disk, off, b, done);
      ChunkEndsAtBoundary(m, b, done);
      var chunk := ChunkAt(PrpAddr(m, b, done), b, done);
      var m1 := Write(m, PrpAddr(m, b, done), Padded(disk, off + done, chunk));
      SameBufferSeparate(m, m1, b);
      ReadScatters(m1, disk, off, b, done + chunk);
      ReceivedJoins(m, m1, Transfer(m1, disk, false, off, b, done + chunk).0, disk, off, b, done, chunk);
    } else {
      ReceivedNothing(m, disk, off, b);
    }
  }

  lemma ReceivedJoins(m: Memory, m1: Memory, m2: Memory, disk: ByteString, off: nat, b: Buffer, done: nat, chunk: nat)
    requires Separate(m, b) && SameBuffer(m, m1, b) && done + chunk <= b.total
    requires forall k :: done <= k < done + chunk ==> At(m1, Addr(m, b, k)) == Some(DiskByte(disk, off + k))
    requires forall a: nat :: (forall k :: done <= k < done + chunk ==> Addr(m, b, k) != a) ==> At(m1, a) == At(m, a)
    requires Received(m1, m2, disk, off, b, done + chunk)
    ensures Received(m, m2, disk, off, b, done)
  {
    forall k | done <= k < b.total
      ensures At(m2, Addr(m, b, k)) == Some(DiskByte(disk, off + k))
    {
      assert Addr(m1, b, k) == Addr(m, b, k);
    }
    forall a: nat | forall k :: done <= k < b.total ==> Addr(m, b, k) != a
      ensures At(m2, a) == At(m, a)
    {
      assert forall k :: done + chunk <= k < b.total ==> Addr(m1, b, k) == Addr(m, b, k);
    }
  }

  lemma RunEndsInside(b: Buffer)
    ensures forall k: nat :: RunEnd(b, k) <= b.total
  {
  }

  /**
   * Writing from one buffer and later reading the same blocks into another gives the second
   * buffer the bytes the first one held, whatever else guest memory went through in between.
   */
  lemma WriteThenRead(m: Memory, disk: ByteString, off: nat, src: Buffer, m2: Memory, dst: Buffer)
    requires Described(m, src) && Described(m2, dst) && Separate(m2, dst)
    requires 0 < src.total == dst.total && off + src.total <= |disk|
    ensures var disk' := Transfer(m, disk, true, off, src, 0).1;
            var m' := Transfer(m2, disk', false, off, dst, 0).0;
            && (forall k :: 0 <= k < src.total ==> At(m', Addr(m2, dst, k)) == Some(GuestByte(m, src, k)))
            && (forall i :: 0 <= i < |disk| && !(off <= i < off + src.total) ==> disk'[i] == disk[i])
            && (forall a: nat :: (forall k :: 0 <= k < dst.total ==> Addr(m2, dst, k) != a) ==> At(m', a) == At(m2, a))
  {
    WriteGathers(m, disk, off, src, 0);
    RunEndsInside(src);
    var disk' := Transfer(m, disk, true, off, src, 0).1;
    ReadScatters(m2, disk', off, dst, 0);
    var m' := Transfer(m2, disk', false, off, dst, 0).0;
    forall k | 0 <= k < src.total
      ensures At(m', Addr(m2, dst, k)) == Some(GuestByte(m, src, k))
    {
      assert disk'[off + k] == GuestByte(m, src, off + k - off);
    }
  }
}
