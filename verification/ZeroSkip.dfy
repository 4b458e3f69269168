/** Writing layer data into a disk image 4 MiB at a time, keeping zero blocks sparse. */
module ZeroSkip {
  import opened Bytes
  import opened DiskFiles

  const HOLE_GRANULARITY: nat := 4 * 1024 * 1024

  function NextChunk(data: ByteString, start: nat): (c: ByteString)
    requires start <= |data|
    ensures start < |data| ==> c != []
    ensures |c| <= HOLE_GRANULARITY && start + |c| <= |data| && c == data[start..start + |c|]
    ensures |c| < HOLE_GRANULARITY ==> start + |c| == |data|
  {
    data[start..Min(start + HOLE_GRANULARITY, |data|)]
  }

  /** A short last chunk is never treated as zero, even when all its bytes are. */
  predicate IsZeroChunk(chunk: ByteString) {
    chunk == Zeros(HOLE_GRANULARITY)
  }

  /** One iteration of the write loop; None is a hole refused, or a short read of the existing contents. */
  function ChunkWrite(f: ByteString, compare: bool, blk: BlockSize, off: nat, chunk: ByteString): Option<ByteString> {
    if compare then
      if off % blk == 0 && |chunk| % blk == 0 && IsZeroChunk(chunk) then TryPunch(f, blk, off, |chunk|)
      else if off + |chunk| > |f| then None
      else if f[off..off + |chunk|] != chunk then Some(Overwrite(f, off, chunk))
      else Some(f)
    else if !IsZeroChunk(chunk) then Some(Overwrite(f, off, chunk))
    else Some(f)
  }

  /** Every byte of the range is still zero or already what `data` wants there. */
  ghost predicate ZeroOrData(f: ByteString, off: nat, data: ByteString) {
    forall k :: off <= k < off + |data| && k < |f| ==> f[k] == 0 || f[k] == data[k - off]
  }

  /** Inside the file, one chunk write is a plain overwrite, however it was carried out. */
  lemma ChunkWriteIsOverwrite(f: ByteString, compare: bool, blk: BlockSize, off: nat, chunk: ByteString)
    requires off + |chunk| <= |f|
    requires compare || ZeroOrData(f, off, chunk)
    ensures ChunkWrite(f, compare, blk, off, chunk) == Some(Overwrite(f, off, chunk))
  {
    var r := ChunkWrite(f, compare, blk, off, chunk);
    var o := Overwrite(f, off, chunk);
    assert r.Some?;
    if IsZeroChunk(chunk) {
      assert forall k :: 0 <= k < |chunk| ==> chunk[k] == 0;
    }
    if chunk == [] {
      assert r.value == f;
    } else if r.value == f {
      forall k | 0 <= k < |f| ensures f[k] == o[k] {
        if off <= k < off + |chunk| && compare {
          assert f[off..off + |chunk|][k - off] == f[k];
        }
      }
    }
    assert r.value == o;
  }

  /** What one chunk write leaves: without comparing, a whole zero chunk is taken to be on the disk already. */
  function Written(f: ByteString, compare: bool, off: nat, chunk: ByteString): ByteString {
    if !compare && IsZeroChunk(chunk) then f else Overwrite(f, off, chunk)
  }

  /** Whatever the file holds, inside it a chunk write overwrites, or skips a whole zero chunk. */
  lemma ChunkWriteIs(f: ByteString, compare: bool, blk: BlockSize, off: nat, chunk: ByteString)
    requires off + |chunk| <= |f|
    ensures ChunkWrite(f, compare, blk, off, chunk) == Some(Written(f, compare, off, chunk))
  {
    hide Overwrite, Punch, IsZeroChunk;
    if compare {
      ChunkWriteIsOverwrite(f, compare, blk, off, chunk);
    }
  }

  /** Byte `j` of the data belongs to one of its whole 4 MiB chunks, and that is zero. */
  predicate InZeroChunk(data: ByteString, j: int) {
    var start := j / (4 * 1024 * 1024) * (4 * 1024 * 1024);
    0 <= j && start + 4 * 1024 * 1024 <= |data| && data[start..start + 4 * 1024 * 1024] == Zeros(4 * 1024 * 1024)
  }

  /** Inside the chunk that starts at a chunk boundary, that chunk decides. */
  lemma InThisChunk(data: ByteString, start: nat, j: int)
    requires start < |data| && start % HOLE_GRANULARITY == 0 && start <= j < start + |NextChunk(data, start)|
    ensures InZeroChunk(data, j) <==> IsZeroChunk(NextChunk(data, start))
  {
    assert j / HOLE_GRANULARITY * HOLE_GRANULARITY == start;
  }

  /** The whole loop from `start` on; the flag is false when a read failed. */
  function ZeroSkipped(f: ByteString, compare: bool, blk: BlockSize, off: nat, data: ByteString, start: nat): (ByteString, bool)
    requires start <= |data|
    decreases |data| - start
  {
    if start == |data| then (f, true)
    else
      var chunk := NextChunk(data, start);
      match ChunkWrite(f, compare, blk, off + start, chunk)
      case None => (f, false)
      case Some(f') => ZeroSkipped(f', compare, blk, off, data, start + |chunk|)
  }

  /** Two adjacent writes of the parts of `data` from `start` on are one write. */
  lemma OverwriteJoins(f: ByteString, at: nat, data: ByteString, start: nat, n: nat)
    requires start + n <= |data| && at + |data| - start <= |f|
    ensures Overwrite(Overwrite(f, at, data[start..start + n]), at + n, data[start + n..]) == Overwrite(f, at, data[start..])
  {
  }

  lemma ZeroOrDataInside(f: ByteString, off: nat, data: ByteString, start: nat, chunk: ByteString)
    requires start + |chunk| <= |data| && off + |data| <= |f| && chunk == data[start..start + |chunk|]
    ensures ZeroOrData(f, off, data) ==>
              ZeroOrData(f, off + start, chunk) && ZeroOrData(Overwrite(f, off + start, chunk), off, data)
  {
  }

  /** Zero skipping, hole punching and compare-before-write all amount to one plain write. */
  lemma {:induction false} ZeroSkippedIsOverwrite(f: ByteString, compare: bool, blk: BlockSize, off: nat, data: ByteString, start: nat)
    requires start <= |data| && off + |data| <= |f|
    requires compare || ZeroOrData(f, off, data)
    ensures ZeroSkipped(f, compare, blk, off, data, start) == (Overwrite(f, off + start, data[start..]), true)
    decreases |data| - start
  {
    hide ZeroOrData, ChunkWrite, NextChunk;
    if start < |data| {
      var chunk := NextChunk(data, start);
      ZeroOrDataInside(f, off, data, start, chunk);
      ChunkWriteIsOverwrite(f, compare, blk, off + start, chunk);
      var f' := Overwrite(f, off + start, chunk);
      ZeroSkippedIsOverwrite(f', compare, blk, off, data, start + |chunk|);
      OverwriteJoins(f, off + start, data, start, |chunk|);
    }
  }

  /** Comparing fails, and says so, where the file ends within a chunk that is not punched. */
  lemma ShortFileFails(f: ByteString, blk: BlockSize, off: nat, data: ByteString)
    requires 0 < |data| < 4 * 1024 * 1024 && |f| < off + |data|
    ensures ZeroSkipped(f, true, blk, off, data, 0) == (f, false)
  {
    var chunk := NextChunk(data, 0);
    assert chunk == data;
    assert |data| < |Zeros(HOLE_GRANULARITY)|;
  }

  /** Returns the offset after the data, or None when reading the existing contents failed. */
  method ZeroSkippingWrite(disk: DiskFile, compare: bool, blk: BlockSize, offset: nat, data: ByteString)
    returns (end: Option<nat>)
    modifies disk
    ensures (disk.data, end.Some?) == ZeroSkipped(old(disk.data), compare, blk, offset, data, 0)
    ensures end.Some? ==> end.value == offset + |data|
  {
    hide Overwrite, Punch, NextChunk, IsZeroChunk;
    ghost var was := disk.data;
    var start, at := 0, offset;
    while start < |data|
      invariant start <= |data| && at == offset + start
      invariant ZeroSkipped(was, compare, blk, offset, data, 0) == ZeroSkipped(disk.data, compare, blk, offset, data, start)
    {
      var chunk := NextChunk(data, start);
      ghost var before := disk.data;
      ghost var step := ChunkWrite(before, compare, blk, at, chunk);
      if compare {
        var isHoleAligned := at % blk == 0 && |chunk| % blk == 0;
        if isHoleAligned && IsZeroChunk(chunk) {
          var punched := disk.PunchHole(blk, at, |chunk|);
          if !punched {
            assert false; // an aligned hole is not refused
          }
        } else {
          var actual := disk.ReadAt(at, |chunk|);
          if actual.None? {
            assert step == None;
            return None;
          }
          if chunk != actual.value {
            disk.WriteAt(chunk, at);
          }
        }
      } else if !IsZeroChunk(chunk) {
        disk.WriteAt(chunk, at);
      }
      assert step == Some(disk.data);
      at := at + |chunk|;
      start := start + |chunk|;
    }
    return Some(at);
  }
}
