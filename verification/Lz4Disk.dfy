/** Lume's oldest disk encoding: parts without offsets, written one after the other into a file that may turn out too short. */
module Lz4Disk {
  import opened Bytes
  import opened DiskFiles
  import opened SparseWriters
  import opened ZeroSkip

  /** One part, decompressed, through a writer of its own. */
  function WritePart(f: ByteString, offset: nat, part: ByteString): ByteString {
    var (f1, w1) := Feed(f, Writer(offset, []), part);
    Flush(f1, w1).0
  }

  function WriteParts(f: ByteString, offset: nat, parts: seq<ByteString>): ByteString
    decreases |parts|
  {
    if parts == [] then f else WriteParts(WritePart(f, offset, parts[0]), offset + |parts[0]|, parts[1..])
  }

  /** The file starts at the declared size, and is grown at the end if the parts went past it. */
  function PullDisk(parts: seq<ByteString>, declared: nat): ByteString {
    var f := WriteParts(Zeros(declared), 0, parts);
    var total := |Concat(parts)|;
    if total > declared then Resize(f, total) else f
  }

  // ----- a short file behaves like its zero-extended self

  lemma {:induction false} FeedExtends(f: ByteString, g: ByteString, n: nat, w: Writer, data: ByteString)
    requires Extends(f, g, n) && |w.buffer| < HOLE_GRANULARITY && w.offset + |w.buffer| + |data| <= n
    ensures Extends(Feed(f, w, data).0, Feed(g, w, data).0, n) && Feed(g, w, data).1 == Feed(f, w, data).1
    ensures var w1 := Feed(f, w, data).1; w1.offset + |w1.buffer| == w.offset + |w.buffer| + |data|
    decreases |data|
  {
    hide Extends, Take;
    if data != [] {
      var take := Min(HOLE_GRANULARITY - |w.buffer|, |data|);
      TakeExtends(f, g, n, w, data[..take]);
      TakeRoom(f, w, data[..take]);
      FeedExtends(Take(f, w, data[..take]).0, Take(g, w, data[..take]).0, n, Take(f, w, data[..take]).1, data[take..]);
    }
  }

  lemma WritePartExtends(f: ByteString, g: ByteString, n: nat, offset: nat, part: ByteString)
    requires Extends(f, g, n) && offset + |part| <= n
    ensures Extends(WritePart(f, offset, part), WritePart(g, offset, part), n)
  {
    hide Extends, Feed, Flush;
    FeedExtends(f, g, n, Writer(offset, []), part);
    FlushExtends(Feed(f, Writer(offset, []), part).0, Feed(g, Writer(offset, []), part).0, n, Feed(f, Writer(offset, []), part).1);
  }

  lemma {:induction false} WritePartsExtends(f: ByteString, g: ByteString, n: nat, offset: nat, parts: seq<ByteString>)
    requires Extends(f, g, n) && offset + |Concat(parts)| <= n
    ensures Extends(WriteParts(f, offset, parts), WriteParts(g, offset, parts), n)
    decreases |parts|
  {
    hide Extends, WritePart;
    if parts != [] {
      WritePartExtends(f, g, n, offset, parts[0]);
      WritePartsExtends(WritePart(f, offset, parts[0]), WritePart(g, offset, parts[0]), n, offset + |parts[0]|, parts[1..]);
    }
  }

  // ----- over zeros, the parts end up end to end

  lemma WritePartIs(f: ByteString, offset: nat, part: ByteString)
    requires ZeroRange(f, offset, |part|)
    ensures WritePart(f, offset, part) == Overwrite(f, offset, part)
  {
    hide Flush, Feed, ZeroRange;
    assert [part][1..] == [] && Concat([]) == [];
    assert Concat([part]) == part;
    StreamIsWritten(f, offset, [part]);
    FedOnce(f, Writer(offset, []), part);
  }

  lemma FedOnce(f: ByteString, w: Writer, part: ByteString)
    requires |w.buffer| < HOLE_GRANULARITY
    ensures FeedAll(f, w, [part]) == Feed(f, w, part)
  {
    hide Feed;
    var (f1, w1) := Feed(f, w, part);
    assert [part][1..] == [];
    assert FeedAll(f1, w1, []) == (f1, w1);
  }

  lemma PartsJoinUp(f: ByteString, offset: nat, part: ByteString, rest: ByteString)
    requires offset + |part| + |rest| <= |f|
    ensures Overwrite(Overwrite(f, offset, part), offset + |part|, rest) == Overwrite(f, offset, part + rest)
  {
  }

  lemma ZeroRangeAfter(f: ByteString, offset: nat, part: ByteString, n: nat)
    requires ZeroRange(f, offset, |part| + n)
    ensures ZeroRange(f, offset, |part|) && ZeroRange(Overwrite(f, offset, part), offset + |part|, n)
  {
  }

  lemma {:induction false} WritePartsIs(f: ByteString, offset: nat, parts: seq<ByteString>)
    requires ZeroRange(f, offset, |Concat(parts)|)
    ensures WriteParts(f, offset, parts) == Overwrite(f, offset, Concat(parts))
    decreases |parts|
  {
    hide WritePart, ZeroRange, Overwrite;
    if parts == [] {
      NoStore(f, offset);
    } else {
      var rest := Concat(parts[1..]);
      ZeroRangeInside(f, offset, |Concat(parts)|);
      ZeroRangeAfter(f, offset, parts[0], |rest|);
      WritePartIs(f, offset, parts[0]);
      WritePartsIs(Overwrite(f, offset, parts[0]), offset + |parts[0]|, parts[1..]);
      PartsJoinUp(f, offset, parts[0], rest);
    }
  }

  lemma ZeroRangeInside(f: ByteString, off: nat, n: nat)
    requires ZeroRange(f, off, n)
    ensures off + n <= |f|
  {
  }

  lemma ZerosExtend(declared: nat, n: nat)
    requires declared <= n
    ensures Extends(Zeros(declared), Zeros(n), n) && ZeroRange(Zeros(n), 0, n)
  {
  }

  lemma {:induction false} WritePartsNotShorter(f: ByteString, offset: nat, parts: seq<ByteString>)
    ensures |WriteParts(f, offset, parts)| >= |f|
    decreases |parts|
  {
    hide WritePart;
    if parts != [] {
      NotShorter(f, Writer(offset, []), parts[0]);
      WritePartsNotShorter(WritePart(f, offset, parts[0]), offset + |parts[0]|, parts[1..]);
    }
  }

  lemma NotShorter(f: ByteString, w: Writer, part: ByteString)
    requires w.buffer == []
    ensures |WritePart(f, w.offset, part)| >= |f|
  {
    hide Feed, Flush;
    FeedNotShorter(f, w, part);
    FlushNotShorter(Feed(f, w, part).0, Feed(f, w, part).1);
  }

  lemma {:induction false} FeedNotShorter(f: ByteString, w: Writer, data: ByteString)
    requires |w.buffer| < HOLE_GRANULARITY
    ensures |Feed(f, w, data).0| >= |f|
    decreases |data|
  {
    hide Flush;
    if data != [] {
      var take := Min(HOLE_GRANULARITY - |w.buffer|, |data|);
      TakeRoom(f, w, data[..take]);
      FlushNotShorter(f, w.(buffer := w.buffer + data[..take]));
      FeedNotShorter(Take(f, w, data[..take]).0, Take(f, w, data[..take]).1, data[take..]);
    }
  }

  /** The pulled disk is the parts end to end, then zeros up to the declared size, even when that was too small. */
  lemma PulledDisk(parts: seq<ByteString>, declared: nat)
    ensures PullDisk(parts, declared) == Concat(parts) + Zeros(if declared > |Concat(parts)| then declared - |Concat(parts)| else 0)
  {
    hide WriteParts, Concat, ZeroRange, Extends;
    var total := |Concat(parts)|;
    var n := if declared > total then declared else total;
    var f, g := WriteParts(Zeros(declared), 0, parts), WriteParts(Zeros(n), 0, parts);
    ZerosExtend(declared, n);
    WritePartsExtends(Zeros(declared), Zeros(n), n, 0, parts);
    ZeroRangePart(Zeros(n), 0, total, n);
    WritePartsIs(Zeros(n), 0, parts);
    WritePartsNotShorter(Zeros(declared), 0, parts);
    ExtendsIs(f, g, n);
    OverZeros(Concat(parts), n);
    if declared >= total {
      assert Resize(f, n) == f;
    }
  }

  lemma ExtendsIs(f: ByteString, g: ByteString, n: nat)
    requires Extends(f, g, n)
    ensures g == Resize(f, n) && |f| <= n
  {
  }

  lemma OverZeros(data: ByteString, n: nat)
    requires |data| <= n
    ensures Overwrite(Zeros(n), 0, data) == data + Zeros(n - |data|)
  {
  }

  /** The pull as a loop over a file, with a running offset. */
  method PullLz4Disk(disk: DiskFile, parts: seq<ByteString>, declared: nat)
    requires disk.data == []
    modifies disk
    ensures disk.data == PullDisk(parts, declared)
  {
    hide Feed, Flush, Concat, Resize;
    EmptyResized(declared);
    if declared > 0 {
      disk.Truncate(declared);
    }
    var offset, i := 0, 0;
    assert parts[0..] == parts && parts[..0] == [];
    ConcatNone();
    while i < |parts|
      invariant i <= |parts| && offset == |Concat(parts[..i])|
      invariant WriteParts(disk.data, offset, parts[i..]) == WriteParts(Zeros(declared), 0, parts)
    {
      assert parts[i..][0] == parts[i] && parts[i..][1..] == parts[i + 1..];
      var writer := new SparseFileWriter(disk, offset);
      var _ := writer.Write(parts[i]);
      writer.Close();
      ConcatOne(parts, i);
      offset := offset + |parts[i]|;
      i := i + 1;
    }
    assert parts[..i] == parts && parts[i..] == [];
    if offset > declared {
      disk.Truncate(offset);
    }
  }

  lemma EmptyResized(n: nat)
    ensures Resize([], n) == Zeros(n)
  {
  }

  lemma ConcatNone()
    ensures Concat([]) == []
  {
  }

  lemma ConcatOne(parts: seq<ByteString>, i: nat)
    requires i < |parts|
    ensures |Concat(parts[..i + 1])| == |Concat(parts[..i])| + |parts[i]|
  {
    assert parts[..i + 1] == parts[..i] + [parts[i]];
    ConcatAppend(parts[..i], parts[i]);
  }
}
