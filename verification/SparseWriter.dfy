/** Streaming disk parts into a pre-sized file with zero runs skipped, by one writer or by many at once. */
module SparseWriters {
  import opened Bytes
  import opened DiskFiles
  import opened ZeroSkip

  /** A writer's position: everything before `offset` is on the file, `buffer` is still to come. */
  datatype Writer = Writer(offset: nat, buffer: ByteString)

  predicate AllZeroes(data: ByteString) {
    forall i :: 0 <= i < |data| ==> data[i] == 0
  }

  /** Writes out the buffer unless it is all zero, and moves past it either way. */
  function Flush(f: ByteString, w: Writer): (ByteString, Writer) {
    if w.buffer == [] then (f, w)
    else (if AllZeroes(w.buffer) then f else Overwrite(f, w.offset, w.buffer), Writer(w.offset + |w.buffer|, []))
  }

  /** One turn of the Write loop: take what fits, flush a full buffer. */
  function Take(f: ByteString, w: Writer, data: ByteString): (ByteString, Writer)
    requires |w.buffer| + |data| <= HOLE_GRANULARITY
  {
    var w1 := w.(buffer := w.buffer + data);
    if |w1.buffer| == HOLE_GRANULARITY then Flush(f, w1) else (f, w1)
  }

  /** The Write loop. */
  function Feed(f: ByteString, w: Writer, data: ByteString): (r: (ByteString, Writer))
    requires |w.buffer| < HOLE_GRANULARITY
    ensures |r.1.buffer| < HOLE_GRANULARITY
    decreases |data|
  {
    if data == [] then (f, w)
    else
      var take := Min(HOLE_GRANULARITY - |w.buffer|, |data|);
      var (f1, w1) := Take(f, w, data[..take]);
      Feed(f1, w1, data[take..])
  }

  function FeedAll(f: ByteString, w: Writer, pieces: seq<ByteString>): (r: (ByteString, Writer))
    requires |w.buffer| < HOLE_GRANULARITY
    ensures |r.1.buffer| < HOLE_GRANULARITY
    decreases |pieces|
  {
    if pieces == [] then (f, w) else var (f1, w1) := Feed(f, w, pieces[0]); FeedAll(f1, w1, pieces[1..])
  }

  /** The file range reads zero. */
  ghost predicate ZeroRange(f: ByteString, off: nat, n: nat) {
    off + n <= |f| && forall k :: off <= k < off + n ==> f[k] == 0
  }

  lemma FlushIsOverwrite(f: ByteString, w: Writer)
    requires ZeroRange(f, w.offset, |w.buffer|)
    ensures Flush(f, w) == (Overwrite(f, w.offset, w.buffer), Writer(w.offset + |w.buffer|, []))
  {
    if AllZeroes(w.buffer) {
      assert Overwrite(f, w.offset, w.buffer) == f;
    }
  }

  /** A writer that started at `start` of `f0` has been fed `fed`: all but its buffer is on the file. */
  ghost predicate Holds(f0: ByteString, f: ByteString, start: nat, w: Writer, fed: ByteString) {
    && |w.buffer| <= |fed| && w.offset == start + |fed| - |w.buffer|
    && fed[|fed| - |w.buffer|..] == w.buffer
    && f == Overwrite(f0, start, fed[..|fed| - |w.buffer|])
  }

  lemma TakeHolds(f0: ByteString, f: ByteString, start: nat, w: Writer, fed: ByteString, data: ByteString)
    requires |w.buffer| + |data| <= HOLE_GRANULARITY && Holds(f0, f, start, w, fed)
    requires ZeroRange(f0, start, |fed| + |data|)
    ensures Holds(f0, Take(f, w, data).0, start, Take(f, w, data).1, fed + data)
  {
    var w1 := w.(buffer := w.buffer + data);
    var k := |fed| - |w.buffer|;
    assert (fed + data)[..k] == fed[..k];
    assert (fed + data)[k..] == w1.buffer;
    if |w1.buffer| == HOLE_GRANULARITY {
      FlushHolds(f0, f, start, w1, fed + data);
    }
  }

  lemma FlushHolds(f0: ByteString, f: ByteString, start: nat, w: Writer, fed: ByteString)
    requires Holds(f0, f, start, w, fed) && ZeroRange(f0, start, |fed|)
    ensures Holds(f0, Flush(f, w).0, start, Flush(f, w).1, fed) && Flush(f, w).1.buffer == []
  {
    hide Overwrite, Flush;
    var k := |fed| - |w.buffer|;
    assert ZeroRange(f, w.offset, |w.buffer|) by { HeldRangeIsZero(f0, start, fed, k); }
    FlushIsOverwrite(f, w);
    JoinAt(f0, start, fed, k);
    assert fed[..|fed|] == fed;
  }

  lemma HeldRangeIsZero(f0: ByteString, start: nat, fed: ByteString, k: nat)
    requires ZeroRange(f0, start, |fed|) && k <= |fed|
    ensures ZeroRange(Overwrite(f0, start, fed[..k]), start + k, |fed| - k)
  {
  }

  lemma JoinAt(f0: ByteString, start: nat, fed: ByteString, k: nat)
    requires start + |fed| <= |f0| && k <= |fed|
    ensures Overwrite(Overwrite(f0, start, fed[..k]), start + k, fed[k..]) == Overwrite(f0, start, fed)
  {
  }

  lemma HoldsNothing(f: ByteString, start: nat)
    ensures Holds(f, f, start, Writer(start, []), [])
  {
  }

  lemma HoldsAll(f0: ByteString, f: ByteString, start: nat, w: Writer, fed: ByteString)
    requires Holds(f0, f, start, w, fed) && w.buffer == []
    ensures f == Overwrite(f0, start, fed)
  {
    assert fed[..|fed|] == fed;
  }

  lemma {:induction false} FeedHolds(f0: ByteString, f: ByteString, start: nat, w: Writer, fed: ByteString, data: ByteString)
    requires |w.buffer| < HOLE_GRANULARITY && Holds(f0, f, start, w, fed)
    requires ZeroRange(f0, start, |fed| + |data|)
    ensures Holds(f0, Feed(f, w, data).0, start, Feed(f, w, data).1, fed + data)
    decreases |data|
  {
    hide Holds, Take, ZeroRange;
    if data == [] {
      assert fed + data == fed;
    } else {
      var take := Min(HOLE_GRANULARITY - |w.buffer|, |data|);
      var (f1, w1) := Take(f, w, data[..take]);
      ZeroRangePart(f0, start, |fed| + take, |fed| + |data|);
      TakeHolds(f0, f, start, w, fed, data[..take]);
      TakeRoom(f, w, data[..take]);
      FeedHolds(f0, f1, start, w1, fed + data[..take], data[take..]);
      assert fed + data[..take] + data[take..] == fed + data;
    }
  }

  lemma TakeRoom(f: ByteString, w: Writer, data: ByteString)
    requires |w.buffer| + |data| <= HOLE_GRANULARITY
    ensures |Take(f, w, data).1.buffer| < HOLE_GRANULARITY
  {
  }

  lemma ZeroRangePart(f: ByteString, off: nat, n: nat, more: nat)
    requires ZeroRange(f, off, more) && n <= more
    ensures ZeroRange(f, off, n)
  {
  }

  lemma {:induction false} FeedAllHolds(f0: ByteString, f: ByteString, start: nat, w: Writer, fed: ByteString, pieces: seq<ByteString>)
    requires |w.buffer| < HOLE_GRANULARITY && Holds(f0, f, start, w, fed)
    requires ZeroRange(f0, start, |fed + Concat(pieces)|)
    ensures Holds(f0, FeedAll(f, w, pieces).0, start, FeedAll(f, w, pieces).1, fed + Concat(pieces))
    decreases |pieces|
  {
    hide Holds, Feed, ZeroRange;
    if pieces == [] {
      assert fed + Concat(pieces) == fed;
    } else {
      ZeroRangePart(f0, start, |fed| + |pieces[0]|, |fed + Concat(pieces)|);
      FeedHolds(f0, f, start, w, fed, pieces[0]);
      var (f1, w1) := Feed(f, w, pieces[0]);
      assert fed + pieces[0] + Concat(pieces[1..]) == fed + Concat(pieces);
      FeedAllHolds(f0, f1, start, w1, fed + pieces[0], pieces[1..]);
    }
  }

  /** However a stream is cut into Write calls, over a zero range the file ends up with exactly the stream at its offset. */
  lemma StreamIsWritten(f: ByteString, start: nat, pieces: seq<ByteString>)
    requires ZeroRange(f, start, |Concat(pieces)|)
    ensures var (f1, w1) := FeedAll(f, Writer(start, []), pieces);
            Flush(f1, w1).0 == Overwrite(f, start, Concat(pieces))
  {
    hide Flush, FeedAll, ZeroRange, Holds;
    var w := Writer(start, []);
    assert [] + Concat(pieces) == Concat(pieces);
    HoldsNothing(f, start);
    FeedAllHolds(f, f, start, w, [], pieces);
    var (f1, w1) := FeedAll(f, w, pieces);
    FlushHolds(f, f1, start, w1, Concat(pieces));
    HoldsAll(f, Flush(f1, w1).0, start, Flush(f1, w1).1, Concat(pieces));
  }

  // ----- a short file behaves like its zero-extended self

  /** `g` is `f` extended with zeros to `n` bytes. */
  ghost predicate Extends(f: ByteString, g: ByteString, n: nat) {
    |f| <= n && g == Resize(f, n)
  }

  lemma FlushExtends(f: ByteString, g: ByteString, n: nat, w: Writer)
    requires Extends(f, g, n) && w.offset + |w.buffer| <= n
    ensures Extends(Flush(f, w).0, Flush(g, w).0, n) && Flush(g, w).1 == Flush(f, w).1
  {
    if w.buffer != [] && !AllZeroes(w.buffer) {
      assert Overwrite(g, w.offset, w.buffer) == Resize(Overwrite(f, w.offset, w.buffer), n);
    }
  }

  lemma TakeExtends(f: ByteString, g: ByteString, n: nat, w: Writer, data: ByteString)
    requires Extends(f, g, n) && |w.buffer| + |data| <= HOLE_GRANULARITY && w.offset + |w.buffer| + |data| <= n
    ensures Extends(Take(f, w, data).0, Take(g, w, data).0, n) && Take(g, w, data).1 == Take(f, w, data).1
    ensures var w1 := Take(f, w, data).1; w1.offset + |w1.buffer| == w.offset + |w.buffer| + |data|
  {
    hide Extends;
    FlushExtends(f, g, n, w.(buffer := w.buffer + data));
  }

  lemma FlushNotShorter(f: ByteString, w: Writer)
    ensures |Flush(f, w).0| >= |f|
  {
  }

  class SparseFileWriter {
    const file: DiskFile
    var offset: nat
    var buffer: ByteString

    ghost function Abs(): Writer
      reads this
    {
      Writer(offset, buffer)
    }

    constructor (file: DiskFile, offset: nat)
      ensures Abs() == Writer(offset, []) && this.file == file
    {
      this.file, this.offset, this.buffer := file, offset, [];
    }

    method WriteOut()
      modifies this, file
      ensures (file.data, Abs()) == Flush(old(file.data), old(Abs()))
    {
      if |buffer| == 0 {
        return;
      }
      var zero := IsZero(buffer);
      if !zero {
        file.WriteAt(buffer, offset);
      }
      offset := offset + |buffer|;
      buffer := [];
    }

    static method IsZero(data: ByteString) returns (b: bool)
      ensures b <==> AllZeroes(data)
    {
      for i := 0 to |data|
        invariant AllZeroes(data[..i])
      {
        if data[i] != 0 {
          return false;
        }
      }
      assert data[..|data|] == data;
      return true;
    }

    method Write(data: ByteString) returns (written: nat)
      requires |buffer| < HOLE_GRANULARITY
      modifies this, file
      ensures written == |data|
      ensures (file.data, Abs()) == Feed(old(file.data), old(Abs()), data) && |buffer| < HOLE_GRANULARITY
    {
      hide Flush;
      written := |data|;
      ghost var f0, w0 := file.data, Abs();
      var rest := data;
      while |rest| > 0
        invariant |buffer| < HOLE_GRANULARITY
        invariant Feed(f0, w0, data) == Feed(file.data, Abs(), rest)
      {
        ghost var f, w := file.data, Abs();
        var take := Min(HOLE_GRANULARITY - |buffer|, |rest|);
        TakeRoom(f, w, rest[..take]);
        buffer := buffer + rest[..take];
        ghost var piece := rest[..take];
        if |buffer| == HOLE_GRANULARITY {
          WriteOut();
        }
        assert (file.data, Abs()) == Take(f, w, piece);
        rest := rest[take..];
      }
    }

    /** Flushes the trailing partial block. */
    method Close()
      modifies this, file
      ensures (file.data, Abs()) == Flush(old(file.data), old(Abs()))
    {
      WriteOut();
    }
  }

  // ----- several writers on one file

  /** A part of the disk and the offset it goes to. */
  datatype Part = Part(offset: nat, data: ByteString)

  datatype Progress = Progress(fed: nat, w: Writer, closed: bool)

  datatype Disk = Disk(file: ByteString, progress: seq<Progress>)

  /** Writer `part` takes up to `count` further bytes of its stream, or closes when it has them all. */
  datatype Move = Arrive(part: nat, count: nat) | Finish(part: nat)

  ghost predicate Fitting(parts: seq<Part>, size: nat) {
    && (forall i :: 0 <= i < |parts| ==> parts[i].offset + |parts[i].data| <= size)
    && forall i, j :: 0 <= i < j < |parts| ==>
         parts[i].offset + |parts[i].data| <= parts[j].offset || parts[j].offset + |parts[j].data| <= parts[i].offset
  }

  predicate Shaped(parts: seq<Part>, d: Disk) {
    && |d.progress| == |parts|
    && forall i :: 0 <= i < |parts| ==> d.progress[i].fed <= |parts[i].data| && |d.progress[i].w.buffer| < HOLE_GRANULARITY
  }

  function Begin(parts: seq<Part>, size: nat): (d: Disk)
    ensures Shaped(parts, d)
  {
    Disk(Zeros(size), seq(|parts|, i requires 0 <= i < |parts| => Progress(0, Writer(parts[i].offset, []), false)))
  }

  function MoveOne(parts: seq<Part>, d: Disk, m: Move): (r: Disk)
    requires Shaped(parts, d)
    ensures Shaped(parts, r)
  {
    if m.part >= |parts| || d.progress[m.part].closed then d
    else
      var p := d.progress[m.part];
      match m
      case Arrive(i, count) =>
        var n := Min(count, Min(HOLE_GRANULARITY - |p.w.buffer|, |parts[i].data| - p.fed));
        var (f, w) := Take(d.file, p.w, parts[i].data[p.fed..p.fed + n]);
        Disk(f, d.progress[i := Progress(p.fed + n, w, false)])
      case Finish(i) =>
        if p.fed < |parts[i].data| then d
        else
          var (f, w) := Flush(d.file, p.w);
          Disk(f, d.progress[i := Progress(p.fed, w, true)])
  }

  function MoveAll(parts: seq<Part>, d: Disk, moves: seq<Move>): (r: Disk)
    requires Shaped(parts, d)
    ensures Shaped(parts, r)
    decreases |moves|
  {
    if moves == [] then d else MoveAll(parts, MoveOne(parts, d, moves[0]), moves[1..])
  }

  /** What writer `i` has done to its own range: written up to its offset, zero beyond. */
  ghost predicate PartOk(f: ByteString, part: Part, p: Progress) {
    && p.fed <= |part.data| && |p.w.buffer| <= p.fed && part.offset + |part.data| <= |f|
    && p.w.offset == part.offset + p.fed - |p.w.buffer|
    && p.w.buffer == part.data[p.fed - |p.w.buffer|..p.fed]
    && (p.closed ==> p.fed == |part.data| && p.w.buffer == [])
    && forall k :: part.offset <= k < part.offset + |part.data| ==>
         f[k] == if k < p.w.offset then part.data[k - part.offset] else 0
  }

  predicate InPart(part: Part, k: nat) { part.offset <= k < part.offset + |part.data| }

  ghost predicate DiskOk(parts: seq<Part>, size: nat, d: Disk) {
    && Shaped(parts, d) && |d.file| == size
    && (forall i :: 0 <= i < |parts| ==> PartOk(d.file, parts[i], d.progress[i]))
    && (forall k: nat :: k < size && (forall i :: 0 <= i < |parts| ==> !InPart(parts[i], k)) ==> d.file[k] == 0)
  }

  lemma BeginOk(parts: seq<Part>, size: nat)
    requires Fitting(parts, size)
    ensures DiskOk(parts, size, Begin(parts, size))
  {
  }

  lemma FlushPart(f: ByteString, part: Part, p: Progress)
    requires PartOk(f, part, p)
    ensures Flush(f, p.w) == (Overwrite(f, p.w.offset, p.w.buffer), Writer(p.w.offset + |p.w.buffer|, []))
    ensures PartOk(Flush(f, p.w).0, part, p.(w := Flush(f, p.w).1))
  {
    hide Flush;
    FlushIsOverwrite(f, p.w);
  }

  /** A store inside one part is invisible to the others and to the space between. */
  lemma StoreElsewhere(parts: seq<Part>, size: nat, f: ByteString, i: nat, at: nat, data: ByteString, j: nat, p: Progress)
    requires Fitting(parts, size) && i < |parts| && j < |parts| && i != j && |f| == size
    requires parts[i].offset <= at && at + |data| <= parts[i].offset + |parts[i].data|
    requires PartOk(f, parts[j], p)
    ensures PartOk(Overwrite(f, at, data), parts[j], p)
  {
  }

  /** Replacing writer `i` after a store within its part keeps the whole disk in order. */
  lemma UpdateOk(parts: seq<Part>, size: nat, d: Disk, i: nat, at: nat, data: ByteString, p: Progress)
    requires Fitting(parts, size) && DiskOk(parts, size, d) && i < |parts|
    requires parts[i].offset <= at && at + |data| <= parts[i].offset + |parts[i].data|
    requires PartOk(Overwrite(d.file, at, data), parts[i], p)
    requires p.fed <= |parts[i].data| && |p.w.buffer| < HOLE_GRANULARITY && at + |data| <= size
    ensures DiskOk(parts, size, Disk(Overwrite(d.file, at, data), d.progress[i := p]))
  {
    hide PartOk;
    var f' := Overwrite(d.file, at, data);
    forall j | 0 <= j < |parts| && j != i ensures PartOk(f', parts[j], d.progress[j]) {
      StoreElsewhere(parts, size, d.file, i, at, data, j, d.progress[j]);
    }
    forall k: nat | k < size && forall j :: 0 <= j < |parts| ==> !InPart(parts[j], k) ensures f'[k] == 0 {
      assert !InPart(parts[i], k);
    }
  }

  lemma DiskOkPart(parts: seq<Part>, size: nat, d: Disk, i: nat)
    requires DiskOk(parts, size, d) && i < |parts|
    ensures Shaped(parts, d) && |d.file| == size && PartOk(d.file, parts[i], d.progress[i])
  {
  }

  lemma NoStore(f: ByteString, at: nat)
    ensures Overwrite(f, at, []) == f
  {
  }

  lemma AppendPart(f: ByteString, part: Part, p: Progress, n: nat)
    requires PartOk(f, part, p) && p.fed + n <= |part.data| && !p.closed
    ensures PartOk(f, part, Progress(p.fed + n, p.w.(buffer := p.w.buffer + part.data[p.fed..p.fed + n]), false))
  {
  }

  lemma ArriveOk(parts: seq<Part>, size: nat, d: Disk, i: nat, count: nat)
    requires Fitting(parts, size) && DiskOk(parts, size, d) && i < |parts| && !d.progress[i].closed
    ensures DiskOk(parts, size, MoveOne(parts, d, Arrive(i, count)))
  {
    hide Flush, Fitting, DiskOk, Overwrite;
    DiskOkPart(parts, size, d, i);
    var p, part := d.progress[i], parts[i];
    var n := Min(count, Min(HOLE_GRANULARITY - |p.w.buffer|, |part.data| - p.fed));
    var piece := part.data[p.fed..p.fed + n];
    var p1 := Progress(p.fed + n, p.w.(buffer := p.w.buffer + piece), false);
    AppendPart(d.file, part, p, n);
    if |p1.w.buffer| == HOLE_GRANULARITY {
      FlushPart(d.file, part, p1);
      UpdateOk(parts, size, d, i, p1.w.offset, p1.w.buffer, p1.(w := Flush(d.file, p1.w).1));
    } else {
      NoStore(d.file, part.offset);
      UpdateOk(parts, size, d, i, part.offset, [], p1);
    }
  }

  lemma FinishOk(parts: seq<Part>, size: nat, d: Disk, i: nat)
    requires Fitting(parts, size) && DiskOk(parts, size, d) && i < |parts| && !d.progress[i].closed
    ensures DiskOk(parts, size, MoveOne(parts, d, Finish(i)))
  {
    hide Flush, Fitting, DiskOk, Overwrite;
    DiskOkPart(parts, size, d, i);
    var p, part := d.progress[i], parts[i];
    if p.fed == |part.data| {
      FlushPart(d.file, part, p);
      UpdateOk(parts, size, d, i, p.w.offset, p.w.buffer, Progress(p.fed, Flush(d.file, p.w).1, true));
    }
  }

  lemma MoveOk(parts: seq<Part>, size: nat, d: Disk, m: Move)
    requires Fitting(parts, size) && DiskOk(parts, size, d)
    ensures DiskOk(parts, size, MoveOne(parts, d, m))
  {
    hide MoveOne, Fitting, PartOk;
    if m.part < |parts| && !d.progress[m.part].closed {
      match m {
        case Arrive(i, count) => ArriveOk(parts, size, d, i, count);
        case Finish(i) => FinishOk(parts, size, d, i);
      }
    } else {
      IdleMove(parts, d, m);
    }
  }

  lemma {:induction false} MovesOk(parts: seq<Part>, size: nat, d: Disk, moves: seq<Move>)
    requires Fitting(parts, size) && DiskOk(parts, size, d)
    ensures DiskOk(parts, size, MoveAll(parts, d, moves))
    decreases |moves|
  {
    hide MoveOne, Fitting, PartOk;
    if moves != [] {
      MoveOk(parts, size, d, moves[0]);
      MovesOk(parts, size, MoveOne(parts, d, moves[0]), moves[1..]);
    }
  }

  lemma IdleMove(parts: seq<Part>, d: Disk, m: Move)
    requires Shaped(parts, d) && (m.part >= |parts| || d.progress[m.part].closed)
    ensures MoveOne(parts, d, m) == d
  {
  }

  /** The disk holds every part at its offset and zeros everywhere else. */
  ghost predicate Assembled(parts: seq<Part>, size: nat, f: ByteString) {
    && |f| == size
    && (forall i, k :: 0 <= i < |parts| && parts[i].offset <= k < parts[i].offset + |parts[i].data| && k < |f| ==>
          f[k] == parts[i].data[k - parts[i].offset])
    && (forall k: nat :: k < size && (forall i :: 0 <= i < |parts| ==> !InPart(parts[i], k)) ==> f[k] == 0)
  }

  /** Whatever the interleaving of the writers, and however each stream arrives, the finished disk is the same. */
  lemma EveryInterleavingAssembles(parts: seq<Part>, size: nat, moves: seq<Move>)
    requires Fitting(parts, size)
    requires var d := MoveAll(parts, Begin(parts, size), moves);
             forall i :: 0 <= i < |parts| ==> d.progress[i].closed
    ensures Assembled(parts, size, MoveAll(parts, Begin(parts, size), moves).file)
  {
    hide MoveAll, Begin, Fitting;
    BeginOk(parts, size);
    MovesOk(parts, size, Begin(parts, size), moves);
    var d := MoveAll(parts, Begin(parts, size), moves);
    forall i, k | 0 <= i < |parts| && parts[i].offset <= k < parts[i].offset + |parts[i].data| && k < |d.file|
      ensures d.file[k] == parts[i].data[k - parts[i].offset]
    {
      assert PartOk(d.file, parts[i], d.progress[i]);
    }
  }

  // ----- parts that reach past the size the file was given

  /** No two parts overlap. */
  ghost predicate Separate(parts: seq<Part>) {
    forall i, j :: 0 <= i < j < |parts| ==>
      parts[i].offset + |parts[i].data| <= parts[j].offset || parts[j].offset + |parts[j].data| <= parts[i].offset
  }

  /** How far the disk reaches: its declared size, or the end of the last part. */
  function Reach(parts: seq<Part>, size: nat): (n: nat)
    ensures n >= size
    ensures forall i :: 0 <= i < |parts| ==> parts[i].offset + |parts[i].data| <= n
  {
    if parts == [] then size
    else
      var n := Reach(parts[..|parts| - 1], size);
      var end := parts[|parts| - 1].offset + |parts[|parts| - 1].data|;
      assert forall i :: 0 <= i < |parts| - 1 ==> parts[i] == parts[..|parts| - 1][i];
      if end > n then end else n
  }

  /** The same writers at the same points, over a file and over its zero-extended self. */
  ghost predicate Shadows(d: Disk, e: Disk, n: nat) {
    d.progress == e.progress && Extends(d.file, e.file, n)
  }

  lemma ExtendsOrSame(f: ByteString, g: ByteString, n: nat, w: Writer, data: ByteString)
    requires Extends(f, g, n) && |w.buffer| + |data| <= HOLE_GRANULARITY && w.offset + |w.buffer| + |data| <= n
    ensures Extends(Take(f, w, data).0, Take(g, w, data).0, n) && Take(g, w, data).1 == Take(f, w, data).1
    ensures |Take(f, w, data).0| >= |f|
  {
    hide Extends, Flush;
    TakeExtends(f, g, n, w, data);
    FlushNotShorter(f, w.(buffer := w.buffer + data));
  }

  /** What a writer's position says about the room it still needs. */
  lemma PartRoom(parts: seq<Part>, n: nat, e: Disk, i: nat)
    requires Fitting(parts, n) && DiskOk(parts, n, e) && i < |parts|
    ensures var p := e.progress[i];
            && p.fed <= |parts[i].data| && |p.w.buffer| < HOLE_GRANULARITY
            && p.w.offset + |p.w.buffer| == parts[i].offset + p.fed && parts[i].offset + |parts[i].data| <= n
  {
    assert PartOk(e.file, parts[i], e.progress[i]);
  }

  lemma MoveShadows(parts: seq<Part>, n: nat, d: Disk, e: Disk, m: Move)
    requires Fitting(parts, n) && DiskOk(parts, n, e) && Shadows(d, e, n) && Shaped(parts, d)
    ensures Shadows(MoveOne(parts, d, m), MoveOne(parts, e, m), n)
    ensures |MoveOne(parts, d, m).file| >= |d.file|
  {
    hide Fitting, DiskOk, Extends, Flush, Take, PartOk;
    assert Shaped(parts, e) by { DiskShaped(parts, n, e); }
    if m.part < |parts| && !d.progress[m.part].closed {
      PartRoom(parts, n, e, m.part);
      var p := d.progress[m.part];
      match m
      case Arrive(i, count) =>
        var k := Min(count, Min(HOLE_GRANULARITY - |p.w.buffer|, |parts[i].data| - p.fed));
        ExtendsOrSame(d.file, e.file, n, p.w, parts[i].data[p.fed..p.fed + k]);
      case Finish(i) =>
        if p.fed == |parts[i].data| {
          FlushExtends(d.file, e.file, n, p.w);
          FlushNotShorter(d.file, p.w);
        }
    }
  }

  lemma DiskShaped(parts: seq<Part>, n: nat, e: Disk)
    requires DiskOk(parts, n, e)
    ensures Shaped(parts, e)
  {
  }

  lemma {:induction false} MovesShadow(parts: seq<Part>, n: nat, d: Disk, e: Disk, moves: seq<Move>)
    requires Fitting(parts, n) && DiskOk(parts, n, e) && Shadows(d, e, n) && Shaped(parts, d) && Shaped(parts, e)
    ensures Shadows(MoveAll(parts, d, moves), MoveAll(parts, e, moves), n)
    ensures |MoveAll(parts, d, moves).file| >= |d.file|
    decreases |moves|
  {
    hide Fitting, DiskOk, Shadows, MoveOne;
    if moves != [] {
      MoveShadows(parts, n, d, e, moves[0]);
      MoveOk(parts, n, e, moves[0]);
      MovesShadow(parts, n, MoveOne(parts, d, moves[0]), MoveOne(parts, e, moves[0]), moves[1..]);
    }
  }

  // ----- how long the file gets

  function Max(a: nat, b: nat): nat { if a >= b then a else b }

  /** Where the last block with a non-zero byte ends, of the blocks that the first `n` bytes are written in. */
  function NonZeroEnd(data: ByteString, n: nat): (end: nat)
    requires n <= |data|
    ensures end <= n
    decreases n
  {
    if n == 0 then 0
    else
      var start := (n - 1) / (4 * 1024 * 1024) * (4 * 1024 * 1024);
      if AllZeroes(data[start..n]) then NonZeroEnd(data, start) else n
  }

  /** How long a file has to be to hold what a writer stores of the first `n` bytes of its part. */
  function StoredEnd(part: Part, n: nat): (end: nat)
    requires n <= |part.data|
  {
    var last := NonZeroEnd(part.data, n);
    if last == 0 then 0 else part.offset + last
  }

  /** The declared size, or as far as the farthest non-zero block of any part. */
  function StoredReach(parts: seq<Part>, size: nat): (n: nat)
    ensures IsStoredReach(parts, size, n)
  {
    if parts == [] then size
    else
      var rest, last := parts[..|parts| - 1], parts[|parts| - 1];
      var n := StoredReach(rest, size);
      assert forall i :: 0 <= i < |rest| ==> parts[i] == rest[i];
      Max(n, StoredEnd(last, |last.data|))
  }

  ghost predicate IsStoredReach(parts: seq<Part>, size: nat, n: nat) {
    && n >= size && (forall i :: 0 <= i < |parts| ==> n >= StoredEnd(parts[i], |parts[i].data|))
    && (n == size || exists i :: 0 <= i < |parts| && n == StoredEnd(parts[i], |parts[i].data|))
  }

  /** Where a writer stands in its part: everything but its buffer is dealt with, in whole blocks until it closes. */
  predicate Standing(part: Part, p: Progress) {
    && |p.w.buffer| <= p.fed <= |part.data| && |p.w.buffer| < HOLE_GRANULARITY
    && p.w.offset == part.offset + p.fed - |p.w.buffer|
    && p.w.buffer == part.data[p.fed - |p.w.buffer|..p.fed]
    && if p.closed then p.fed == |part.data| && p.w.buffer == [] else (p.fed - |p.w.buffer|) % HOLE_GRANULARITY == 0
  }

  function EndOf(part: Part, p: Progress): nat
    requires Standing(part, p)
  {
    StoredEnd(part, p.fed - |p.w.buffer|)
  }

  /** The file is as long as the farthest store so far, or has its first size. */
  ghost predicate LengthOk(parts: seq<Part>, size: nat, d: Disk) {
    && |d.progress| == |parts| && |d.file| >= size
    && (forall i :: 0 <= i < |parts| ==> Standing(parts[i], d.progress[i]) && |d.file| >= EndOf(parts[i], d.progress[i]))
    && (|d.file| == size || exists i :: 0 <= i < |parts| && |d.file| == EndOf(parts[i], d.progress[i]))
  }

  lemma BeginLength(parts: seq<Part>, size: nat)
    ensures LengthOk(parts, size, Begin(parts, size))
  {
  }

  lemma LengthOkPart(parts: seq<Part>, size: nat, d: Disk, i: nat)
    requires LengthOk(parts, size, d) && i < |parts|
    ensures |d.progress| == |parts| && Standing(parts[i], d.progress[i]) && |d.file| >= EndOf(parts[i], d.progress[i])
  {
    hide EndOf, Standing;
  }

  lemma LengthUpdate(parts: seq<Part>, size: nat, d: Disk, i: nat, f: ByteString, p: Progress)
    requires LengthOk(parts, size, d) && i < |parts| && Standing(parts[i], p)
    requires Standing(parts[i], d.progress[i]) && EndOf(parts[i], p) >= EndOf(parts[i], d.progress[i])
    requires |f| == Max(|d.file|, EndOf(parts[i], p))
    ensures LengthOk(parts, size, Disk(f, d.progress[i := p]))
  {
    hide EndOf, Standing;
    var d' := Disk(f, d.progress[i := p]);
    forall j | 0 <= j < |parts|
      ensures Standing(parts[j], d'.progress[j]) && |f| >= EndOf(parts[j], d'.progress[j])
    {
      LengthOkPart(parts, size, d, j);
    }
    if |f| == EndOf(parts[i], p) {
      assert |f| == EndOf(parts[i], d'.progress[i]);
    } else if |d.file| != size {
      var j :| 0 <= j < |parts| && |d.file| == EndOf(parts[j], d.progress[j]);
      assert |f| == EndOf(parts[j], d'.progress[j]);
    }
  }

  lemma BlockStart(start: nat, n: nat)
    requires start % HOLE_GRANULARITY == 0 && start < n <= start + HOLE_GRANULARITY
    ensures (n - 1) / HOLE_GRANULARITY * HOLE_GRANULARITY == start
  {
  }

  /** A flush makes the file as long as the block it stores requires, and no longer. */
  lemma FlushLength(f: ByteString, part: Part, w: Writer, n: nat)
    requires |w.buffer| <= n <= |part.data| && |w.buffer| <= HOLE_GRANULARITY && w.offset == part.offset + n - |w.buffer|
    requires w.buffer == part.data[n - |w.buffer|..n] && (n - |w.buffer|) % HOLE_GRANULARITY == 0
    requires |f| >= StoredEnd(part, n - |w.buffer|)
    ensures |Flush(f, w).0| == Max(|f|, StoredEnd(part, n)) && StoredEnd(part, n) >= StoredEnd(part, n - |w.buffer|)
  {
    if w.buffer != [] {
      BlockStart(n - |w.buffer|, n);
    }
  }

  /** Bytes that arrive move the writer on; the file grows by the block they complete, if any. */
  lemma TakeLength(f: ByteString, part: Part, p: Progress, n: nat)
    requires Standing(part, p) && !p.closed && |p.w.buffer| + n <= HOLE_GRANULARITY && p.fed + n <= |part.data|
    requires |f| >= EndOf(part, p)
    ensures var (f', w) := Take(f, p.w, part.data[p.fed..p.fed + n]);
            var p' := Progress(p.fed + n, w, false);
            Standing(part, p') && |f'| == Max(|f|, EndOf(part, p')) && EndOf(part, p') >= EndOf(part, p)
  {
    hide Flush, StoredEnd;
    var w := p.w.(buffer := p.w.buffer + part.data[p.fed..p.fed + n]);
    assert w.buffer == part.data[p.fed - |p.w.buffer|..p.fed + n];
    if |w.buffer| == HOLE_GRANULARITY {
      FlushLength(f, part, w, p.fed + n);
      FlushMoves(f, w);
      NextBlock(p.fed - |p.w.buffer|);
    }
  }

  lemma ArriveLength(parts: seq<Part>, size: nat, d: Disk, i: nat, count: nat)
    requires LengthOk(parts, size, d) && Shaped(parts, d) && i < |parts| && !d.progress[i].closed
    ensures LengthOk(parts, size, MoveOne(parts, d, Arrive(i, count)))
  {
    hide Take, LengthOk, EndOf;
    LengthOkPart(parts, size, d, i);
    var p, part := d.progress[i], parts[i];
    var n := Min(count, Min(HOLE_GRANULARITY - |p.w.buffer|, |part.data| - p.fed));
    TakeLength(d.file, part, p, n);
    hide Standing;
    var (f, w) := Take(d.file, p.w, part.data[p.fed..p.fed + n]);
    LengthUpdate(parts, size, d, i, f, Progress(p.fed + n, w, false));
  }

  lemma NextBlock(n: nat)
    requires n % HOLE_GRANULARITY == 0
    ensures (n + HOLE_GRANULARITY) % HOLE_GRANULARITY == 0
  {
  }

  lemma FlushMoves(f: ByteString, w: Writer)
    ensures Flush(f, w).1 == Writer(w.offset + |w.buffer|, [])
  {
  }

  lemma FinishLength(parts: seq<Part>, size: nat, d: Disk, i: nat)
    requires LengthOk(parts, size, d) && Shaped(parts, d) && i < |parts| && !d.progress[i].closed
    ensures LengthOk(parts, size, MoveOne(parts, d, Finish(i)))
  {
    hide Flush, LengthOk, StoredEnd;
    LengthOkPart(parts, size, d, i);
    var p := d.progress[i];
    if p.fed == |parts[i].data| {
      FlushLength(d.file, parts[i], p.w, p.fed);
      FlushMoves(d.file, p.w);
      LengthUpdate(parts, size, d, i, Flush(d.file, p.w).0, Progress(p.fed, Flush(d.file, p.w).1, true));
    }
  }

  lemma MoveLength(parts: seq<Part>, size: nat, d: Disk, m: Move)
    requires LengthOk(parts, size, d) && Shaped(parts, d)
    ensures LengthOk(parts, size, MoveOne(parts, d, m))
  {
    hide LengthOk, MoveOne;
    if m.part < |parts| && !d.progress[m.part].closed {
      match m {
        case Arrive(i, count) => ArriveLength(parts, size, d, i, count);
        case Finish(i) => FinishLength(parts, size, d, i);
      }
    } else {
      IdleMove(parts, d, m);
    }
  }

  lemma {:induction false} MovesLength(parts: seq<Part>, size: nat, d: Disk, moves: seq<Move>)
    requires LengthOk(parts, size, d) && Shaped(parts, d)
    ensures LengthOk(parts, size, MoveAll(parts, d, moves))
    decreases |moves|
  {
    hide LengthOk, MoveOne, Shaped;
    if moves != [] {
      MoveLength(parts, size, d, moves[0]);
      MovesLength(parts, size, MoveOne(parts, d, moves[0]), moves[1..]);
    }
  }

  /** Once every writer is closed, the file ends where the farthest non-zero block does, or has its declared size. */
  lemma FinishedLength(parts: seq<Part>, size: nat, moves: seq<Move>)
    requires var d := MoveAll(parts, Begin(parts, size), moves);
             forall i :: 0 <= i < |parts| ==> d.progress[i].closed
    ensures |MoveAll(parts, Begin(parts, size), moves).file| == StoredReach(parts, size)
  {
    hide MoveAll, Begin, StoredEnd;
    BeginLength(parts, size);
    MovesLength(parts, size, Begin(parts, size), moves);
    var d := MoveAll(parts, Begin(parts, size), moves);
    forall i | 0 <= i < |parts| ensures EndOf(parts[i], d.progress[i]) == StoredEnd(parts[i], |parts[i].data|) {
      LengthOkPart(parts, size, d, i);
    }
    assert IsStoredReach(parts, size, |d.file|);
  }

  /**
   * Parts may also reach past the size the file was given, which then grows: whatever the interleaving, the
   * file holds every part at its offset and zeros elsewhere, and ends where the farthest non-zero block does.
   */
  lemma EveryInterleavingGrows(parts: seq<Part>, size: nat, moves: seq<Move>)
    requires Separate(parts)
    requires var d := MoveAll(parts, Begin(parts, size), moves);
             forall i :: 0 <= i < |parts| ==> d.progress[i].closed
    ensures var f := MoveAll(parts, Begin(parts, size), moves).file;
            size <= |f| == StoredReach(parts, size) <= Reach(parts, size) && Assembled(parts, Reach(parts, size), Resize(f, Reach(parts, size)))
  {
    hide MoveAll, Assembled, Reach, StoredReach, DiskOk;
    FinishedLength(parts, size, moves);
    var n := Reach(parts, size);
    var d, e := Begin(parts, size), Begin(parts, n);
    assert Fitting(parts, n);
    BeginOk(parts, n);
    assert Shadows(d, e, n) by { BeginShadows(parts, size, n); }
    MovesShadow(parts, n, d, e, moves);
    EveryInterleavingAssembles(parts, n, moves);
  }

  lemma BeginShadows(parts: seq<Part>, size: nat, n: nat)
    requires size <= n
    ensures Shadows(Begin(parts, size), Begin(parts, n), n)
  {
    assert Resize(Zeros(size), n) == Zeros(n);
  }

  // ----- every writer can finish

  ghost predicate AllClosed(d: Disk) {
    forall i :: 0 <= i < |d.progress| ==> d.progress[i].closed
  }

  lemma MoveCons(parts: seq<Part>, d: Disk, m: Move, moves: seq<Move>)
    requires Shaped(parts, d)
    ensures MoveAll(parts, d, [m] + moves) == MoveAll(parts, MoveOne(parts, d, m), moves)
  {
    hide MoveOne, Shaped;
    assert ([m] + moves)[1..] == moves;
  }

  lemma {:induction false} MoveJoin(parts: seq<Part>, d: Disk, moves: seq<Move>, more: seq<Move>)
    requires Shaped(parts, d)
    ensures MoveAll(parts, d, moves + more) == MoveAll(parts, MoveAll(parts, d, moves), more)
    decreases |moves|
  {
    hide MoveOne, Shaped;
    if moves == [] {
      assert moves + more == more;
    } else {
      assert (moves + more)[1..] == moves[1..] + more;
      MoveJoin(parts, MoveOne(parts, d, moves[0]), moves[1..], more);
    }
  }

  /** More of the stream arrives at an open writer that does not have all of it; the others stay as they are. */
  lemma ArriveAdvances(parts: seq<Part>, d: Disk, i: nat)
    requires Shaped(parts, d) && i < |parts| && !d.progress[i].closed && d.progress[i].fed < |parts[i].data|
    ensures var p := MoveOne(parts, d, Arrive(i, |parts[i].data|)).progress;
            p == d.progress[i := p[i]] && !p[i].closed && d.progress[i].fed < p[i].fed <= |parts[i].data|
  {
    hide Flush;
  }

  lemma FinishCloses(parts: seq<Part>, d: Disk, i: nat)
    requires Shaped(parts, d) && i < |parts| && !d.progress[i].closed && d.progress[i].fed == |parts[i].data|
    ensures var p := MoveOne(parts, d, Finish(i)).progress; p == d.progress[i := p[i]] && p[i].closed
  {
    hide Flush;
  }

  lemma {:induction false} CloseOne(parts: seq<Part>, d: Disk, i: nat) returns (moves: seq<Move>)
    requires Shaped(parts, d) && i < |parts|
    ensures var p := MoveAll(parts, d, moves).progress; |p| == |parts| && p == d.progress[i := p[i]] && p[i].closed
    decreases |parts[i].data| - d.progress[i].fed
  {
    hide MoveOne;
    if d.progress[i].closed {
      moves := [];
      assert MoveAll(parts, d, []) == d;
    } else if d.progress[i].fed == |parts[i].data| {
      moves := [Finish(i)];
      FinishCloses(parts, d, i);
      MoveCons(parts, d, Finish(i), []);
      assert MoveAll(parts, MoveOne(parts, d, Finish(i)), []) == MoveOne(parts, d, Finish(i));
      assert [Finish(i)] + [] == moves;
    } else {
      var m := Arrive(i, |parts[i].data|);
      ArriveAdvances(parts, d, i);
      var rest := CloseOne(parts, MoveOne(parts, d, m), i);
      moves := [m] + rest;
      MoveCons(parts, d, m, rest);
    }
  }

  lemma {:induction false} CloseFrom(parts: seq<Part>, d: Disk, n: nat) returns (moves: seq<Move>)
    requires Shaped(parts, d) && n <= |parts| && forall i :: 0 <= i < n ==> d.progress[i].closed
    ensures AllClosed(MoveAll(parts, d, moves))
    decreases |parts| - n
  {
    hide MoveOne, MoveAll;
    if n == |parts| {
      moves := [];
      assert MoveAll(parts, d, []) == d by { MoveNothing(parts, d); }
    } else {
      var first := CloseOne(parts, d, n);
      var rest := CloseFrom(parts, MoveAll(parts, d, first), n + 1);
      moves := first + rest;
      MoveJoin(parts, d, first, rest);
    }
  }

  lemma MoveNothing(parts: seq<Part>, d: Disk)
    requires Shaped(parts, d)
    ensures MoveAll(parts, d, []) == d
  {
  }

  /** Whatever the writers have done so far, some continuation closes all of them. */
  lemma CanAllClose(parts: seq<Part>, size: nat, moves: seq<Move>) returns (more: seq<Move>)
    ensures AllClosed(MoveAll(parts, Begin(parts, size), moves + more))
  {
    hide MoveOne, MoveAll, Begin;
    more := CloseFrom(parts, MoveAll(parts, Begin(parts, size), moves), 0);
    MoveJoin(parts, Begin(parts, size), moves, more);
  }
}
