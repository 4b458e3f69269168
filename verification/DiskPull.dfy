/** Reassembling a disk from its layers: one worker a layer, all writing the same file, in any order. */
module DiskPull {
  import opened Bytes
  import opened DiskFiles
  import opened LayerCaches
  import opened ZeroSkip

  const MAX_ATTEMPTS: nat := 5

  function Contents(world: World, layers: seq<Layer>): seq<ByteString> {
    seq(|layers|, i requires 0 <= i < |layers| => Content(world, layers[i]))
  }

  /** The disk an image describes: the contents of its layers, end to end. */
  function TargetOf(world: World, layers: seq<Layer>): ByteString {
    Concat(Contents(world, layers))
  }

  /** One call of Pull: `existing` is the file found at the destination, `blk` the file system's block size. */
  datatype Config = Config(
    world: World,
    layers: seq<Layer>,
    cache: Option<Cache>,
    deduplicate: bool,
    existing: Option<ByteString>,
    blk: BlockSize)
  {
    predicate Compare() { deduplicate && cache.Some? }

    predicate Sized() { forall l :: l in layers ==> l.uncompressedSize.Some? }

    function Total(): nat { Offset(layers, |layers|) }

    /** The file the workers start from: found, cloned from the cache or empty, then truncated to size. */
    function Base(): ByteString {
      Resize(match existing
             case Some(f) => f
             case None => if Compare() then cache.value.disk else [],
             Total())
    }

    function Target(): ByteString { TargetOf(world, layers) }

    /** The cache entry that makes the worker of layer `i` skip its download. */
    function CacheHit(i: nat): Option<Info>
      requires i < |layers|
    {
      if cache.None? then None
      else match cache.value.FindInfo(layers[i].digest, Offset(layers, i))
        case Some(info) => if Some(info.contentDigest) == layers[i].contentDigest then Some(info) else None
        case None => None
    }

    /** Layer `i` is taken to be on the disk already, without looking at it. */
    predicate Trusts(i: nat)
      requires i < |layers|
    {
      Compare() && CacheHit(i).Some? && CacheHit(i).value.rangeStart == Offset(layers, i)
    }

    ghost predicate Valid() {
      && Sized()
      && IdealHash(world.hash)
      && (forall l :: l in layers ==> Honest(world, l))
      && (cache.Some? ==> cache.value.Sound(world.hash))
    }
  }

  datatype Worker =
    | Queued
    | Fetching(received: ByteString, attempts: nat)
    | Writing(data: ByteString, start: nat)
    | Done
    | Failed

  /** What a worker does next; the network decides between Deliver, Cut and Finish, the disk between Chunk and Abort. */
  datatype Choice = Begin | Deliver(count: nat) | Cut | Finish | Chunk | Abort

  datatype Event = Event(worker: nat, choice: Choice)

  datatype State = State(file: ByteString, workers: seq<Worker>) {
    predicate Completed() { forall w :: w in workers ==> w == Done }
  }

  /** The digest of a range of the file; None when the file is too short. */
  function HashChunk(hash: ByteString -> string, f: ByteString, off: nat, size: nat): Option<string> {
    if off + size > |f| then None else Some(hash(f[off..off + size]))
  }

  function BeginLayer(cfg: Config, f: ByteString, i: nat): Worker
    requires i < |cfg.layers|
  {
    var l, off := cfg.layers[i], Offset(cfg.layers, i);
    if l.contentDigest.None? then Failed
    else if cfg.existing.Some? && HashChunk(cfg.world.hash, f, off, SizeOf(l)) == l.contentDigest then Done
    else match cfg.CacheHit(i)
      case Some(info) => if cfg.Trusts(i) then Done else Writing(cfg.cache.value.Subdata(info.rangeStart, info.rangeEnd), 0)
      case None => Fetching([], 0)
  }

  function FinishDownload(cfg: Config, i: nat, received: ByteString): Worker
    requires i < |cfg.layers|
  {
    var blob := cfg.world.blob(cfg.layers[i].digest);
    if !(received <= blob) then Failed
    else match cfg.world.decompress(received + blob[|received|..])
      case Some(data) => Writing(data, 0)
      case None => Failed
  }

  function Receive(cfg: Config, i: nat, received: ByteString, count: nat): ByteString
    requires i < |cfg.layers|
  {
    var blob := cfg.world.blob(cfg.layers[i].digest);
    if received <= blob then blob[..Min(|received| + count, |blob|)] else received
  }

  function WriteNext(cfg: Config, f: ByteString, i: nat, data: ByteString, start: nat): (ByteString, Worker)
    requires i < |cfg.layers| && start <= |data|
  {
    if start == |data| then (f, Done)
    else
      var chunk := NextChunk(data, start);
      match ChunkWrite(f, cfg.Compare(), cfg.blk, Offset(cfg.layers, i) + start, chunk)
      case Some(f') => (f', Writing(data, start + |chunk|))
      case None => (f, Failed)
  }

  /** One atomic step of one worker. A choice that does not apply leaves everything as it is. */
  function WorkerStep(cfg: Config, f: ByteString, i: nat, w: Worker, c: Choice): (ByteString, Worker)
    requires i < |cfg.layers|
    requires w.Writing? ==> w.start <= |w.data|
  {
    match w
    case Queued => if c.Begin? then (f, BeginLayer(cfg, f, i)) else (f, w)
    case Fetching(received, attempts) =>
      (match c
       case Deliver(count) => (f, Fetching(Receive(cfg, i, received, count), attempts))
       case Cut => (f, if attempts + 1 < MAX_ATTEMPTS then Fetching(received, attempts + 1) else Failed)
       case Finish => (f, FinishDownload(cfg, i, received))
       case Abort => (f, Failed)
       case _ => (f, w))
    case Writing(data, start) =>
      if c.Chunk? then WriteNext(cfg, f, i, data, start) else if c.Abort? then (f, Failed) else (f, w)
    case _ => (f, w)
  }

  predicate WellFormed(cfg: Config, st: State) {
    && |st.workers| == |cfg.layers|
    && forall w :: w in st.workers && w.Writing? ==> w.start <= |w.data|
  }

  function AllQueued(n: nat): (r: seq<Worker>)
    ensures |r| == n && forall i :: 0 <= i < n ==> r[i] == Queued
  {
    seq(n, _ => Queued)
  }

  function Start(cfg: Config): (st: State)
    ensures WellFormed(cfg, st)
  {
    State(cfg.Base(), AllQueued(|cfg.layers|))
  }

  function Step(cfg: Config, st: State, e: Event): (r: State)
    requires WellFormed(cfg, st)
    ensures WellFormed(cfg, r)
  {
    if e.worker >= |st.workers| then st
    else
      var (f, w) := WorkerStep(cfg, st.file, e.worker, st.workers[e.worker], e.choice);
      State(f, st.workers[e.worker := w])
  }

  /** A schedule: any interleaving of any steps of any workers. */
  function Run(cfg: Config, st: State, events: seq<Event>): (r: State)
    requires WellFormed(cfg, st)
    ensures WellFormed(cfg, r)
    decreases |events|
  {
    if events == [] then st else Run(cfg, Step(cfg, st, events[0]), events[1..])
  }

  // ----- the invariant every step keeps

  ghost predicate Same(f: ByteString, t: ByteString, lo: nat, hi: nat) {
    forall k :: lo <= k < hi && k < |f| && k < |t| ==> f[k] == t[k]
  }

  ghost predicate ZeroOrTarget(f: ByteString, t: ByteString) {
    forall k :: 0 <= k < |f| && k < |t| ==> f[k] == 0 || f[k] == t[k]
  }

  ghost predicate BaseOrTarget(f: ByteString, b: ByteString, t: ByteString) {
    forall k :: 0 <= k < |f| && k < |b| && k < |t| ==> f[k] == b[k] || f[k] == t[k]
  }

  /**
   * The range of a layer from `lo` up to `hi` is as the pull leaves it: what the file started with where the
   * layer is kept as it is or a whole zero chunk is skipped, the target everywhere else.
   */
  ghost predicate Settled(f: ByteString, b: ByteString, t: ByteString, keep: bool, skip: bool, data: ByteString, lo: nat, hi: nat) {
    forall k :: lo <= k < hi && k < |f| && k < |b| && k < |t| ==>
      f[k] == if keep || (skip && InZeroChunk(data, k - lo)) then b[k] else t[k]
  }

  ghost predicate LayerSettled(cfg: Config, f: ByteString, i: nat, n: nat)
    requires i < |cfg.layers|
  {
    var lo := Offset(cfg.layers, i);
    Settled(f, cfg.Base(), cfg.Target(), cfg.Trusts(i), !cfg.Compare(), Content(cfg.world, cfg.layers[i]), lo, lo + n)
  }

  /** From byte `n` of layer `i` on, its range is as the pull found it. */
  ghost predicate LayerUnwritten(cfg: Config, f: ByteString, i: nat, n: nat)
    requires i < |cfg.layers|
  {
    var lo := Offset(cfg.layers, i);
    Same(f, cfg.Base(), lo + n, lo + SizeOf(cfg.layers[i]))
  }

  ghost predicate WorkerOk(cfg: Config, f: ByteString, i: nat, w: Worker)
    requires i < |cfg.layers|
  {
    match w
    case Queued => LayerUnwritten(cfg, f, i, 0)
    case Fetching(received, _) =>
      !cfg.Trusts(i) && received <= cfg.world.blob(cfg.layers[i].digest) && LayerUnwritten(cfg, f, i, 0)
    case Writing(data, start) =>
      && !cfg.Trusts(i) && data == Content(cfg.world, cfg.layers[i]) && start <= |data|
      && (start % HOLE_GRANULARITY == 0 || start == |data|)
      && LayerSettled(cfg, f, i, start) && LayerUnwritten(cfg, f, i, start)
    case Done => LayerSettled(cfg, f, i, SizeOf(cfg.layers[i]))
    case Failed => true
  }

  ghost predicate Inv(cfg: Config, st: State) {
    && WellFormed(cfg, st)
    && |st.file| == |cfg.Target()|
    && BaseOrTarget(st.file, cfg.Base(), cfg.Target())
    && forall i :: 0 <= i < |st.workers| ==> WorkerOk(cfg, st.file, i, st.workers[i])
  }

  /** Layer `i` occupies its own range of the target, which is as long as declared. */
  lemma TargetSlice(cfg: Config, i: nat)
    requires cfg.Valid() && i < |cfg.layers|
    ensures |cfg.Target()| == cfg.Total()
    ensures SizeOf(cfg.layers[i]) == |Content(cfg.world, cfg.layers[i])|
    ensures Offset(cfg.layers, i) + SizeOf(cfg.layers[i]) <= |cfg.Target()|
    ensures cfg.Target()[Offset(cfg.layers, i)..Offset(cfg.layers, i) + SizeOf(cfg.layers[i])] == Content(cfg.world, cfg.layers[i])
  {
    TargetLength(cfg);
    ConcatSlice(Contents(cfg.world, cfg.layers), i);
    assert cfg.layers[i] in cfg.layers;
  }

  lemma TargetLength(cfg: Config)
    requires cfg.Valid()
    ensures Lengths(Contents(cfg.world, cfg.layers)) == Sizes(cfg.layers)
    ensures |cfg.Target()| == cfg.Total()
  {
    forall i | 0 <= i < |cfg.layers|
      ensures Lengths(Contents(cfg.world, cfg.layers))[i] == Sizes(cfg.layers)[i]
    {
      assert cfg.layers[i] in cfg.layers;
    }
    ConcatLength(Contents(cfg.world, cfg.layers));
    assert Sizes(cfg.layers)[..|cfg.layers|] == Sizes(cfg.layers);
  }

  /** A cache hit has the digest of the layer, so it holds the content of the layer. */
  lemma CacheHitHoldsContent(cfg: Config, i: nat)
    requires cfg.Valid() && i < |cfg.layers| && cfg.CacheHit(i).Some?
    ensures var info := cfg.CacheHit(i).value;
            && info.rangeStart <= info.rangeEnd <= |cfg.cache.value.disk|
            && cfg.cache.value.disk[info.rangeStart..info.rangeEnd] == Content(cfg.world, cfg.layers[i])
            && cfg.cache.value.Subdata(info.rangeStart, info.rangeEnd) == Content(cfg.world, cfg.layers[i])
  {
    var info := cfg.CacheHit(i).value;
    assert InfoSound(cfg.world.hash, cfg.cache.value.disk, info);
    assert cfg.layers[i] in cfg.layers;
  }

  /** On a fresh clone, every layer that is taken on trust really is there. */
  lemma TrustIsEarnedByAClone(cfg: Config, i: nat)
    requires cfg.Valid() && cfg.existing.None? && i < |cfg.layers| && cfg.Trusts(i)
    ensures Same(cfg.Base(), cfg.Target(), Offset(cfg.layers, i), Offset(cfg.layers, i) + SizeOf(cfg.layers[i]))
  {
    var lo := Offset(cfg.layers, i);
    var hi := lo + SizeOf(cfg.layers[i]);
    TargetSlice(cfg, i);
    CacheHitHoldsContent(cfg, i);
    forall k | lo <= k < hi && k < |cfg.Base()| && k < |cfg.Target()|
      ensures cfg.Base()[k] == cfg.Target()[k]
    {
      assert cfg.cache.value.disk[lo..hi][k - lo] == cfg.Target()[lo..hi][k - lo];
    }
  }

  lemma SameSelf(f: ByteString, lo: nat, hi: nat)
    ensures Same(f, f, lo, hi)
  {
  }

  lemma BaseLength(cfg: Config)
    requires cfg.Valid()
    ensures |cfg.Base()| == |cfg.Target()|
  {
    TargetLength(cfg);
  }

  lemma StartKeepsInv(cfg: Config)
    requires cfg.Valid()
    ensures Inv(cfg, Start(cfg))
  {
    hide Same, TargetOf, Offset;
    BaseLength(cfg);
    var st := Start(cfg);
    forall i | 0 <= i < |st.workers| ensures WorkerOk(cfg, st.file, i, st.workers[i]) {
      SameSelf(cfg.Base(), Offset(cfg.layers, i), Offset(cfg.layers, i) + SizeOf(cfg.layers[i]));
    }
  }

  /** The files differ inside the range only. */
  ghost predicate OnlyInside(f: ByteString, f': ByteString, at: nat, n: nat) {
    |f'| == |f| && forall k :: 0 <= k < |f| && !(at <= k < at + n) ==> f'[k] == f[k]
  }

  lemma SameOutside(f: ByteString, f': ByteString, b: ByteString, at: nat, n: nat, lo: nat, hi: nat)
    requires OnlyInside(f, f', at, n) && (at + n <= lo || hi <= at)
    ensures Same(f, b, lo, hi) ==> Same(f', b, lo, hi)
  {
  }

  lemma SettledOutside(f: ByteString, f': ByteString, b: ByteString, t: ByteString, keep: bool, skip: bool, data: ByteString,
                       at: nat, n: nat, lo: nat, hi: nat)
    requires OnlyInside(f, f', at, n) && (at + n <= lo || hi <= at)
    ensures Settled(f, b, t, keep, skip, data, lo, hi) ==> Settled(f', b, t, keep, skip, data, lo, hi)
  {
    hide InZeroChunk;
  }

  lemma RangesApart(cfg: Config, i: nat, j: nat)
    requires i < |cfg.layers| && j < |cfg.layers| && i != j
    ensures Offset(cfg.layers, i) + SizeOf(cfg.layers[i]) <= Offset(cfg.layers, j)
         || Offset(cfg.layers, j) + SizeOf(cfg.layers[j]) <= Offset(cfg.layers, i)
  {
    if i < j { OffsetsOrdered(cfg.layers, i, j); } else { OffsetsOrdered(cfg.layers, j, i); }
  }

  /** A write inside one layer's range is invisible to the other workers. */
  lemma OthersUndisturbed(cfg: Config, f: ByteString, f': ByteString, i: nat, at: nat, n: nat, j: nat, w: Worker)
    requires cfg.Valid() && i < |cfg.layers| && j < |cfg.layers| && i != j
    requires OnlyInside(f, f', at, n) && WorkerOk(cfg, f, j, w)
    requires Offset(cfg.layers, i) <= at && at + n <= Offset(cfg.layers, i) + SizeOf(cfg.layers[i])
    ensures WorkerOk(cfg, f', j, w)
  {
    hide Same, Settled, OnlyInside, Offset, SizeOf, Content, TargetOf, Honest;
    RangesApart(cfg, i, j);
    var lo, hi := Offset(cfg.layers, j), Offset(cfg.layers, j) + SizeOf(cfg.layers[j]);
    match w
    case Queued => SameOutside(f, f', cfg.Base(), at, n, lo + 0, hi);
    case Fetching(_, _) => SameOutside(f, f', cfg.Base(), at, n, lo + 0, hi);
    case Writing(data, start) =>
      LayerLength(cfg, j);
      SameOutside(f, f', cfg.Base(), at, n, lo + start, hi);
      SettledOutside(f, f', cfg.Base(), cfg.Target(), cfg.Trusts(j), !cfg.Compare(), data, at, n, lo, lo + start);
    case Done =>
      SettledOutside(f, f', cfg.Base(), cfg.Target(), cfg.Trusts(j), !cfg.Compare(), Content(cfg.world, cfg.layers[j]), at, n, lo, hi);
    case Failed =>
  }

  lemma LayerLength(cfg: Config, i: nat)
    requires cfg.Valid() && i < |cfg.layers|
    ensures |Content(cfg.world, cfg.layers[i])| == SizeOf(cfg.layers[i])
  {
    assert cfg.layers[i] in cfg.layers;
  }

  ghost predicate Matches(t: ByteString, at: nat, chunk: ByteString) {
    at + |chunk| <= |t| && forall k :: at <= k < at + |chunk| ==> t[k] == chunk[k - at]
  }

  lemma ChunkMatches(t: ByteString, lo: nat, data: ByteString, start: nat)
    requires start < |data| && lo + |data| <= |t| && t[lo..lo + |data|] == data
    ensures Matches(t, lo + start, NextChunk(data, start))
    ensures 0 < |NextChunk(data, start)| <= HOLE_GRANULARITY && start + |NextChunk(data, start)| <= |data|
  {
    var at, chunk := lo + start, NextChunk(data, start);
    forall k | at <= k < at + |chunk|
      ensures t[k] == chunk[k - at]
    {
      assert t[lo..lo + |data|][k - lo] == data[k - lo];
    }
  }

  lemma WrittenInside(f: ByteString, compare: bool, at: nat, chunk: ByteString)
    requires at + |chunk| <= |f|
    ensures OnlyInside(f, Written(f, compare, at, chunk), at, |chunk|)
  {
    hide IsZeroChunk;
  }

  lemma WrittenMixed(f: ByteString, b: ByteString, t: ByteString, compare: bool, at: nat, chunk: ByteString)
    requires |f| == |t| && Matches(t, at, chunk) && BaseOrTarget(f, b, t)
    ensures BaseOrTarget(Written(f, compare, at, chunk), b, t)
  {
    hide IsZeroChunk;
  }

  lemma WrittenChunk(f: ByteString, b: ByteString, t: ByteString, compare: bool, at: nat, chunk: ByteString, k: nat)
    requires |f| == |b| == |t| && Matches(t, at, chunk) && at <= k < at + |chunk| && f[k] == b[k]
    ensures |Written(f, compare, at, chunk)| == |f|
    ensures Written(f, compare, at, chunk)[k] == if !compare && IsZeroChunk(chunk) then b[k] else t[k]
  {
    hide IsZeroChunk;
  }

  /** Writing the next chunk of a layer settles that much more of its range, whatever the range held before. */
  lemma ChunkSettles(f: ByteString, b: ByteString, t: ByteString, compare: bool, lo: nat, data: ByteString, start: nat)
    requires |f| == |b| == |t| && start < |data| && start % HOLE_GRANULARITY == 0
    requires lo + |data| <= |t| && t[lo..lo + |data|] == data
    requires Settled(f, b, t, false, !compare, data, lo, lo + start) && Same(f, b, lo + start, lo + |data|)
    ensures var chunk := NextChunk(data, start);
            var f' := Written(f, compare, lo + start, chunk);
            && |f'| == |f|
            && Settled(f', b, t, false, !compare, data, lo, lo + start + |chunk|)
            && Same(f', b, lo + start + |chunk|, lo + |data|)
  {
    hide NextChunk, Written, InZeroChunk, IsZeroChunk;
    var chunk := NextChunk(data, start);
    ChunkMatches(t, lo, data, start);
    WrittenInside(f, compare, lo + start, chunk);
    var f' := Written(f, compare, lo + start, chunk);
    forall k | lo <= k < lo + start + |chunk|
      ensures f'[k] == if !compare && InZeroChunk(data, k - lo) then b[k] else t[k]
    {
      if k >= lo + start {
        InThisChunk(data, start, k - lo);
        WrittenChunk(f, b, t, compare, lo + start, chunk, k);
      }
    }
  }

  lemma NextStart(data: ByteString, start: nat)
    requires start < |data| && start % HOLE_GRANULARITY == 0
    ensures var n := |NextChunk(data, start)|; (start + n) % HOLE_GRANULARITY == 0 || start + n == |data|
  {
  }

  /** The writer's side of a chunk. */
  lemma ChunkKeepsWorker(cfg: Config, f: ByteString, i: nat, w: Worker)
    requires cfg.Valid() && i < |cfg.layers| && |f| == |cfg.Target()| && WorkerOk(cfg, f, i, w)
    requires w.Writing? && w.start < |w.data| && BaseOrTarget(f, cfg.Base(), cfg.Target())
    ensures var at, chunk := Offset(cfg.layers, i) + w.start, NextChunk(w.data, w.start);
            var f', w' := Written(f, cfg.Compare(), at, chunk), Writing(w.data, w.start + |chunk|);
            && at + |chunk| <= Offset(cfg.layers, i) + SizeOf(cfg.layers[i]) && w.start + |chunk| <= |w.data|
            && OnlyInside(f, f', at, |chunk|)
            && WriteNext(cfg, f, i, w.data, w.start) == (f', w')
            && WorkerOk(cfg, f', i, w')
            && BaseOrTarget(f', cfg.Base(), cfg.Target())
  {
    hide Same, Settled, BaseOrTarget, Offset, Content, TargetOf, HashChunk, Written, OnlyInside, ChunkWrite, NextChunk, Matches, Honest, IdealHash;
    var lo, at, chunk := Offset(cfg.layers, i), Offset(cfg.layers, i) + w.start, NextChunk(w.data, w.start);
    TargetSlice(cfg, i);
    BaseLength(cfg);
    ChunkMatches(cfg.Target(), lo, w.data, w.start);
    ChunkSettles(f, cfg.Base(), cfg.Target(), cfg.Compare(), lo, w.data, w.start);
    NextStart(w.data, w.start);
    MatchInside(cfg.Target(), at, chunk);
    WrittenInside(f, cfg.Compare(), at, chunk);
    WrittenMixed(f, cfg.Base(), cfg.Target(), cfg.Compare(), at, chunk);
    ChunkWriteIs(f, cfg.Compare(), cfg.blk, at, chunk);
  }

  lemma MatchInside(t: ByteString, at: nat, chunk: ByteString)
    requires Matches(t, at, chunk)
    ensures at + |chunk| <= |t|
  {
  }

  lemma ChunkStep(cfg: Config, st: State, i: nat)
    requires WellFormed(cfg, st) && i < |st.workers| && st.workers[i].Writing?
    ensures var w := st.workers[i];
            var (f', w') := WriteNext(cfg, st.file, i, w.data, w.start);
            Step(cfg, st, Event(i, Chunk)) == State(f', st.workers[i := w'])
  {
    hide WriteNext;
  }

  lemma ChunkKeepsInv(cfg: Config, st: State, i: nat, w: Worker)
    requires cfg.Valid() && Inv(cfg, st) && i < |st.workers| && w == st.workers[i]
    requires w.Writing? && w.start < |w.data|
    ensures Inv(cfg, Step(cfg, st, Event(i, Chunk)))
  {
    hide WorkerOk, WriteNext, Written, Step, BaseOrTarget, Offset, NextChunk, TargetOf, SizeOf, OnlyInside;
    ChunkKeepsWorker(cfg, st.file, i, w);
    ChunkStep(cfg, st, i);
    var at, chunk := Offset(cfg.layers, i) + w.start, NextChunk(w.data, w.start);
    var f' := Written(st.file, cfg.Compare(), at, chunk);
    InsideLength(st.file, f', at, |chunk|);
    forall j | 0 <= j < |st.workers| && j != i
      ensures WorkerOk(cfg, f', j, st.workers[j])
    {
      OthersUndisturbed(cfg, st.file, f', i, at, |chunk|, j, st.workers[j]);
    }
  }

  lemma InsideLength(f: ByteString, f': ByteString, at: nat, n: nat)
    requires OnlyInside(f, f', at, n)
    ensures |f'| == |f|
  {
  }

  lemma StepKeepsInv(cfg: Config, st: State, e: Event)
    requires cfg.Valid() && Inv(cfg, st)
    ensures Inv(cfg, Step(cfg, st, e))
  {
    if e.worker < |st.workers| {
      var i, w := e.worker, st.workers[e.worker];
      TargetSlice(cfg, i);
      assert WorkerOk(cfg, st.file, i, w);
      if w.Writing? && e.choice.Chunk? && w.start < |w.data| {
        ChunkKeepsInv(cfg, st, i, w);
      } else {
        QuietStep(cfg, st.file, i, w, e.choice);
      }
    }
  }

  /** Every other step leaves the file alone and its worker in order. */
  lemma QuietStep(cfg: Config, f: ByteString, i: nat, w: Worker, c: Choice)
    requires cfg.Valid() && i < |cfg.layers| && |f| == |cfg.Target()|
    requires WorkerOk(cfg, f, i, w) && (w.Writing? ==> w.start <= |w.data|)
    requires !(w.Writing? && c.Chunk? && w.start < |w.data|)
    ensures WorkerStep(cfg, f, i, w, c).0 == f
    ensures WorkerOk(cfg, f, i, WorkerStep(cfg, f, i, w, c).1)
  {
    TargetSlice(cfg, i);
    if w.Queued? && c.Begin? {
      BeginIsOk(cfg, f, i);
    } else if w.Fetching? && c.Finish? {
      var blob := cfg.world.blob(cfg.layers[i].digest);
      assert w.received <= blob;
      assert w.received + blob[|w.received|..] == blob;
      assert cfg.layers[i] in cfg.layers;
    }
  }

  lemma BeginIsOk(cfg: Config, f: ByteString, i: nat)
    requires cfg.Valid() && i < |cfg.layers| && |f| == |cfg.Target()|
    requires WorkerOk(cfg, f, i, Queued)
    ensures WorkerOk(cfg, f, i, BeginLayer(cfg, f, i))
  {
    var l, lo := cfg.layers[i], Offset(cfg.layers, i);
    var hi := lo + SizeOf(l);
    TargetSlice(cfg, i);
    assert l in cfg.layers;
    if cfg.CacheHit(i).Some? {
      CacheHitHoldsContent(cfg, i);
    }
    if l.contentDigest.Some? && cfg.existing.Some? && HashChunk(cfg.world.hash, f, lo, SizeOf(l)) == l.contentDigest {
      assert f[lo..hi] == cfg.Target()[lo..hi];
      forall k | lo <= k < hi ensures f[k] == cfg.Target()[k] {
        assert f[lo..hi][k - lo] == cfg.Target()[lo..hi][k - lo];
      }
    }
  }

  lemma {:induction false} RunKeepsInv(cfg: Config, st: State, events: seq<Event>)
    requires cfg.Valid() && Inv(cfg, st)
    ensures Inv(cfg, Run(cfg, st, events))
    decreases |events|
  {
    if events != [] {
      StepKeepsInv(cfg, st, events[0]);
      RunKeepsInv(cfg, Step(cfg, st, events[0]), events[1..]);
    }
  }

  // ----- what is not fetched

  /** Cached layers of an honest registry, each naming the digest of its content. */
  ghost predicate HonestCache(cfg: Config, disks: seq<Layer>) {
    && (cfg.cache.Some? ==> IndexesLayers(cfg.cache.value, disks) && KeepsLast(cfg.cache.value, disks))
    && (cfg.cache.None? ==> disks == [])
    && forall l :: l in disks ==> Honest(cfg.world, l) && l.contentDigest.Some?
  }

  lemma HitIsDigest(cfg: Config, i: nat, disks: seq<Layer>)
    requires cfg.Valid() && i < |cfg.layers| && cfg.layers[i].contentDigest.Some? && HonestCache(cfg, disks)
    ensures cfg.CacheHit(i).Some? <==> HasDigest(disks, cfg.layers[i].digest)
  {
    hide Offset, IndexesLayers, KeepsLast, Content, Cache.FindInfo, Cache.Sound;
    var digest, off := cfg.layers[i].digest, Offset(cfg.layers, i);
    if cfg.cache.Some? {
      FindInfoFinds(cfg.cache.value, disks, digest, off);
      if cfg.cache.value.FindInfo(digest, off).Some? {
        var k := FoundIsEntry(cfg.cache.value, disks, digest, off);
        assert disks[k] in disks && cfg.layers[i] in cfg.layers;
        SameContent(cfg.world, disks[k], cfg.layers[i]);
      }
    }
  }

  lemma SameContent(w: World, l: Layer, l': Layer)
    requires l.digest == l'.digest
    ensures Content(w, l) == Content(w, l')
  {
  }

  lemma ChunkIsContent(cfg: Config, f: ByteString, i: nat)
    requires cfg.Valid() && i < |cfg.layers| && cfg.layers[i].contentDigest.Some? && |f| == cfg.Total()
    ensures Offset(cfg.layers, i) + SizeOf(cfg.layers[i]) <= |f|
    ensures HashChunk(cfg.world.hash, f, Offset(cfg.layers, i), SizeOf(cfg.layers[i])) == cfg.layers[i].contentDigest
       <==> f[Offset(cfg.layers, i)..Offset(cfg.layers, i) + SizeOf(cfg.layers[i])] == Content(cfg.world, cfg.layers[i])
  {
    TargetSlice(cfg, i);
    assert cfg.layers[i] in cfg.layers;
  }

  /** A layer is fetched exactly if a resumed pull does not find it in its place and no cached layer has its digest. */
  lemma FetchedExactly(cfg: Config, f: ByteString, i: nat, disks: seq<Layer>)
    requires cfg.Valid() && i < |cfg.layers| && cfg.layers[i].contentDigest.Some? && |f| == cfg.Total()
    requires HonestCache(cfg, disks)
    ensures var lo, hi := Offset(cfg.layers, i), Offset(cfg.layers, i) + SizeOf(cfg.layers[i]);
            && hi <= |f|
            && (BeginLayer(cfg, f, i) == Fetching([], 0) <==>
                 !(cfg.existing.Some? && f[lo..hi] == Content(cfg.world, cfg.layers[i])) && !HasDigest(disks, cfg.layers[i].digest))
            && (BeginLayer(cfg, f, i) == Done <== cfg.existing.Some? && f[lo..hi] == Content(cfg.world, cfg.layers[i]))
  {
    hide Offset, SizeOf, Content, HasDigest;
    ChunkIsContent(cfg, f, i);
    HitIsDigest(cfg, i, disks);
  }
}
