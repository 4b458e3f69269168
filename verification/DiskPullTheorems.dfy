/** What a pull leaves on the disk, over every schedule, interruption and resumption. */
module DiskPullTheorems {
  import opened Bytes
  import opened DiskFiles
  import opened LayerCaches
  import opened ZeroSkip
  import opened DiskPull

  lemma {:induction false} LayerAt(layers: seq<Layer>, n: nat, k: nat) returns (i: nat)
    requires n <= |layers| && k < Offset(layers, n)
    ensures i < n && Offset(layers, i) <= k < Offset(layers, i) + SizeOf(layers[i])
  {
    OffsetStep(layers, n - 1);
    if k >= Offset(layers, n - 1) {
      i := n - 1;
    } else {
      i := LayerAt(layers, n - 1, k);
    }
  }

  /** A completed pull: every layer is settled. */
  lemma CompletedLayer(cfg: Config, st: State, i: nat)
    requires cfg.Valid() && Inv(cfg, st) && st.Completed() && i < |cfg.layers|
    ensures LayerSettled(cfg, st.file, i, SizeOf(cfg.layers[i]))
  {
    hide LayerSettled;
    assert st.workers[i] in st.workers;
    assert WorkerOk(cfg, st.file, i, st.workers[i]);
  }

  /** The file the pull started from holds the content of layer `i`. */
  ghost predicate BaseHolds(cfg: Config, i: nat)
    requires i < |cfg.layers|
  {
    Same(cfg.Base(), cfg.Target(), Offset(cfg.layers, i), Offset(cfg.layers, i) + SizeOf(cfg.layers[i]))
  }

  ghost predicate TrustIsEarned(cfg: Config) {
    forall i: nat :: i < |cfg.layers| && cfg.Trusts(i) ==> BaseHolds(cfg, i)
  }

  /** A file that is zero wherever the data has a whole zero chunk, the data being at `lo`. */
  ghost predicate ZeroChunksClear(b: ByteString, data: ByteString, lo: nat) {
    forall k :: lo <= k < |b| && InZeroChunk(data, k - lo) ==> b[k] == 0
  }

  /** The file the pull started from is zero on every whole zero chunk of every layer. */
  ghost predicate SkippedIsZero(cfg: Config) {
    forall i: nat :: i < |cfg.layers| ==> ZeroChunksClear(cfg.Base(), Content(cfg.world, cfg.layers[i]), Offset(cfg.layers, i))
  }

  lemma ZeroChunkByte(data: ByteString, j: int)
    requires InZeroChunk(data, j)
    ensures 0 <= j < |data| && data[j] == 0
  {
    var s := j / HOLE_GRANULARITY * HOLE_GRANULARITY;
    var chunk := NextChunk(data, s);
    assert chunk[j - s] == data[j];
  }

  /** Settled and clear means right; settled and right means clear. */
  lemma SettledIsTarget(f: ByteString, b: ByteString, t: ByteString, keep: bool, skip: bool, data: ByteString, lo: nat, k: nat)
    requires |f| == |b| == |t| && lo + |data| <= |t| && t[lo..lo + |data|] == data && lo <= k < lo + |data|
    requires Settled(f, b, t, keep, skip, data, lo, lo + |data|)
    ensures keep && b[k] == t[k] ==> f[k] == t[k]
    ensures !keep && (skip ==> ZeroChunksClear(b, data, lo)) ==> f[k] == t[k]
    ensures f[k] == t[k] && keep ==> b[k] == t[k]
    ensures f[k] == t[k] && !keep && skip && InZeroChunk(data, k - lo) ==> b[k] == 0
  {
    hide InZeroChunk;
    if InZeroChunk(data, k - lo) {
      ZeroChunkByte(data, k - lo);
    }
    assert t[lo..lo + |data|][k - lo] == t[k];
  }

  lemma OnlyComparingTrusts(cfg: Config, i: nat)
    requires i < |cfg.layers| && cfg.Trusts(i)
    ensures cfg.Compare()
  {
  }

  lemma CompletedByte(cfg: Config, st: State, k: nat)
    requires cfg.Valid() && Inv(cfg, st) && st.Completed() && k < |st.file|
    requires TrustIsEarned(cfg) && (cfg.Compare() || SkippedIsZero(cfg))
    ensures st.file[k] == cfg.Target()[k]
  {
    hide Settled, ZeroChunksClear, TargetOf, Offset, Content, SizeOf;
    TargetLength(cfg);
    BaseLength(cfg);
    var i := LayerAt(cfg.layers, |cfg.layers|, k);
    CompletedLayer(cfg, st, i);
    TargetSlice(cfg, i);
    assert cfg.Trusts(i) ==> BaseHolds(cfg, i);
    SettledIsTarget(st.file, cfg.Base(), cfg.Target(), cfg.Trusts(i), !cfg.Compare(), Content(cfg.world, cfg.layers[i]),
                    Offset(cfg.layers, i), k);
  }

  lemma RightFileEarnsTrust(cfg: Config, st: State, i: nat)
    requires cfg.Valid() && Inv(cfg, st) && st.Completed() && i < |cfg.layers| && st.file == cfg.Target()
    ensures cfg.Trusts(i) ==> BaseHolds(cfg, i)
    ensures !cfg.Compare() ==> ZeroChunksClear(cfg.Base(), Content(cfg.world, cfg.layers[i]), Offset(cfg.layers, i))
  {
    hide Settled, TargetOf, Offset, Content, SizeOf, InZeroChunk;
    BaseLength(cfg);
    CompletedLayer(cfg, st, i);
    TargetSlice(cfg, i);
    var lo, data := Offset(cfg.layers, i), Content(cfg.world, cfg.layers[i]);
    if cfg.Trusts(i) {
      OnlyComparingTrusts(cfg, i);
      forall k | lo <= k < lo + SizeOf(cfg.layers[i]) && k < |cfg.Base()| && k < |cfg.Target()|
        ensures cfg.Base()[k] == cfg.Target()[k]
      {
        SettledIsTarget(st.file, cfg.Base(), cfg.Target(), true, !cfg.Compare(), data, lo, k);
      }
    }
    if !cfg.Compare() {
      forall k | lo <= k < |cfg.Base()| && InZeroChunk(data, k - lo) ensures cfg.Base()[k] == 0 {
        ZeroChunkByte(data, k - lo);
        SettledIsTarget(st.file, cfg.Base(), cfg.Target(), false, true, data, lo, k);
      }
    }
  }

  /**
   * Whatever file is found, whatever the schedule: a pull that completes leaves exactly the concatenated
   * layers if and only if every layer it took on trust was on the disk to begin with and, when it does not
   * compare, the file was zero wherever it skipped a whole zero chunk.
   */
  lemma CompletedPull(cfg: Config, events: seq<Event>)
    requires cfg.Valid()
    requires Run(cfg, Start(cfg), events).Completed()
    ensures Run(cfg, Start(cfg), events).file == cfg.Target() <==>
              TrustIsEarned(cfg) && (cfg.Compare() || SkippedIsZero(cfg))
  {
    hide Inv, Run, Start, BaseHolds, ZeroChunksClear, TargetOf, Content, Offset;
    var st := Run(cfg, Start(cfg), events);
    StartKeepsInv(cfg);
    RunKeepsInv(cfg, Start(cfg), events);
    InvLength(cfg, st);
    if TrustIsEarned(cfg) && (cfg.Compare() || SkippedIsZero(cfg)) {
      forall k | 0 <= k < |st.file| ensures st.file[k] == cfg.Target()[k] {
        CompletedByte(cfg, st, k);
      }
      assert st.file == cfg.Target();
    }
    if st.file == cfg.Target() {
      forall i: nat | i < |cfg.layers|
        ensures cfg.Trusts(i) ==> BaseHolds(cfg, i)
        ensures !cfg.Compare() ==> ZeroChunksClear(cfg.Base(), Content(cfg.world, cfg.layers[i]), Offset(cfg.layers, i))
      {
        RightFileEarnsTrust(cfg, st, i);
      }
    }
  }

  lemma InvLength(cfg: Config, st: State)
    requires Inv(cfg, st)
    ensures |st.file| == |cfg.Target()|
  {
  }

  /** A file whose bytes are all zero or right is clear wherever the target has a zero chunk. */
  lemma ZeroOrTargetClears(cfg: Config)
    requires cfg.Valid() && ZeroOrTarget(cfg.Base(), cfg.Target())
    ensures SkippedIsZero(cfg)
  {
    hide TargetOf, Offset, Content, SizeOf, InZeroChunk;
    BaseLength(cfg);
    forall i: nat | i < |cfg.layers|
      ensures ZeroChunksClear(cfg.Base(), Content(cfg.world, cfg.layers[i]), Offset(cfg.layers, i))
    {
      TargetSlice(cfg, i);
      var lo, data := Offset(cfg.layers, i), Content(cfg.world, cfg.layers[i]);
      forall k | lo <= k < |cfg.Base()| && InZeroChunk(data, k - lo) ensures cfg.Base()[k] == 0 {
        ZeroChunkByte(data, k - lo);
        assert cfg.Target()[lo..lo + |data|][k - lo] == cfg.Target()[k];
      }
    }
  }

  /** A pull that found no file: the disk is the concatenation of its layers, with and without
      a cache, with and without deduplication, for every interleaving of the workers. */
  lemma FreshPull(cfg: Config, events: seq<Event>)
    requires cfg.Valid() && cfg.existing.None?
    requires Run(cfg, Start(cfg), events).Completed()
    ensures Run(cfg, Start(cfg), events).file == cfg.Target()
  {
    hide Run, Start, ZeroOrTarget, SkippedIsZero, BaseHolds, TargetOf;
    if !cfg.Compare() {
      LeftoverBase(cfg);
      ZeroOrTargetClears(cfg);
    }
    forall i: nat | i < |cfg.layers| && cfg.Trusts(i) ensures BaseHolds(cfg, i) {
      EarnedByAClone(cfg, i);
    }
    CompletedPull(cfg, events);
  }

  lemma EarnedByAClone(cfg: Config, i: nat)
    requires cfg.Valid() && cfg.existing.None? && i < |cfg.layers| && cfg.Trusts(i)
    ensures BaseHolds(cfg, i)
  {
    hide Same, TargetOf, Offset;
    TrustIsEarnedByAClone(cfg, i);
  }

  /**
   * Without comparing, a pull can complete on a wrong disk when it finds a file of another image: the image is
   * one whole zero chunk, the file found holds ones, and the chunk is skipped over them.
   */
  lemma ForeignFileCanSurvive(world: World, digest: string, blk: BlockSize) returns (cfg: Config, events: seq<Event>)
    requires IdealHash(world.hash) && world.decompress(world.blob(digest)) == Some(Zeros(HOLE_GRANULARITY))
    ensures cfg.Valid() && !cfg.Compare() && cfg.existing.Some? && |cfg.existing.value| == cfg.Total()
    ensures TrustIsEarned(cfg) && !SkippedIsZero(cfg)
    ensures Run(cfg, Start(cfg), events).Completed()
    ensures Run(cfg, Start(cfg), events).file != cfg.Target()
  {
    var zeros: ByteString, ones: ByteString := Zeros(HOLE_GRANULARITY), seq(HOLE_GRANULARITY, _ => 1);
    var layer := Layer(DISK_MEDIA_TYPE, digest, Some(HOLE_GRANULARITY), Some(world.hash(zeros)));
    cfg := Config(world, [layer], None, false, Some(ones), blk);
    events := [Event(0, Begin), Event(0, Finish), Event(0, Chunk), Event(0, Chunk)];
    ForeignFileFacts(cfg, zeros, ones);
    ForeignRun(cfg, events, zeros, ones);
    assert ones[0] == 1 && zeros[0] == 0;
    CompletedPull(cfg, events);
  }

  lemma ForeignFileFacts(cfg: Config, zeros: ByteString, ones: ByteString)
    requires |cfg.layers| == 1 && cfg.cache == None && !cfg.deduplicate && cfg.existing == Some(ones)
    requires cfg.layers[0].uncompressedSize == Some(|zeros|) && |ones| == |zeros| == HOLE_GRANULARITY
    requires Content(cfg.world, cfg.layers[0]) == zeros && Honest(cfg.world, cfg.layers[0]) && IdealHash(cfg.world.hash)
    ensures cfg.Valid() && !cfg.Compare() && cfg.Total() == |zeros|
    ensures cfg.Base() == ones && Offset(cfg.layers, 0) == 0 && cfg.Target() == zeros
    ensures TrustIsEarned(cfg)
  {
    hide Honest, IdealHash;
    assert Sizes(cfg.layers) == [|zeros|];
    assert Sizes(cfg.layers)[..1] == [|zeros|] && Sizes(cfg.layers)[..0] == [];
    assert [|zeros|][1..] == [];
    assert Sum([|zeros|]) == |zeros| + Sum([]);
    assert cfg.layers == [cfg.layers[0]];
    assert Contents(cfg.world, cfg.layers) == [zeros];
    assert [zeros][1..] == [];
    assert Concat([zeros]) == zeros + Concat([]);
  }

  /** The four steps: begin, finish the download, skip the chunk, notice the end. */
  lemma ForeignRun(cfg: Config, events: seq<Event>, zeros: ByteString, ones: ByteString)
    requires cfg.Valid() && |cfg.layers| == 1 && cfg.cache == None && !cfg.deduplicate && cfg.existing == Some(ones)
    requires zeros == Zeros(HOLE_GRANULARITY) && |ones| == HOLE_GRANULARITY && ones[0] == 1 && cfg.Base() == ones
    requires Content(cfg.world, cfg.layers[0]) == zeros && cfg.layers[0].contentDigest == Some(cfg.world.hash(zeros))
    requires SizeOf(cfg.layers[0]) == |zeros| && Offset(cfg.layers, 0) == 0 && cfg.world.decompress(cfg.world.blob(cfg.layers[0].digest)) == Some(zeros)
    requires events == [Event(0, Begin), Event(0, Finish), Event(0, Chunk), Event(0, Chunk)]
    ensures Run(cfg, Start(cfg), events) == State(ones, [Done])
  {
    hide TargetOf, Content, Honest;
    assert ones[0..|zeros|] == ones && ones != zeros;
    assert cfg.world.hash(ones) != cfg.world.hash(zeros);
    ForeignBegin(cfg, zeros, ones);
    ForeignFinish(cfg, zeros, ones);
    ForeignChunks(cfg, zeros, ones);
    var s0, s1, s2, s3 := State(ones, [Queued]), State(ones, [Fetching([], 0)]), State(ones, [Writing(zeros, 0)]), State(ones, [Writing(zeros, HOLE_GRANULARITY)]);
    assert Start(cfg) == s0;
    assert events[1..] == [Event(0, Finish), Event(0, Chunk), Event(0, Chunk)];
    assert events[1..][1..] == [Event(0, Chunk), Event(0, Chunk)];
    assert events[1..][1..][1..] == [Event(0, Chunk)];
    assert events[1..][1..][1..][1..] == [];
    RunOne(cfg, s0, events);
    RunOne(cfg, s1, events[1..]);
    RunOne(cfg, s2, events[1..][1..]);
    RunOne(cfg, s3, events[1..][1..][1..]);
    assert Run(cfg, State(ones, [Done]), []) == State(ones, [Done]);
  }

  lemma RunOne(cfg: Config, st: State, events: seq<Event>)
    requires WellFormed(cfg, st) && events != []
    ensures Run(cfg, st, events) == Run(cfg, Step(cfg, st, events[0]), events[1..])
  {
    hide Step, WellFormed;
  }

  lemma ForeignBegin(cfg: Config, zeros: ByteString, ones: ByteString)
    requires |cfg.layers| == 1 && cfg.cache == None && |zeros| == |ones| && Offset(cfg.layers, 0) == 0 && SizeOf(cfg.layers[0]) == |zeros|
    requires cfg.layers[0].contentDigest == Some(cfg.world.hash(zeros)) && cfg.world.hash(ones) != cfg.world.hash(zeros)
    ensures Step(cfg, State(ones, [Queued]), Event(0, Begin)) == State(ones, [Fetching([], 0)])
  {
    hide Offset, SizeOf;
    assert ones[0..|zeros|] == ones;
  }

  lemma ForeignFinish(cfg: Config, zeros: ByteString, ones: ByteString)
    requires |cfg.layers| == 1 && cfg.world.decompress(cfg.world.blob(cfg.layers[0].digest)) == Some(zeros)
    ensures Step(cfg, State(ones, [Fetching([], 0)]), Event(0, Finish)) == State(ones, [Writing(zeros, 0)])
  {
    var blob := cfg.world.blob(cfg.layers[0].digest);
    assert [] + blob[0..] == blob;
  }

  lemma ForeignChunks(cfg: Config, zeros: ByteString, ones: ByteString)
    requires |cfg.layers| == 1 && !cfg.Compare() && zeros == Zeros(HOLE_GRANULARITY) && |ones| == HOLE_GRANULARITY && Offset(cfg.layers, 0) == 0
    ensures Step(cfg, State(ones, [Writing(zeros, 0)]), Event(0, Chunk)) == State(ones, [Writing(zeros, HOLE_GRANULARITY)])
    ensures Step(cfg, State(ones, [Writing(zeros, HOLE_GRANULARITY)]), Event(0, Chunk)) == State(ones, [Done])
  {
    hide Offset, Overwrite, Punch;
    assert zeros[0..HOLE_GRANULARITY] == zeros;
    assert NextChunk(zeros, 0) == zeros;
  }

  // ----- interruption

  /** A byte of a chunk that worker `i` was about to write when everything stopped. */
  predicate InFlight(cfg: Config, st: State, i: nat, k: nat)
    requires WellFormed(cfg, st) && i < |cfg.layers|
  {
    var w := st.workers[i];
    w.Writing? &&
    var at := Offset(cfg.layers, i) + w.start;
    at <= k < at + |NextChunk(w.data, w.start)|
  }

  /** A file a crash may leave: bytes of chunks in flight may or may not have been written. */
  ghost predicate TornImage(cfg: Config, st: State, f: ByteString)
    requires WellFormed(cfg, st)
  {
    && |f| == |st.file|
    && forall k: nat :: k < |f| && f[k] != st.file[k] ==>
         exists i: nat :: i < |cfg.layers| && InFlight(cfg, st, i, k) && f[k] == st.workers[i].data[k - Offset(cfg.layers, i)]
  }

  /** One call of Pull that was stopped: before its truncate, or after any of its steps. */
  datatype Session = Session(cfg: Config, events: seq<Event>, truncated: bool, image: ByteString)

  ghost predicate Stopped(s: Session) {
    if s.truncated then TornImage(s.cfg, Run(s.cfg, Start(s.cfg), s.events), s.image)
    else s.image == match s.cfg.existing case Some(f) => f case None => []
  }

  ghost predicate PlainSession(world: World, layers: seq<Layer>, s: Session) {
    && s.cfg.Valid() && s.cfg.world == world && s.cfg.layers == layers
    && !s.cfg.deduplicate && Stopped(s)
  }

  /** The file session `n` finds: what the session before it left. */
  function Found(sessions: seq<Session>, n: nat): Option<ByteString>
    requires n <= |sessions|
  {
    if n == 0 then None else Some(sessions[n - 1].image)
  }

  /** Pulls of the same layers without deduplication, each finding the file its predecessor left. */
  ghost predicate Chain(world: World, layers: seq<Layer>, sessions: seq<Session>) {
    && (forall n: nat :: n < |sessions| ==> PlainSession(world, layers, sessions[n]))
    && (forall n: nat :: n < |sessions| ==> sessions[n].cfg.existing == Found(sessions, n))
  }

  /** At every step, and after a crash at any step, each byte is zero or already right. */
  lemma EveryStepZeroOrTarget(cfg: Config, events: seq<Event>, f: ByteString)
    requires cfg.Valid() && !cfg.deduplicate
    requires ZeroOrTarget(cfg.Base(), cfg.Target())
    requires TornImage(cfg, Run(cfg, Start(cfg), events), f)
    ensures ZeroOrTarget(Run(cfg, Start(cfg), events).file, cfg.Target())
    ensures |f| == |cfg.Target()| && ZeroOrTarget(f, cfg.Target())
  {
    hide Run, Start, TargetOf, InFlight;
    var st := Run(cfg, Start(cfg), events);
    StartKeepsInv(cfg);
    RunKeepsInv(cfg, Start(cfg), events);
    BaseLength(cfg);
    MixedIsZeroOrTarget(st.file, cfg.Base(), cfg.Target());
    forall k: nat | k < |f| ensures f[k] == 0 || f[k] == cfg.Target()[k] {
      if f[k] != st.file[k] {
        TornByte(cfg, st, f, k);
      }
    }
  }

  lemma MixedIsZeroOrTarget(f: ByteString, b: ByteString, t: ByteString)
    requires |f| == |b| == |t| && BaseOrTarget(f, b, t) && ZeroOrTarget(b, t)
    ensures ZeroOrTarget(f, t)
  {
  }

  lemma TornByte(cfg: Config, st: State, f: ByteString, k: nat)
    requires cfg.Valid() && !cfg.deduplicate && Inv(cfg, st) && TornImage(cfg, st, f)
    requires k < |f| && f[k] != st.file[k]
    ensures f[k] == cfg.Target()[k]
  {
    hide Same, ZeroOrTarget, Offset, NextChunk, TargetOf, HashChunk, Content, LayerSettled, LayerUnwritten, Settled, BaseOrTarget;
    var i: nat :| i < |cfg.layers| && InFlight(cfg, st, i, k) && f[k] == st.workers[i].data[k - Offset(cfg.layers, i)];
    assert WorkerOk(cfg, st.file, i, st.workers[i]);
    TargetSlice(cfg, i);
    var lo := Offset(cfg.layers, i);
    assert cfg.Target()[lo..lo + SizeOf(cfg.layers[i])][k - lo] == cfg.Target()[k];
  }

  /** Truncating a leftover to size keeps each byte zero or right. */
  lemma LeftoverBase(cfg: Config)
    requires !cfg.Compare()
    requires cfg.existing.Some? ==> ZeroOrTarget(cfg.existing.value, cfg.Target())
    ensures ZeroOrTarget(cfg.Base(), cfg.Target())
  {
  }

  lemma SessionImage(world: World, layers: seq<Layer>, s: Session)
    requires PlainSession(world, layers, s)
    requires s.cfg.existing.Some? ==> ZeroOrTarget(s.cfg.existing.value, TargetOf(world, layers))
    ensures ZeroOrTarget(s.image, TargetOf(world, layers))
  {
    LeftoverBase(s.cfg);
    if s.truncated {
      EveryStepZeroOrTarget(s.cfg, s.events, s.image);
    }
  }

  lemma {:induction false} ChainImages(world: World, layers: seq<Layer>, sessions: seq<Session>, n: nat)
    requires Chain(world, layers, sessions) && n < |sessions|
    ensures ZeroOrTarget(sessions[n].image, TargetOf(world, layers))
  {
    hide PlainSession, ZeroOrTarget, TargetOf;
    if n > 0 {
      ChainImages(world, layers, sessions, n - 1);
    }
    assert sessions[n].cfg.existing == Found(sessions, n);
    SessionImage(world, layers, sessions[n]);
  }

  lemma NoTrust(cfg: Config)
    requires !cfg.deduplicate
    ensures TrustIsEarned(cfg)
  {
    hide BaseHolds;
  }

  /**
   * Any number of interrupted pulls, each killed before or after any step and possibly in the
   * middle of its writes, followed by one that completes: the disk is exactly the layers.
   */
  lemma ResumedPull(cfg: Config, sessions: seq<Session>, events: seq<Event>)
    requires cfg.Valid() && !cfg.deduplicate
    requires Chain(cfg.world, cfg.layers, sessions)
    requires cfg.existing == Found(sessions, |sessions|)
    requires Run(cfg, Start(cfg), events).Completed()
    ensures Run(cfg, Start(cfg), events).file == cfg.Target()
  {
    hide Run, Start, PlainSession, ZeroOrTarget, SkippedIsZero, TrustIsEarned;
    if sessions == [] {
      FreshPull(cfg, events);
    } else {
      ChainImages(cfg.world, cfg.layers, sessions, |sessions| - 1);
      LeftoverBase(cfg);
      ZeroOrTargetClears(cfg);
      NoTrust(cfg);
      CompletedPull(cfg, events);
    }
  }

  /**
   * With deduplication a resumed pull can complete on a wrong disk: the cache and the image hold
   * the single byte 1, the leftover file the byte 0, and the layer is taken on trust.
   */
  lemma DeduplicatedResumeCanFail(world: World, digest: string, blk: BlockSize) returns (cfg: Config, events: seq<Event>)
    requires IdealHash(world.hash) && world.decompress(world.blob(digest)) == Some([1])
    ensures cfg.Valid() && cfg.deduplicate && cfg.existing == Some([0])
    ensures Run(cfg, Start(cfg), events).Completed()
    ensures Run(cfg, Start(cfg), events).file != cfg.Target()
  {
    var h := world.hash([1]);
    var layer := Layer(DISK_MEDIA_TYPE, digest, Some(1), Some(h));
    var info := Info(0, 1, digest, h);
    var cache := Cache([1], map[digest := info], map[0 := info]);
    cfg := Config(world, [layer], Some(cache), true, Some([0]), blk);
    assert cfg.Sized();
    assert Honest(world, layer);
    assert [1][0..1] == [1];
    assert cache.Sound(world.hash);
    assert Sizes(cfg.layers)[..0] == [] && Sizes(cfg.layers)[..1] == [1];
    assert cfg.Base() == [0];
    assert [0][0..1] == [0] && world.hash([0]) != h by { assert [0 as Byte][0] != [1 as Byte][0]; }
    events := [Event(0, Begin)];
    assert cfg.Trusts(0);
    assert Step(cfg, Start(cfg), events[0]) == State([0], [Done]);
    assert Run(cfg, Start(cfg), events) == Run(cfg, State([0], [Done]), []);
    assert Contents(cfg.world, cfg.layers) == [[1]];
    assert cfg.Target() == [1] by { assert Concat([[1]]) == [1] + Concat([]); }
  }
}
