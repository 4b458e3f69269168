/** Push, Pull and the retried download as the program runs them, and the round trip between them. */
module DiskTransfer {
  import opened Bytes
  import opened DiskFiles
  import opened LayerCaches
  import opened ZeroSkip
  import opened DiskPull
  import opened DiskPullTheorems
  import opened DiskPullProgress
  import opened Sorting

  const LAYER_LIMIT: nat := 512 * 1024 * 1024

  /** How one attempt of a download ends after `delivered` further bytes. */
  datatype Outcome = Complete | NetworkError | OtherError
  datatype Attempt = Attempt(delivered: nat, outcome: Outcome)

  /** Some attempt completes, before `left` attempts are used up and after network errors only. */
  ghost predicate RecoversWithin(network: seq<Attempt>, left: nat) {
    exists k :: 0 <= k < |network| && k < left && network[k].outcome == Complete
                && forall j :: 0 <= j < k ==> network[j].outcome == NetworkError
  }

  /** One of the first five attempts completes, after network errors only. */
  ghost predicate Recovers(network: seq<Attempt>) { RecoversWithin(network, 5) }

  /** One request for the blob from byte `from` on: what arrives before it ends. */
  function Arrives(blob: ByteString, from: nat, a: Attempt): (r: ByteString)
    requires from <= |blob|
    ensures r <= blob[from..]
    ensures a.outcome == Complete ==> r == blob[from..]
  {
    if a.outcome == Complete then blob[from..] else blob[from..Min(from + a.delivered, |blob|)]
  }

  /** A download that is cut resumes after the last byte received; what it ends with is the blob. */
  method FetchBlob(blob: ByteString, network: seq<Attempt>) returns (r: Option<ByteString>)
    requires |network| >= MAX_ATTEMPTS
    ensures r.Some? ==> r.value == blob
    ensures r.Some? <==> Recovers(network)
  {
    var compressed: ByteString := [];
    for attempt := 0 to MAX_ATTEMPTS
      invariant compressed <= blob
      invariant forall j :: 0 <= j < attempt ==> network[j].outcome == NetworkError
    {
      compressed := compressed + Arrives(blob, |compressed|, network[attempt]);
      match network[attempt].outcome
      case Complete => return Some(compressed);
      case OtherError => return None;
      case NetworkError =>
    }
    return None;
  }

  /** What the attempts of a download mean for a worker. */
  function ChoicesOf(network: seq<Attempt>): seq<Choice> {
    if network == [] then []
    else match network[0].outcome
      case Complete => [Finish]
      case OtherError => [Abort]
      case NetworkError => [Deliver(network[0].delivered), Cut] + ChoicesOf(network[1..])
  }

  lemma RecoversNext(network: seq<Attempt>, left: nat)
    requires network != [] && left > 0 && network[0].outcome == NetworkError
    ensures RecoversWithin(network, left) <==> RecoversWithin(network[1..], left - 1)
  {
    if RecoversWithin(network, left) {
      var k :| 0 <= k < |network| && k < left && network[k].outcome == Complete
               && forall j :: 0 <= j < k ==> network[j].outcome == NetworkError;
      assert network[1..][k - 1].outcome == Complete;
    }
    if RecoversWithin(network[1..], left - 1) {
      var k :| 0 <= k < |network[1..]| && k < left - 1 && network[1..][k].outcome == Complete
               && forall j :: 0 <= j < k ==> network[1..][j].outcome == NetworkError;
      assert network[k + 1].outcome == Complete;
      assert forall j :: 0 < j < k + 1 ==> network[j] == network[1..][j - 1];
    }
  }

  lemma {:induction false} WorkerFetchesFrom(cfg: Config, f: ByteString, i: nat, received: ByteString, attempts: nat, network: seq<Attempt>)
    requires cfg.Valid() && i < |cfg.layers| && attempts < 5 && |network| >= 5 - attempts
    requires received <= cfg.world.blob(cfg.layers[i].digest)
    ensures WorkerRun(cfg, f, i, Fetching(received, attempts), ChoicesOf(network)) ==
            (f, if RecoversWithin(network, 5 - attempts) then Writing(Content(cfg.world, cfg.layers[i]), 0) else Failed)
    decreases |network|
  {
    hide FinishDownload, Content;
    match network[0].outcome
    case Complete =>
      FinishGives(cfg, i, received);
    case OtherError =>
    case NetworkError =>
      var cs, rest := ChoicesOf(network), ChoicesOf(network[1..]);
      var more := Receive(cfg, i, received, network[0].delivered);
      assert cs[0] == Deliver(network[0].delivered) && cs[1..][0] == Cut && cs[1..][1..] == rest;
      RecoversNext(network, 5 - attempts);
      if attempts < 4 {
        WorkerFetchesFrom(cfg, f, i, more, attempts + 1, network[1..]);
      } else {
        FailedForGood(cfg, f, i, rest);
      }
  }

  /** A worker's download ends as the retried download does: with the content to write exactly if it recovers. */
  lemma WorkerFetches(cfg: Config, f: ByteString, i: nat, network: seq<Attempt>)
    requires cfg.Valid() && i < |cfg.layers| && |network| >= 5
    ensures WorkerRun(cfg, f, i, Fetching([], 0), ChoicesOf(network)) ==
            (f, if Recovers(network) then Writing(Content(cfg.world, cfg.layers[i]), 0) else Failed)
  {
    hide WorkerRun, ChoicesOf, Content;
    WorkerFetchesFrom(cfg, f, i, [], 0, network);
  }

  lemma NoOffset(layers: seq<Layer>)
    ensures Offset(layers, 0) == 0
  {
  }

  /** Pull under a given schedule of its workers; fails when a size is missing or a worker is not done. */
  method Pull(cfg: Config, disk: DiskFile, events: seq<Event>) returns (ok: bool)
    requires cfg.existing.Some? ==> disk.data == cfg.existing.value
    modifies disk
    ensures ok <==> cfg.Sized() && Run(cfg, Start(cfg), events).Completed()
    ensures cfg.Sized() ==> disk.data == Run(cfg, Start(cfg), events).file
    ensures ok && cfg.Valid() && cfg.existing.None? ==> disk.data == cfg.Target()
  {
    hide WorkerStep, Offset, TargetOf, Honest, IdealHash;
    NoOffset(cfg.layers);
    if cfg.existing.None? {
      disk.data := if cfg.Compare() then cfg.cache.value.disk else [];
    }
    ghost var found := disk.data;
    var uncompressedDiskSize: nat := 0;
    for i := 0 to |cfg.layers|
      invariant disk.data == found && uncompressedDiskSize == Offset(cfg.layers, i)
      invariant forall j :: 0 <= j < i ==> cfg.layers[j].uncompressedSize.Some?
    {
      if cfg.layers[i].uncompressedSize.None? {
        assert cfg.layers[i] in cfg.layers;
        return false;
      }
      OffsetStep(cfg.layers, i);
      uncompressedDiskSize := uncompressedDiskSize + cfg.layers[i].uncompressedSize.value;
    }
    disk.Truncate(uncompressedDiskSize);
    var workers := AllQueued(|cfg.layers|);
    assert events[0..] == events;
    var n := 0;
    while n < |events|
      invariant n <= |events| && |workers| == |cfg.layers|
      invariant WellFormed(cfg, State(disk.data, workers))
      invariant Run(cfg, Start(cfg), events) == Run(cfg, State(disk.data, workers), events[n..])
    {
      var Event(i, choice) := events[n];
      ghost var st := State(disk.data, workers);
      assert events[n..][0] == events[n] && events[n..][1..] == events[n + 1..];
      if i < |workers| {
        var (f, w) := WorkerStep(cfg, disk.data, i, workers[i], choice);
        disk.data, workers := f, workers[i := w];
      }
      assert State(disk.data, workers) == Step(cfg, st, events[n]);
      n := n + 1;
    }
    ok := forall w :: w in workers ==> w == Done;
    if ok && cfg.Valid() && cfg.existing.None? {
      FreshPull(cfg, events);
    }
  }

  // ----- Push

  function ChunkCount(size: nat): nat {
    (size + LAYER_LIMIT - 1) / LAYER_LIMIT
  }

  function Iota(n: nat): (r: seq<nat>)
    ensures |r| == n && forall i :: 0 <= i < n ==> r[i] == i
  {
    seq(n, i => i)
  }

  function Piece(disk: ByteString, index: nat): ByteString {
    if index * LAYER_LIMIT <= |disk| then disk[index * LAYER_LIMIT..Min(index * LAYER_LIMIT + LAYER_LIMIT, |disk|)] else []
  }

  function Pieces(disk: ByteString, count: nat): seq<ByteString> {
    Map((i: nat) => Piece(disk, i), Iota(count))
  }

  /** The layer pushDiskLayer describes for one piece of the disk. */
  function PushedLayer(hash: ByteString -> string, compress: ByteString -> ByteString, piece: ByteString): Layer {
    Layer(DISK_MEDIA_TYPE, hash(compress(piece)), Some(|piece|), Some(hash(piece)))
  }

  function PushedLayers(hash: ByteString -> string, compress: ByteString -> ByteString, disk: ByteString): seq<Layer> {
    Map(p => PushedLayer(hash, compress, p), Pieces(disk, ChunkCount(|disk|)))
  }

  /** The first pieces of a disk, joined, are a prefix of it. */
  lemma {:induction false} PiecesJoin(disk: ByteString, count: nat)
    ensures Concat(Pieces(disk, count)) == disk[..Min(count * LAYER_LIMIT, |disk|)]
  {
    if count > 0 {
      PiecesJoin(disk, count - 1);
      ConcatAppend(Pieces(disk, count - 1), Piece(disk, count - 1));
      assert Pieces(disk, count) == Pieces(disk, count - 1) + [Piece(disk, count - 1)];
    }
  }

  /** Every piece but the last is 512 MiB long, and the last is what is left, never empty; an empty disk has no pieces. */
  lemma PieceSizes(disk: ByteString, i: nat)
    requires i < ChunkCount(|disk|)
    ensures |Pieces(disk, ChunkCount(|disk|))| == ChunkCount(|disk|)
    ensures var piece := Pieces(disk, ChunkCount(|disk|))[i];
            if i + 1 < ChunkCount(|disk|) then |piece| == 512 * 1024 * 1024
            else 0 < |piece| <= 512 * 1024 * 1024 && |disk| == i * (512 * 1024 * 1024) + |piece|
    ensures ChunkCount(0) == 0
  {
    var size := |disk|;
    assert (size + LAYER_LIMIT - 1) / LAYER_LIMIT * LAYER_LIMIT <= size + LAYER_LIMIT - 1;
    assert i * LAYER_LIMIT < size;
  }

  datatype Upload = Upload(index: nat, ok: bool)
  datatype IndexedLayer = IndexedLayer(index: nat, layer: Layer)

  function IndexOf(u: Upload): nat { u.index }
  function IndexKey(l: IndexedLayer): int { l.index }
  function LayerOf(l: IndexedLayer): Layer { l.layer }

  /** What a finished upload of piece `i` adds to the list. */
  function Uploaded(hash: ByteString -> string, compress: ByteString -> ByteString, disk: ByteString): nat -> IndexedLayer {
    (i: nat) => IndexedLayer(i, PushedLayer(hash, compress, Piece(disk, i)))
  }

  /** The workers of Push: each appends its layer when it finishes; None when any of them failed. */
  method CollectUploads(hash: ByteString -> string, compress: ByteString -> ByteString, disk: ByteString, uploads: seq<Upload>)
    returns (r: Option<seq<IndexedLayer>>)
    ensures r.Some? <==> forall u :: u in uploads ==> u.ok
    ensures r.Some? ==> r.value == Map(Uploaded(hash, compress, disk), Map(IndexOf, uploads))
  {
    var layers: seq<IndexedLayer> := [];
    var failed := false;
    for n := 0 to |uploads|
      invariant failed <==> exists k :: 0 <= k < n && !uploads[k].ok
      invariant |layers| <= n && (!failed ==> |layers| == n)
      invariant !failed ==> forall k :: 0 <= k < n ==> layers[k] == Uploaded(hash, compress, disk)(uploads[k].index)
    {
      var u := uploads[n];
      if u.ok {
        layers := layers + [IndexedLayer(u.index, PushedLayer(hash, compress, Piece(disk, u.index)))];
      } else {
        failed := true;
      }
    }
    if failed {
      return None;
    }
    assert layers == Map(Uploaded(hash, compress, disk), Map(IndexOf, uploads));
    return Some(layers);
  }

  /**
   * Uploads the pieces of a disk; `uploads` lists them in the order in which they finish.
   * The layers come back in disk order, or not at all when any upload failed.
   */
  method Push(hash: ByteString -> string, compress: ByteString -> ByteString, disk: ByteString, uploads: seq<Upload>)
    returns (r: Option<seq<Layer>>)
    requires multiset(Map(IndexOf, uploads)) == multiset(Iota(ChunkCount(|disk|)))
    ensures r.Some? <==> forall u :: u in uploads ==> u.ok
    ensures r.Some? ==> r.value == PushedLayers(hash, compress, disk)
  {
    var layers := CollectUploads(hash, compress, disk, uploads);
    if layers.None? {
      return None;
    }
    var sorted := SortBy(layers.value, IndexKey);
    SortedInDiskOrder(hash, compress, disk, uploads, sorted);
    var result: seq<Layer> := [];
    for n := 0 to |sorted|
      invariant |result| == n && forall i :: 0 <= i < n ==> result[i] == sorted[i].layer
    {
      result := result + [sorted[n].layer];
    }
    assert result == Map(LayerOf, sorted);
    return Some(result);
  }

  /** Whatever order the uploads finished in, sorting by index restores disk order. */
  lemma SortedInDiskOrder(hash: ByteString -> string, compress: ByteString -> ByteString, disk: ByteString,
                          uploads: seq<Upload>, sorted: seq<IndexedLayer>)
    requires multiset(Map(IndexOf, uploads)) == multiset(Iota(ChunkCount(|disk|)))
    requires Sorted(sorted, IndexKey)
    requires multiset(sorted) == multiset(Map(Uploaded(hash, compress, disk), Map(IndexOf, uploads)))
    ensures Map(LayerOf, sorted) == PushedLayers(hash, compress, disk)
  {
    var indexed := Uploaded(hash, compress, disk);
    var all := Map(indexed, Iota(ChunkCount(|disk|)));
    MapMultiset(indexed, Map(IndexOf, uploads), Iota(ChunkCount(|disk|)));
    SortedUnique(sorted, all, IndexKey);
    assert Map(LayerOf, all) == PushedLayers(hash, compress, disk);
  }

  /** The registry and the codec keep their side: LZ4 is undone, and a pushed blob is found by its digest. */
  ghost predicate Stores(world: World, compress: ByteString -> ByteString) {
    && (forall x: ByteString :: world.decompress(compress(x)) == Some(x))
    && (forall x: ByteString :: world.blob(world.hash(compress(x))) == compress(x))
  }

  lemma PushedLayersDescribe(world: World, compress: ByteString -> ByteString, disk: ByteString)
    requires Stores(world, compress)
    ensures var layers := PushedLayers(world.hash, compress, disk);
            && (forall l :: l in layers ==> Honest(world, l) && l.uncompressedSize.Some?)
            && TargetOf(world, layers) == disk
  {
    var pieces := Pieces(disk, ChunkCount(|disk|));
    var layers := PushedLayers(world.hash, compress, disk);
    forall i | 0 <= i < |layers|
      ensures Honest(world, layers[i]) && layers[i].uncompressedSize.Some? && Content(world, layers[i]) == pieces[i]
    {
      assert layers[i] == PushedLayer(world.hash, compress, pieces[i]);
    }
    assert Contents(world, layers) == pieces;
    PiecesJoin(disk, ChunkCount(|disk|));
  }

  /**
   * Push, then pull: for every disk, every order in which the uploads finished, every earlier
   * series of interrupted pulls and every schedule of the last one, the disk comes back.
   */
  lemma PushThenPull(world: World, compress: ByteString -> ByteString, disk: ByteString,
                     cfg: Config, sessions: seq<Session>, events: seq<Event>)
    requires IdealHash(world.hash) && Stores(world, compress)
    requires cfg.world == world && cfg.layers == PushedLayers(world.hash, compress, disk)
    requires cfg.cache.Some? ==> cfg.cache.value.Sound(world.hash)
    requires Chain(world, cfg.layers, sessions) && cfg.existing == Found(sessions, |sessions|)
    requires cfg.deduplicate ==> sessions == []
    requires Run(cfg, Start(cfg), events).Completed()
    ensures Run(cfg, Start(cfg), events).file == disk
  {
    PushedLayersDescribe(world, compress, disk);
    assert cfg.Valid();
    if sessions == [] {
      FreshPull(cfg, events);
    } else {
      ResumedPull(cfg, sessions, events);
    }
  }
}
