/** OCI layers, the registry they come from, and the cache of a previously pulled disk. */
module LayerCaches {
  import opened Bytes

  const DISK_MEDIA_TYPE := "application/vnd.cirruslabs.tart.disk.v2"

  /** A manifest entry; the two annotations may be absent. */
  datatype Layer = Layer(
    mediaType: string,
    digest: string,
    uncompressedSize: Option<nat>,
    contentDigest: Option<string>)

  /** What lies outside the program: SHA-256, LZ4 decompression, and the blob behind each digest. */
  datatype World = World(
    hash: ByteString -> string,
    decompress: ByteString -> Option<ByteString>,
    blob: string -> ByteString)

  /** SHA-256 is treated as injective; a digest string is never empty. */
  ghost predicate IdealHash(hash: ByteString -> string) {
    && (forall x: ByteString, y: ByteString :: hash(x) == hash(y) ==> x == y)
    && forall x: ByteString :: hash(x) != ""
  }

  function Content(w: World, l: Layer): ByteString {
    match w.decompress(w.blob(l.digest))
    case Some(c) => c
    case None => []
  }

  /** The annotations that are present describe the blob truthfully. */
  ghost predicate Honest(w: World, l: Layer) {
    && w.decompress(w.blob(l.digest)).Some?
    && (l.uncompressedSize.Some? ==> l.uncompressedSize.value == |Content(w, l)|)
    && (l.contentDigest.Some? ==> l.contentDigest.value == w.hash(Content(w, l)))
  }

  datatype Info = Info(rangeStart: nat, rangeEnd: nat, compressedDigest: string, contentDigest: string)

  datatype Cache = Cache(disk: ByteString, byDigest: map<string, Info>, byOffset: map<nat, Info>) {
    /** Layers can share a digest, so the entry at the hinted offset is preferred. */
    function FindInfo(digest: string, offsetHint: nat): (r: Option<Info>)
      ensures r.Some? ==> (r.value in byOffset.Values || r.value in byDigest.Values)
    {
      if offsetHint in byOffset && byOffset[offsetHint].compressedDigest == digest then Some(byOffset[offsetHint])
      else if digest in byDigest then Some(byDigest[digest])
      else None
    }

    function Subdata(start: nat, end: nat): (r: ByteString)
      ensures start <= end <= |disk| ==> r == disk[start..end]
    {
      var hi := Min(end, |disk|);
      if start >= hi then [] else disk[start..hi]
    }

    /** Every indexed range lies on the cached disk and holds the content its digest names. */
    ghost predicate Sound(hash: ByteString -> string) {
      forall i :: i in byOffset.Values || i in byDigest.Values ==> InfoSound(hash, disk, i)
    }
  }

  ghost predicate InfoSound(hash: ByteString -> string, disk: ByteString, i: Info) {
    && i.rangeStart <= i.rangeEnd <= |disk|
    && (i.contentDigest != "" ==> hash(disk[i.rangeStart..i.rangeEnd]) == i.contentDigest)
  }

  function SizeOf(l: Layer): nat {
    match l.uncompressedSize
    case Some(n) => n
    case None => 0
  }

  function Sizes(layers: seq<Layer>): (r: seq<nat>)
    ensures |r| == |layers|
  {
    seq(|layers|, i requires 0 <= i < |layers| => SizeOf(layers[i]))
  }

  /** Where layer `i` starts on the disk: the layers before it, end to end. */
  function Offset(layers: seq<Layer>, i: nat): nat
    requires i <= |layers|
  {
    Sum(Sizes(layers)[..i])
  }

  lemma OffsetStep(layers: seq<Layer>, i: nat)
    requires i < |layers|
    ensures Offset(layers, i + 1) == Offset(layers, i) + SizeOf(layers[i])
  {
    var s := Sizes(layers);
    assert s[..i + 1] == s[..i] + [s[i]];
    SumAppend(s[..i], [s[i]]);
  }

  lemma OffsetsOrdered(layers: seq<Layer>, i: nat, j: nat)
    requires i < j <= |layers|
    ensures Offset(layers, i) + SizeOf(layers[i]) <= Offset(layers, j)
  {
    PrefixSumsOrdered(Sizes(layers), i, j);
  }

  function DiskLayers(layers: seq<Layer>): seq<Layer> {
    if layers == [] then []
    else if layers[0].mediaType == DISK_MEDIA_TYPE then [layers[0]] + DiskLayers(layers[1..])
    else DiskLayers(layers[1..])
  }

  lemma {:induction false} DiskLayersSnoc(layers: seq<Layer>, l: Layer)
    ensures DiskLayers(layers + [l]) ==
            DiskLayers(layers) + if l.mediaType == DISK_MEDIA_TYPE then [l] else []
  {
    if layers == [] {
      assert layers + [l] == [l];
    } else {
      assert (layers + [l])[1..] == layers[1..] + [l];
      DiskLayersSnoc(layers[1..], l);
    }
  }

  /** The index entry of the `k`-th disk layer of a manifest. */
  function InfoOf(disks: seq<Layer>, k: nat): Info
    requires k < |disks|
  {
    Info(Offset(disks, k), Offset(disks, k) + SizeOf(disks[k]), disks[k].digest,
         match disks[k].contentDigest case Some(d) => d case None => "")
  }

  ghost predicate EntryAt(disks: seq<Layer>, i: Info, k: nat) {
    k < |disks| && i == InfoOf(disks, k)
  }

  /** `i` describes one of the layers. */
  ghost predicate Entry(disks: seq<Layer>, i: Info) {
    exists k: nat :: EntryAt(disks, i, k)
  }

  /** Both maps hold entries of these layers only, under their own keys, and miss no layer. */
  ghost predicate IndexesLayers(c: Cache, disks: seq<Layer>) {
    && (forall o :: o in c.byOffset ==> c.byOffset[o].rangeStart == o && Entry(disks, c.byOffset[o]))
    && (forall d :: d in c.byDigest ==> c.byDigest[d].compressedDigest == d && Entry(disks, c.byDigest[d]))
    && (forall i :: Entry(disks, i) ==> i.compressedDigest in c.byDigest && i.rangeStart in c.byOffset)
  }

  lemma InfoOfPrefix(disks: seq<Layer>, l: Layer, k: nat)
    requires k < |disks|
    ensures InfoOf(disks + [l], k) == InfoOf(disks, k)
  {
    assert Sizes(disks + [l])[..k] == Sizes(disks)[..k];
  }

  lemma EntryExtends(disks: seq<Layer>, l: Layer, i: Info)
    requires Entry(disks, i)
    ensures Entry(disks + [l], i)
  {
    var k: nat :| EntryAt(disks, i, k);
    InfoOfPrefix(disks, l, k);
    assert EntryAt(disks + [l], i, k);
  }

  lemma EntrySplits(disks: seq<Layer>, l: Layer, i: Info)
    requires Entry(disks + [l], i)
    ensures i == InfoOf(disks + [l], |disks|) || Entry(disks, i)
  {
    var k: nat :| EntryAt(disks + [l], i, k);
    if k < |disks| {
      InfoOfPrefix(disks, l, k);
      assert EntryAt(disks, i, k);
    }
  }

  lemma EntriesOfOneMore(disks: seq<Layer>, l: Layer, i: Info)
    requires i == InfoOf(disks + [l], |disks|)
    ensures forall j :: Entry(disks + [l], j) <==> j == i || Entry(disks, j)
  {
    assert EntryAt(disks + [l], i, |disks|);
    forall j ensures Entry(disks + [l], j) <==> j == i || Entry(disks, j) {
      if Entry(disks, j) { EntryExtends(disks, l, j); }
      if Entry(disks + [l], j) { EntrySplits(disks, l, j); }
    }
  }

  lemma IndexExtends(c: Cache, disks: seq<Layer>, more: seq<Layer>, i: Info)
    requires IndexesLayers(c, disks)
    requires forall j :: Entry(more, j) <==> j == i || Entry(disks, j)
    ensures IndexesLayers(Cache(c.disk, c.byDigest[i.compressedDigest := i], c.byOffset[i.rangeStart := i]), more)
  {
    hide Entry;
    var c' := Cache(c.disk, c.byDigest[i.compressedDigest := i], c.byOffset[i.rangeStart := i]);
    forall o | o in c'.byOffset
      ensures c'.byOffset[o].rangeStart == o && Entry(more, c'.byOffset[o])
    {
      assert o != i.rangeStart ==> o in c.byOffset;
    }
    forall d | d in c'.byDigest
      ensures c'.byDigest[d].compressedDigest == d && Entry(more, c'.byDigest[d])
    {
      assert d != i.compressedDigest ==> d in c.byDigest;
    }
  }

  /** No later layer has the same digest. */
  ghost predicate LastOfDigest(disks: seq<Layer>, k: nat) {
    k < |disks| && forall j :: k < j < |disks| ==> disks[j].digest != disks[k].digest
  }

  /** No later layer starts at the same offset, as one after an empty layer does. */
  ghost predicate LastAtOffset(disks: seq<Layer>, k: nat) {
    k < |disks| && forall j :: k < j < |disks| ==> Offset(disks, j) != Offset(disks, k)
  }

  /** Of layers that share a digest or an offset, the last one stands in the index. */
  ghost predicate KeepsLast(c: Cache, disks: seq<Layer>) {
    && (forall k: nat :: LastOfDigest(disks, k) ==> disks[k].digest in c.byDigest && c.byDigest[disks[k].digest] == InfoOf(disks, k))
    && (forall k: nat :: LastAtOffset(disks, k) ==> Offset(disks, k) in c.byOffset && c.byOffset[Offset(disks, k)] == InfoOf(disks, k))
  }

  lemma SameOffset(disks: seq<Layer>, l: Layer, k: nat)
    requires k <= |disks|
    ensures Offset(disks + [l], k) == Offset(disks, k)
  {
    assert Sizes(disks + [l])[..k] == Sizes(disks)[..k];
  }

  lemma LastBefore(disks: seq<Layer>, l: Layer, k: nat)
    requires k < |disks|
    ensures LastOfDigest(disks + [l], k) ==> LastOfDigest(disks, k) && l.digest != disks[k].digest
    ensures LastAtOffset(disks + [l], k) ==> LastAtOffset(disks, k) && Offset(disks, |disks|) != Offset(disks, k)
  {
    hide Offset;
    var more := disks + [l];
    SameOffset(disks, l, k);
    SameOffset(disks, l, |disks|);
    if LastOfDigest(more, k) {
      assert more[|disks|] == l;
      forall j | k < j < |disks| ensures disks[j].digest != disks[k].digest {
        assert more[j] == disks[j];
      }
    }
    if LastAtOffset(more, k) {
      forall j | k < j < |disks| ensures Offset(disks, j) != Offset(disks, k) {
        SameOffset(disks, l, j);
      }
    }
  }

  lemma KeepsLastExtends(c: Cache, disks: seq<Layer>, l: Layer, i: Info)
    requires KeepsLast(c, disks) && i == InfoOf(disks + [l], |disks|)
    ensures KeepsLast(Cache(c.disk, c.byDigest[i.compressedDigest := i], c.byOffset[i.rangeStart := i]), disks + [l])
  {
    hide LastOfDigest, LastAtOffset, Offset, SizeOf;
    var more := disks + [l];
    var c' := Cache(c.disk, c.byDigest[i.compressedDigest := i], c.byOffset[i.rangeStart := i]);
    SameOffset(disks, l, |disks|);
    forall k: nat | LastOfDigest(more, k)
      ensures k < |more| && more[k].digest in c'.byDigest && c'.byDigest[more[k].digest] == InfoOf(more, k)
    {
      LastInBounds(more, k);
      if k < |disks| {
        LastBefore(disks, l, k);
        InfoOfPrefix(disks, l, k);
      }
    }
    forall k: nat | LastAtOffset(more, k)
      ensures k < |more| && Offset(more, k) in c'.byOffset && c'.byOffset[Offset(more, k)] == InfoOf(more, k)
    {
      LastInBounds(more, k);
      if k < |disks| {
        LastBefore(disks, l, k);
        InfoOfPrefix(disks, l, k);
        SameOffset(disks, l, k);
      }
    }
  }

  lemma LastInBounds(disks: seq<Layer>, k: nat)
    ensures LastOfDigest(disks, k) || LastAtOffset(disks, k) ==> k < |disks|
  {
  }

  lemma NothingIndexed(disk: ByteString)
    ensures KeepsLast(Cache(disk, map[], map[]), [])
    ensures IndexesLayers(Cache(disk, map[], map[]), []) && Offset([], 0) == 0
  {
  }

  /** A further layer starts where the ones before it end. */
  lemma NextInfo(disks: seq<Layer>, l: Layer)
    requires l.uncompressedSize.Some?
    ensures InfoOf(disks + [l], |disks|) == Info(Offset(disks, |disks|), Offset(disks, |disks|) + l.uncompressedSize.value, l.digest,
                                                 match l.contentDigest case Some(d) => d case None => "")
    ensures Offset(disks + [l], |disks| + 1) == Offset(disks, |disks|) + l.uncompressedSize.value
  {
    hide Sum;
    OffsetStep(disks + [l], |disks|);
    assert Sizes(disks + [l])[..|disks|] == Sizes(disks)[..|disks|];
  }

  /** Indexes a cached disk by the layers of its manifest; None when a disk layer declares no size. */
  method NewLocalLayerCache(disk: ByteString, manifest: seq<Layer>) returns (r: Option<Cache>)
    ensures r.Some? <==> forall l :: l in DiskLayers(manifest) ==> l.uncompressedSize.Some?
    ensures r.Some? ==> r.value.disk == disk && IndexesLayers(r.value, DiskLayers(manifest)) && KeepsLast(r.value, DiskLayers(manifest))
  {
    hide Entry, Offset, SizeOf, Sizes, Sum, KeepsLast, IndexesLayers;
    var cache := Cache(disk, map[], map[]);
    NothingIndexed(disk);
    var offset: nat := 0;
    ghost var disks: seq<Layer> := [];
    for i := 0 to |manifest|
      invariant disks == DiskLayers(manifest[..i])
      invariant offset == Offset(disks, |disks|)
      invariant forall l :: l in disks ==> l.uncompressedSize.Some?
      invariant cache.disk == disk && IndexesLayers(cache, disks) && KeepsLast(cache, disks)
    {
      var layer := manifest[i];
      DiskLayersSnoc(manifest[..i], layer);
      assert manifest[..i + 1] == manifest[..i] + [layer];
      if layer.mediaType != DISK_MEDIA_TYPE {
        continue;
      }
      if layer.uncompressedSize.None? {
        DiskLayersAppend(manifest[..i + 1], manifest[i + 1..]);
        assert manifest == manifest[..i + 1] + manifest[i + 1..];
        assert layer in disks + [layer];
        assert layer in DiskLayers(manifest);
        return None;
      }
      var digestInfo := Info(offset, offset + layer.uncompressedSize.value, layer.digest,
                             match layer.contentDigest case Some(d) => d case None => "");
      NextInfo(disks, layer);
      assert digestInfo == InfoOf(disks + [layer], |disks|);
      EntriesOfOneMore(disks, layer, digestInfo);
      IndexExtends(cache, disks, disks + [layer], digestInfo);
      KeepsLastExtends(cache, disks, layer, digestInfo);
      cache := Cache(disk, cache.byDigest[layer.digest := digestInfo], cache.byOffset[offset := digestInfo]);
      offset := offset + layer.uncompressedSize.value;
      disks := disks + [layer];
    }
    assert manifest[..|manifest|] == manifest;
    return Some(cache);
  }

  lemma {:induction false} DiskLayersAppend(a: seq<Layer>, b: seq<Layer>)
    ensures DiskLayers(a + b) == DiskLayers(a) + DiskLayers(b)
  {
    if a == [] {
      assert a + b == b;
    } else {
      assert (a + b)[1..] == a[1..] + b;
      DiskLayersAppend(a[1..], b);
    }
  }

  /** The cached disk holds, end to end, the contents its own manifest declares. */
  ghost predicate DiskMatchesManifest(hash: ByteString -> string, disk: ByteString, disks: seq<Layer>) {
    forall k: nat :: k < |disks| ==> InfoSound(hash, disk, InfoOf(disks, k))
  }

  /** A cache built from a disk that matches its manifest never lies about a range. */
  lemma IndexIsSound(hash: ByteString -> string, c: Cache, disks: seq<Layer>)
    requires IndexesLayers(c, disks) && DiskMatchesManifest(hash, c.disk, disks)
    ensures c.Sound(hash)
  {
    forall i | i in c.byOffset.Values || i in c.byDigest.Values
      ensures InfoSound(hash, c.disk, i)
    {
      assert Entry(disks, i);
      var k: nat :| EntryAt(disks, i, k);
    }
  }

  ghost predicate HasDigest(disks: seq<Layer>, digest: string) {
    exists k: nat :: k < |disks| && disks[k].digest == digest
  }

  /** A standing entry at the hinted offset has this digest. */
  ghost predicate AtHint(disks: seq<Layer>, digest: string, offsetHint: nat) {
    exists k: nat :: LastAtOffset(disks, k) && Offset(disks, k) == offsetHint && disks[k].digest == digest
  }

  lemma {:induction false} LastExists(disks: seq<Layer>, digest: string, k: nat) returns (last: nat)
    requires k < |disks| && disks[k].digest == digest
    ensures LastOfDigest(disks, last) && disks[last].digest == digest
    decreases |disks| - k
  {
    last := k;
    if !LastOfDigest(disks, k) {
      var j :| k < j < |disks| && disks[j].digest == disks[k].digest;
      last := LastExists(disks, digest, j);
    }
  }

  lemma {:induction false} LastAtOffsetExists(disks: seq<Layer>, k: nat) returns (last: nat)
    requires k < |disks|
    ensures LastAtOffset(disks, last) && Offset(disks, last) == Offset(disks, k)
    decreases |disks| - k
  {
    hide Offset;
    last := k;
    if !LastAtOffset(disks, k) {
      var j :| k < j < |disks| && Offset(disks, j) == Offset(disks, k);
      last := LastAtOffsetExists(disks, j);
    }
  }

  lemma IndexedAt(c: Cache, disks: seq<Layer>, o: nat, d: string)
    requires IndexesLayers(c, disks)
    ensures o in c.byOffset ==> Entry(disks, c.byOffset[o])
    ensures d in c.byDigest ==> Entry(disks, c.byDigest[d]) && c.byDigest[d].compressedDigest == d
  {
    hide Entry;
  }

  /** What is found has the digest, and is the entry of a layer. */
  lemma FoundIsEntry(c: Cache, disks: seq<Layer>, digest: string, offsetHint: nat) returns (k: nat)
    requires IndexesLayers(c, disks) && c.FindInfo(digest, offsetHint).Some?
    ensures EntryAt(disks, c.FindInfo(digest, offsetHint).value, k) && disks[k].digest == digest
  {
    hide Offset, SizeOf, IndexesLayers;
    var i := c.FindInfo(digest, offsetHint).value;
    IndexedAt(c, disks, offsetHint, digest);
    assert i.compressedDigest == digest && Entry(disks, i);
    k :| EntryAt(disks, i, k);
  }

  lemma HintStands(c: Cache, disks: seq<Layer>, digest: string, offsetHint: nat)
    requires IndexesLayers(c, disks) && KeepsLast(c, disks)
    requires offsetHint in c.byOffset && c.byOffset[offsetHint].compressedDigest == digest
    ensures AtHint(disks, digest, offsetHint)
  {
    hide Offset, SizeOf, LastAtOffset, LastOfDigest;
    var k: nat :| EntryAt(disks, c.byOffset[offsetHint], k);
    var last := LastAtOffsetExists(disks, k);
    assert disks[last].digest == digest by { StandingAt(c, disks, last); }
  }

  lemma StandingAt(c: Cache, disks: seq<Layer>, k: nat)
    requires KeepsLast(c, disks)
    ensures LastAtOffset(disks, k) ==> k < |disks| && Offset(disks, k) in c.byOffset && c.byOffset[Offset(disks, k)] == InfoOf(disks, k)
    ensures LastOfDigest(disks, k) ==> k < |disks| && disks[k].digest in c.byDigest && c.byDigest[disks[k].digest] == InfoOf(disks, k)
  {
    hide Offset, SizeOf, LastAtOffset, LastOfDigest;
    LastInBounds(disks, k);
  }

  /**
   * A digest is found exactly if some layer has it: at the hinted offset if the standing layer there has it,
   * otherwise at the last layer that has it.
   */
  lemma FindInfoFinds(c: Cache, disks: seq<Layer>, digest: string, offsetHint: nat)
    requires IndexesLayers(c, disks) && KeepsLast(c, disks)
    ensures c.FindInfo(digest, offsetHint).Some? <==> HasDigest(disks, digest)
    ensures forall k: nat :: LastAtOffset(disks, k) && Offset(disks, k) == offsetHint && disks[k].digest == digest ==>
              c.FindInfo(digest, offsetHint) == Some(InfoOf(disks, k))
    ensures forall k: nat :: LastOfDigest(disks, k) && disks[k].digest == digest && !AtHint(disks, digest, offsetHint) ==>
              c.FindInfo(digest, offsetHint) == Some(InfoOf(disks, k))
  {
    hide Offset, SizeOf, LastAtOffset, LastOfDigest, KeepsLast, IndexesLayers, AtHint;
    if c.FindInfo(digest, offsetHint).Some? {
      var k := FoundIsEntry(c, disks, digest, offsetHint);
    }
    if HasDigest(disks, digest) {
      var k: nat :| k < |disks| && disks[k].digest == digest;
      var last := LastExists(disks, digest, k);
      StandingAt(c, disks, last);
    }
    if offsetHint in c.byOffset && c.byOffset[offsetHint].compressedDigest == digest {
      HintStands(c, disks, digest, offsetHint);
    }
    forall k: nat | LastAtOffset(disks, k)
      ensures k < |disks| && (Offset(disks, k) == offsetHint && disks[k].digest == digest ==> c.FindInfo(digest, offsetHint) == Some(InfoOf(disks, k)))
    {
      StandingAt(c, disks, k);
    }
    forall k: nat | LastOfDigest(disks, k)
      ensures k < |disks| && (disks[k].digest == digest && !AtHint(disks, digest, offsetHint) ==> c.FindInfo(digest, offsetHint) == Some(InfoOf(disks, k)))
    {
      StandingAt(c, disks, k);
    }
  }
}
