/** Lume sharded images: ordering the numbered parts, placing them end to end, and the disk they make. */
module ShardedDisk {
  import opened Bytes
  import opened Strings
  import opened Sorting
  import opened SparseWriters

  /** A manifest layer: its part number text if it has one, whether it is labelled as a whole disk, its size. */
  datatype Layer = Layer(number: Option<string>, wholeDisk: bool, size: nat, digest: string)

  datatype DiskPart = DiskPart(layer: Layer, number: int, offset: nat)

  /** A part's number must be a positive integer; a layer that looks like a part but has no such number is an error. */
  predicate BadNumber(l: Layer) {
    l.number.Some? && (Atoi(l.number.value).None? || Atoi(l.number.value).value < 1)
  }

  function NumberOf(p: DiskPart): int { p.number }

  function Unplaced(l: Layer): DiskPart {
    DiskPart(l, match l.number case Some(t) => (match Atoi(t) case Some(n) => n case None => 0) case None => 1, 0)
  }

  function Numbered(layers: seq<Layer>): seq<DiskPart> {
    if layers == [] then []
    else (if layers[0].number.Some? then [Unplaced(layers[0])] else []) + Numbered(layers[1..])
  }

  function WholeDisks(layers: seq<Layer>): seq<DiskPart> {
    if layers == [] then []
    else (if layers[0].number.None? && layers[0].wholeDisk then [Unplaced(layers[0])] else []) + WholeDisks(layers[1..])
  }

  /** The parts to order: the numbered ones, or a single whole-disk layer. */
  function Candidates(layers: seq<Layer>): seq<DiskPart> {
    if Numbered(layers) == [] then WholeDisks(layers) else Numbered(layers)
  }

  /** The numbers of `parts` are 1, 2, 3 and so on. */
  ghost predicate CountsUp(parts: seq<DiskPart>) {
    forall i :: 0 <= i < |parts| ==> parts[i].number == i + 1
  }

  function PartSizes(parts: seq<DiskPart>): (r: seq<nat>)
    ensures |r| == |parts|
  {
    seq(|parts|, i requires 0 <= i < |parts| => parts[i].layer.size)
  }

  /** Each part starts where the one before it ends; together they fill `[0, total)`. */
  ghost predicate Tiles(parts: seq<DiskPart>, total: nat) {
    && (forall i :: 0 <= i < |parts| ==> parts[i].offset == Sum(PartSizes(parts)[..i]))
    && total == Sum(PartSizes(parts))
  }

  function ClearOffset(p: DiskPart): DiskPart { p.(offset := 0) }

  lemma GatheredCons(layers: seq<Layer>)
    requires layers != []
    ensures Numbered(layers) == Numbered([layers[0]]) + Numbered(layers[1..])
    ensures WholeDisks(layers) == WholeDisks([layers[0]]) + WholeDisks(layers[1..])
  {
    hide Unplaced;
  }

  lemma {:induction false} GatheredJoin(a: seq<Layer>, b: seq<Layer>)
    ensures Numbered(a + b) == Numbered(a) + Numbered(b) && WholeDisks(a + b) == WholeDisks(a) + WholeDisks(b)
  {
    if a == [] {
      assert a + b == b;
    } else {
      hide Numbered, WholeDisks;
      assert (a + b)[1..] == a[1..] + b;
      GatheredCons(a + b);
      GatheredCons(a);
      GatheredJoin(a[1..], b);
    }
  }

  lemma GatheredNone()
    ensures Numbered([]) == WholeDisks([]) == []
  {
  }

  lemma GatheredOne(l: Layer)
    ensures Numbered([l]) == if l.number.Some? then [Unplaced(l)] else []
    ensures WholeDisks([l]) == if l.number.None? && l.wholeDisk then [Unplaced(l)] else []
  {
    hide Unplaced;
    assert [l][1..] == [];
    assert Numbered([]) == WholeDisks([]) == [];
  }

  /** The gathering loop: the numbered parts and the whole-disk layers, or None at a malformed number. */
  method Gather(layers: seq<Layer>) returns (r: Option<(seq<DiskPart>, seq<DiskPart>)>)
    ensures r.None? <==> exists l :: l in layers && BadNumber(l)
    ensures r.Some? ==> r.value == (Numbered(layers), WholeDisks(layers))
  {
    hide BadNumber, Unplaced, Numbered, WholeDisks;
    GatheredNone();
    var parts, singles: seq<DiskPart> := [], [];
    for i := 0 to |layers|
      invariant parts == Numbered(layers[..i]) && singles == WholeDisks(layers[..i])
      invariant forall k :: 0 <= k < i ==> !BadNumber(layers[k])
    {
      var layer := layers[i];
      GatheredJoin(layers[..i], [layer]);
      GatheredOne(layer);
      assert layers[..i + 1] == layers[..i] + [layer];
      if BadNumber(layer) {
        return None;
      }
      if layer.number.Some? {
        parts := parts + [Unplaced(layer)];
      } else if layer.wholeDisk {
        singles := singles + [Unplaced(layer)];
      }
    }
    assert layers[..|layers|] == layers;
    return Some((parts, singles));
  }

  /** The placing loop over parts in number order; None as soon as a number is not the next one. */
  method Place(sorted: seq<DiskPart>) returns (r: Option<(seq<DiskPart>, nat)>)
    ensures r.Some? <==> CountsUp(sorted)
    ensures r.Some? ==> Map(ClearOffset, r.value.0) == Map(ClearOffset, sorted) && Tiles(r.value.0, r.value.1)
  {
    var parts, offset := sorted, 0;
    for index := 0 to |sorted|
      invariant |parts| == |sorted|
      invariant forall k :: 0 <= k < |sorted| ==> parts[k].layer == sorted[k].layer && parts[k].number == sorted[k].number
      invariant forall k :: 0 <= k < index ==> sorted[k].number == k + 1 && parts[k].offset == Sum(PartSizes(sorted)[..k])
      invariant offset == Sum(PartSizes(sorted)[..index])
    {
      if parts[index].number != index + 1 {
        return None;
      }
      var sizes := PartSizes(sorted);
      assert sizes[..index + 1] == sizes[..index] + [sizes[index]];
      SumAppend(sizes[..index], [sizes[index]]);
      parts := parts[index := parts[index].(offset := offset)];
      offset := offset + parts[index].layer.size;
    }
    assert PartSizes(parts) == PartSizes(sorted);
    assert PartSizes(sorted)[..|sorted|] == PartSizes(sorted);
    assert Map(ClearOffset, parts) == Map(ClearOffset, sorted);
    return Some((parts, offset));
  }

  /** The manifest describes a disk: no malformed number, and the candidates are numbered 1 to n, each once. */
  ghost predicate Describes(layers: seq<Layer>) {
    && (forall l :: l in layers ==> !BadNumber(l))
    && (Numbered(layers) == [] ==> |WholeDisks(layers)| == 1)
    && exists s :: multiset(s) == multiset(Candidates(layers)) && CountsUp(s)
  }

  /** The manifest's parts in number order, each where the one before it ends. */
  ghost predicate Placed(layers: seq<Layer>, parts: seq<DiskPart>, total: nat) {
    multiset(Map(ClearOffset, parts)) == multiset(Candidates(layers)) && CountsUp(parts) && Tiles(parts, total)
  }

  lemma CountsUpSorted(s: seq<DiskPart>)
    requires CountsUp(s)
    ensures StrictlySorted(s, NumberOf) && Sorted(s, NumberOf)
  {
  }

  /** Sorting by number finds the numbering 1 to n whenever there is one. */
  lemma SortFindsNumbering(parts: seq<DiskPart>, s: seq<DiskPart>)
    requires multiset(s) == multiset(parts) && CountsUp(s)
    ensures SortBy(parts, NumberOf) == s
  {
    CountsUpSorted(s);
    SortedUnique(SortBy(parts, NumberOf), s, NumberOf);
  }

  /** Orders the part layers of a manifest and gives each its place on the disk. */
  method CollectShardedDiskParts(layers: seq<Layer>) returns (r: Option<(seq<DiskPart>, nat)>)
    ensures r.Some? <==> Describes(layers)
    ensures r.Some? ==> Placed(layers, r.value.0, r.value.1)
  {
    hide BadNumber, Sorted, Tiles, CountsUp, Numbered, WholeDisks, ClearOffset, Map;
    var gathered := Gather(layers);
    if gathered.None? {
      return None;
    }
    var (parts, singles) := gathered.value;
    if |parts| == 0 {
      if |singles| != 1 {
        return None;
      }
      parts := [singles[0]];
      assert parts == singles;
    }
    var sorted := SortBy(parts, NumberOf);
    forall s | multiset(s) == multiset(parts) && CountsUp(s) ensures sorted == s {
      SortFindsNumbering(parts, s);
    }
    r := Place(sorted);
    CandidatesClear(layers);
    ClearMap(sorted, Candidates(layers));
    if r.Some? {
      CountsUpMap(r.value.0, sorted);
    }
  }

  lemma {:induction false} NumberedClear(layers: seq<Layer>)
    ensures forall p :: p in Numbered(layers) || p in WholeDisks(layers) ==> ClearOffset(p) == p
  {
    if layers != [] {
      NumberedClear(layers[1..]);
    }
  }

  lemma CandidatesClear(layers: seq<Layer>)
    ensures forall p :: p in Candidates(layers) ==> ClearOffset(p) == p
  {
    NumberedClear(layers);
  }

  lemma ClearMap(sorted: seq<DiskPart>, parts: seq<DiskPart>)
    requires forall p :: p in parts ==> ClearOffset(p) == p
    ensures multiset(sorted) == multiset(parts) ==> Map(ClearOffset, sorted) == sorted
  {
    if multiset(sorted) == multiset(parts) {
      forall i | 0 <= i < |sorted| ensures ClearOffset(sorted[i]) == sorted[i] {
        assert sorted[i] in multiset(sorted);
        assert sorted[i] in parts;
      }
    }
  }

  lemma CountsUpMap(parts: seq<DiskPart>, sorted: seq<DiskPart>)
    requires Map(ClearOffset, parts) == Map(ClearOffset, sorted)
    ensures CountsUp(parts) == CountsUp(sorted)
  {
    assert |parts| == |sorted|;
    forall i | 0 <= i < |parts| ensures parts[i].number == sorted[i].number {
      assert Map(ClearOffset, parts)[i] == Map(ClearOffset, sorted)[i];
    }
  }

  lemma GatheredWithout(layers: seq<Layer>, k: nat)
    requires k < |layers|
    ensures multiset(Numbered(layers)) == multiset(Numbered(Without(layers, k))) + multiset(Numbered([layers[k]]))
    ensures multiset(WholeDisks(layers)) == multiset(WholeDisks(Without(layers, k))) + multiset(WholeDisks([layers[k]]))
  {
    hide Numbered, WholeDisks;
    var a, l, b := layers[..k], [layers[k]], layers[k + 1..];
    assert layers == a + (l + b);
    GatheredJoin(l, b);
    GatheredJoin(a, l + b);
    GatheredJoin(a, b);
  }

  lemma {:induction false} ReorderedParts(a: seq<Layer>, b: seq<Layer>)
    requires multiset(a) == multiset(b)
    ensures multiset(Numbered(a)) == multiset(Numbered(b)) && multiset(WholeDisks(a)) == multiset(WholeDisks(b))
    decreases |a|
  {
    hide Numbered, WholeDisks, Without;
    if a == [] {
      assert |b| == |multiset(b)|;
      assert a == b;
    } else {
      assert a[0] in multiset(b);
      var k :| 0 <= k < |b| && b[k] == a[0];
      WithoutContents(a, 0);
      WithoutContents(b, k);
      GatheredWithout(a, 0);
      GatheredWithout(b, k);
      assert |Without(a, 0)| < |a| by { WithoutShorter(a, 0); }
      ReorderedParts(Without(a, 0), Without(b, k));
    }
  }

  lemma WithoutShorter<T>(t: seq<T>, k: nat)
    requires k < |t|
    ensures |Without(t, k)| == |t| - 1
  {
  }

  lemma SizeOfContents<T>(s: seq<T>)
    ensures |multiset(s)| == |s|
  {
  }

  lemma ReorderedCandidates(a: seq<Layer>, b: seq<Layer>)
    requires multiset(a) == multiset(b)
    ensures multiset(Candidates(a)) == multiset(Candidates(b))
    ensures |Numbered(a)| == |Numbered(b)| && |WholeDisks(a)| == |WholeDisks(b)|
  {
    hide Numbered, WholeDisks;
    ReorderedParts(a, b);
    SizeOfContents(Numbered(a));
    SizeOfContents(Numbered(b));
    SizeOfContents(WholeDisks(a));
    SizeOfContents(WholeDisks(b));
  }

  lemma ReorderedDescribes(a: seq<Layer>, b: seq<Layer>)
    requires multiset(a) == multiset(b) && Describes(a)
    ensures Describes(b)
  {
    hide BadNumber, Numbered, WholeDisks, Candidates, CountsUp;
    ReorderedCandidates(a, b);
    forall l | l in b ensures !BadNumber(l) {
      assert l in multiset(a);
    }
  }

  /** However a manifest's layers are ordered, it describes a disk or not, and its parts, their numbers and places are the same. */
  lemma ManifestOrderIsIrrelevant(a: seq<Layer>, b: seq<Layer>)
    requires multiset(a) == multiset(b)
    ensures Describes(a) <==> Describes(b)
    ensures forall p, q, total, total' :: Placed(a, p, total) && Placed(b, q, total') ==> p == q && total == total'
  {
    hide Describes, Tiles, Candidates, CountsUp;
    if Describes(a) {
      ReorderedDescribes(a, b);
    } else if Describes(b) {
      ReorderedDescribes(b, a);
    }
    ReorderedCandidates(a, b);
    forall p, q, total, total' | Placed(a, p, total) && Placed(b, q, total') ensures p == q && total == total' {
      SamePartsSamePlaces(p, total, q, total');
    }
  }

  lemma SamePartsSamePlaces(a: seq<DiskPart>, total: nat, b: seq<DiskPart>, total': nat)
    requires CountsUp(a) && Tiles(a, total) && CountsUp(b) && Tiles(b, total')
    requires multiset(Map(ClearOffset, a)) == multiset(Map(ClearOffset, b))
    ensures a == b && total == total'
  {
    hide Tiles;
    var ca, cb := Map(ClearOffset, a), Map(ClearOffset, b);
    CountsUpSorted(ca);
    CountsUpSorted(cb);
    SortedUnique(ca, cb, NumberOf);
    SamePlaces(a, total, b, total');
  }

  // ----- which manifests describe a disk

  /** These layers carry the printed numbers 1, 2, 3 and so on. */
  ghost predicate PrintedInOrder(layers: seq<Layer>) {
    |layers| < 0x8000_0000_0000_0000 && forall i :: 0 <= i < |layers| ==> layers[i].number == Some(Decimal(i + 1))
  }

  ghost predicate Unnumbered(layers: seq<Layer>) {
    forall i :: 0 <= i < |layers| ==> layers[i].number.None?
  }

  lemma {:induction false} GatheredUnnumbered(layers: seq<Layer>)
    requires Unnumbered(layers)
    ensures Numbered(layers) == []
  {
    if layers != [] {
      GatheredUnnumbered(layers[1..]);
    }
  }

  lemma {:induction false} GatheredNumbered(layers: seq<Layer>)
    requires forall i :: 0 <= i < |layers| ==> layers[i].number.Some?
    ensures Numbered(layers) == Map(Unplaced, layers) && WholeDisks(layers) == []
  {
    hide Unplaced;
    if layers != [] {
      GatheredNumbered(layers[1..]);
      assert layers == [layers[0]] + layers[1..];
      assert Map(Unplaced, layers) == [Unplaced(layers[0])] + Map(Unplaced, layers[1..]);
    }
  }

  lemma PrintedUnplaced(layers: seq<Layer>, i: nat)
    requires PrintedInOrder(layers) && i < |layers|
    ensures !BadNumber(layers[i]) && Unplaced(layers[i]) == DiskPart(layers[i], i + 1, 0)
  {
    DecimalReads(i + 1);
  }

  lemma {:induction false} PrintedCandidates(parts: seq<Layer>, others: seq<Layer>)
    requires parts != [] && PrintedInOrder(parts) && Unnumbered(others)
    ensures Candidates(parts + others) == Map(Unplaced, parts) && CountsUp(Map(Unplaced, parts))
    ensures Numbered(parts + others) != [] && forall l :: l in parts + others ==> !BadNumber(l)
  {
    GatheredNumbered(parts);
    GatheredUnnumbered(others);
    GatheredJoin(parts, others);
    hide Numbered, WholeDisks, Unplaced, BadNumber;
    forall i | 0 <= i < |parts| ensures Map(Unplaced, parts)[i].number == i + 1 && !BadNumber(parts[i]) {
      PrintedUnplaced(parts, i);
    }
    forall i | 0 <= i < |others| ensures !BadNumber(others[i]) {
      UnnumberedIsFine(others[i]);
    }
  }

  lemma UnnumberedIsFine(l: Layer)
    requires l.number.None?
    ensures !BadNumber(l)
  {
  }

  /** These are the layers, numbered from 1. */
  ghost predicate Numbers(p: seq<DiskPart>, layers: seq<Layer>) {
    |p| == |layers| && forall i :: 0 <= i < |p| ==> p[i].layer == layers[i] && p[i].number == i + 1
  }

  /** Parts with the printed numbers 1 to n, among other layers and in any order, describe the disk of these parts in that order. */
  lemma NumberedManifest(layers: seq<Layer>, parts: seq<Layer>, others: seq<Layer>)
    requires parts != [] && PrintedInOrder(parts) && Unnumbered(others) && multiset(layers) == multiset(parts + others)
    ensures Describes(layers)
    ensures forall p, total :: Placed(layers, p, total) ==> Numbers(p, parts)
  {
    hide Numbered, Candidates, CountsUp, BadNumber, Tiles, PrintedInOrder, Unnumbered;
    PrintedCandidates(parts, others);
    var s := Map(Unplaced, parts);
    assert Describes(parts + others);
    ReorderedDescribes(parts + others, layers);
    ReorderedCandidates(parts + others, layers);
    forall p: seq<DiskPart>, total | Placed(layers, p, total)
      ensures Numbers(p, parts)
    {
      CountsUpMap(p, Map(ClearOffset, p));
      SortedBoth(Map(ClearOffset, p), s);
      forall i | 0 <= i < |p| ensures p[i].layer == parts[i] && p[i].number == i + 1 {
        PrintedUnplaced(parts, i);
        assert Map(ClearOffset, p)[i] == s[i];
      }
    }
  }

  lemma SortedBoth(a: seq<DiskPart>, b: seq<DiskPart>)
    requires CountsUp(a) && CountsUp(b) && multiset(a) == multiset(b)
    ensures a == b
  {
    CountsUpSorted(a);
    CountsUpSorted(b);
    SortedUnique(a, b, NumberOf);
  }

  /** Without numbered parts, exactly a single layer labelled as a whole disk describes one. */
  lemma WholeDiskManifest(layers: seq<Layer>)
    requires Unnumbered(layers)
    ensures Describes(layers) <==> exists k: nat :: OnlyWholeDisk(layers, k)
  {
    GatheredUnnumbered(layers);
    forall l | l in layers ensures !BadNumber(l) {
      UnnumberedIsFine(l);
    }
    OneWholeDisk(layers);
    hide BadNumber;
    if |WholeDisks(layers)| == 1 {
      var s := WholeDisks(layers);
      WholeDisksNumberedOne(layers);
      assert CountsUp(s) && multiset(s) == multiset(Candidates(layers));
    }
  }

  ghost predicate OnlyWholeDisk(layers: seq<Layer>, k: nat) {
    k < |layers| && layers[k].wholeDisk && forall j :: 0 <= j < |layers| && j != k ==> !layers[j].wholeDisk
  }

  lemma {:induction false} WholeDisksNumberedOne(layers: seq<Layer>)
    ensures forall p :: p in WholeDisks(layers) ==> p.number == 1
  {
    if layers != [] {
      WholeDisksNumberedOne(layers[1..]);
    }
  }

  ghost predicate NoWholeDisk(layers: seq<Layer>) {
    forall j :: 0 <= j < |layers| ==> !layers[j].wholeDisk
  }

  lemma {:induction false} OneWholeDisk(layers: seq<Layer>)
    requires Unnumbered(layers)
    ensures WholeDisks(layers) == [] <==> NoWholeDisk(layers)
    ensures |WholeDisks(layers)| == 1 <==> exists k: nat :: OnlyWholeDisk(layers, k)
  {
    hide Unplaced;
    if layers != [] {
      var rest := layers[1..];
      OneWholeDisk(rest);
      WholeDiskFirst(layers);
    }
  }

  lemma WholeDiskFirst(layers: seq<Layer>)
    requires layers != []
    ensures NoWholeDisk(layers) <==> !layers[0].wholeDisk && NoWholeDisk(layers[1..])
    ensures (exists k: nat :: OnlyWholeDisk(layers, k)) <==>
            if layers[0].wholeDisk then NoWholeDisk(layers[1..]) else exists k: nat :: OnlyWholeDisk(layers[1..], k)
  {
    var rest := layers[1..];
    assert forall j :: 0 <= j < |rest| ==> rest[j] == layers[j + 1];
    if k: nat :| OnlyWholeDisk(layers, k) {
      if k > 0 {
        assert rest[k - 1] == layers[k];
        assert OnlyWholeDisk(rest, k - 1);
      }
    }
    if layers[0].wholeDisk && NoWholeDisk(rest) {
      assert forall j :: 0 < j < |layers| ==> layers[j] == rest[j - 1];
      assert OnlyWholeDisk(layers, 0);
    }
    if !layers[0].wholeDisk {
      if k: nat :| OnlyWholeDisk(rest, k) {
        assert forall j :: 0 < j < |layers| ==> layers[j] == rest[j - 1];
        assert OnlyWholeDisk(layers, k + 1);
      }
    }
  }

  /** The number zero, a negative one, and a text that is not digits are malformed, and a malformed number anywhere refuses the manifest. */
  lemma MalformedNumbers(layers: seq<Layer>, l: Layer, text: string, n: nat)
    requires l in layers && l.number == Some(text) && n < 0x8000_0000_0000_0000
    requires text == "0" || text == "-" + Decimal(n) || (text != "" ==> !IsDecimal(text) && !IsDecimal(text[1..]))
    ensures !Describes(layers)
  {
    if text == "0" {
      assert Decimal(0) == "0";
      DecimalReads(0);
    } else if text == "-" + Decimal(n) {
      DecimalReads(n);
    } else {
      ReadIsDecimal(text);
    }
    assert BadNumber(l);
  }

  lemma SamePlaces(a: seq<DiskPart>, total: nat, b: seq<DiskPart>, total': nat)
    requires Tiles(a, total) && Tiles(b, total') && Map(ClearOffset, a) == Map(ClearOffset, b)
    ensures a == b && total == total'
  {
    forall i | 0 <= i < |a| ensures a[i].layer == b[i].layer && a[i].number == b[i].number {
      assert Map(ClearOffset, a)[i] == Map(ClearOffset, b)[i];
    }
    assert PartSizes(a) == PartSizes(b);
    forall i | 0 <= i < |a| ensures a[i] == b[i] {
      assert PartSizes(a)[..i] == PartSizes(b)[..i];
    }
  }

  // ----- the disk the parts make

  /** Each part's stream, at its place. */
  function Streams(parts: seq<DiskPart>, blob: string -> ByteString): (r: seq<Part>)
    ensures |r| == |parts|
  {
    seq(|parts|, i requires 0 <= i < |parts| => Part(parts[i].offset, blob(parts[i].layer.digest)))
  }

  function Contents(parts: seq<DiskPart>, blob: string -> ByteString): (r: seq<ByteString>)
    ensures |r| == |parts|
  {
    seq(|parts|, i requires 0 <= i < |parts| => blob(parts[i].layer.digest))
  }

  /** The blobs are as long as the manifest says. */
  ghost predicate SizesMatch(parts: seq<DiskPart>, blob: string -> ByteString) {
    forall i :: 0 <= i < |parts| ==> |blob(parts[i].layer.digest)| == parts[i].layer.size
  }

  lemma StreamsFit(parts: seq<DiskPart>, total: nat, blob: string -> ByteString, size: nat)
    requires Tiles(parts, total) && SizesMatch(parts, blob) && total <= size
    ensures Fitting(Streams(parts, blob), size)
  {
    var sizes, streams := PartSizes(parts), Streams(parts, blob);
    forall i | 0 <= i < |streams|
      ensures streams[i].offset + |streams[i].data| <= size
    {
      PrefixSumsOrdered(sizes, i, |sizes|);
      assert sizes[..|sizes|] == sizes;
    }
    forall i, j | 0 <= i < j < |streams|
      ensures streams[i].offset + |streams[i].data| <= streams[j].offset
    {
      PrefixSumsOrdered(sizes, i, j);
    }
  }

  lemma PartAt(parts: seq<DiskPart>, total: nat, blob: string -> ByteString, i: nat)
    requires Tiles(parts, total) && SizesMatch(parts, blob) && i < |parts|
    ensures var c := Concat(Contents(parts, blob));
            && |c| == total && parts[i].offset + parts[i].layer.size <= total
            && c[parts[i].offset..parts[i].offset + parts[i].layer.size] == blob(parts[i].layer.digest)
  {
    assert Lengths(Contents(parts, blob)) == PartSizes(parts);
    ConcatSlice(Contents(parts, blob), i);
    ConcatLength(Contents(parts, blob));
  }

  lemma {:induction false} Covered(sizes: seq<nat>, n: nat, k: nat) returns (i: nat)
    requires n <= |sizes| && k < Sum(sizes[..n])
    ensures i < n && Sum(sizes[..i]) <= k < Sum(sizes[..i]) + sizes[i]
  {
    assert sizes[..n] == sizes[..n - 1] + [sizes[n - 1]];
    SumAppend(sizes[..n - 1], [sizes[n - 1]]);
    if k >= Sum(sizes[..n - 1]) {
      i := n - 1;
    } else {
      i := Covered(sizes, n - 1, k);
    }
  }

  /** A disk that holds every part at its place is the parts in number order, then zeros. */
  lemma AssembledIsConcatenation(parts: seq<DiskPart>, total: nat, blob: string -> ByteString, size: nat, f: ByteString)
    requires Tiles(parts, total) && SizesMatch(parts, blob) && total <= size
    requires Assembled(Streams(parts, blob), size, f)
    ensures f == Concat(Contents(parts, blob)) + Zeros(size - total)
  {
    hide Tiles, SizesMatch;
    var c := Concat(Contents(parts, blob));
    TotalLength(parts, total, blob);
    forall k | 0 <= k < size
      ensures f[k] == (c + Zeros(size - total))[k]
    {
      if k < total {
        CoveredByte(parts, total, blob, size, f, k);
      } else {
        UncoveredByte(parts, total, blob, size, f, k);
      }
    }
  }

  lemma TotalLength(parts: seq<DiskPart>, total: nat, blob: string -> ByteString)
    requires Tiles(parts, total) && SizesMatch(parts, blob)
    ensures |Concat(Contents(parts, blob))| == total
  {
    assert Lengths(Contents(parts, blob)) == PartSizes(parts);
    ConcatLength(Contents(parts, blob));
  }

  lemma CoveredByte(parts: seq<DiskPart>, total: nat, blob: string -> ByteString, size: nat, f: ByteString, k: nat)
    requires Tiles(parts, total) && SizesMatch(parts, blob) && k < total <= size
    requires Assembled(Streams(parts, blob), size, f)
    ensures |Concat(Contents(parts, blob))| == total && f[k] == Concat(Contents(parts, blob))[k]
  {
    var sizes := PartSizes(parts);
    assert sizes[..|sizes|] == sizes;
    var i := Covered(sizes, |sizes|, k);
    assert parts[i].offset == Sum(sizes[..i]);
    hide Tiles, SizesMatch, Concat, PartSizes, Sum;
    PartAt(parts, total, blob, i);
    var at := parts[i].offset;
    assert Streams(parts, blob)[i] == Part(at, blob(parts[i].layer.digest));
    assert Concat(Contents(parts, blob))[at..at + parts[i].layer.size][k - at] == Concat(Contents(parts, blob))[k];
  }

  lemma UncoveredByte(parts: seq<DiskPart>, total: nat, blob: string -> ByteString, size: nat, f: ByteString, k: nat)
    requires Tiles(parts, total) && SizesMatch(parts, blob) && total <= k < size
    requires Assembled(Streams(parts, blob), size, f)
    ensures f[k] == 0
  {
    forall i | 0 <= i < |parts| ensures !InPart(Streams(parts, blob)[i], k) {
      PartAt(parts, total, blob, i);
    }
  }

  /** pullShardedDisk: the file is the configured size when that is large enough, otherwise as long as the parts. */
  function DiskSize(configured: nat, total: nat): (size: nat)
    ensures size >= configured && size >= total && (size == configured || size == total)
  {
    if configured < total then total else configured
  }

  /** For every interleaving of the part writers, the pulled disk is the parts in number order followed by zeros. */
  lemma ShardedPull(parts: seq<DiskPart>, total: nat, blob: string -> ByteString, configured: nat, moves: seq<Move>)
    requires Tiles(parts, total) && SizesMatch(parts, blob)
    requires var d := MoveAll(Streams(parts, blob), Begin(Streams(parts, blob), DiskSize(configured, total)), moves);
             forall i :: 0 <= i < |parts| ==> d.progress[i].closed
    ensures MoveAll(Streams(parts, blob), Begin(Streams(parts, blob), DiskSize(configured, total)), moves).file
         == Concat(Contents(parts, blob)) + Zeros(DiskSize(configured, total) - total)
  {
    hide Tiles, SizesMatch, MoveAll, Begin, Fitting, Assembled;
    var size := DiskSize(configured, total);
    StreamsFit(parts, total, blob, size);
    EveryInterleavingAssembles(Streams(parts, blob), size, moves);
    AssembledIsConcatenation(parts, total, blob, size, MoveAll(Streams(parts, blob), Begin(Streams(parts, blob), size), moves).file);
  }
}
