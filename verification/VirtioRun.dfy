/** Whole runs of a driver and the virtio-blk device: what is offered is recorded once and in order, across any number of index wraps. */
module VirtioRuns {
  import opened Bytes
  import opened Endian
  import opened GuestMemory
  import opened VirtioQueue
  import opened VirtioProtocol
  import Modular

  /** Memory, the device's index, and (for the statements only) what was offered and what was served. */
  datatype Link = Link(m: Memory, last: nat, offered: seq<nat>, served: seq<nat>)

  datatype Event =
    | Offer(head: nat)                   // the driver fills the next available slot, then moves the index
    | Notify                             // the driver writes QueueNotify
    | Scribble(addr: nat, data: ByteString) // the driver writes anything else: descriptors, buffers

  // ----- the device

  function HeadAt(m: Memory, q: Queue, last: nat): nat
    requires q.num > 0
  {
    ReadInt(m, AvailSlot(q, last), 2)
  }

  /** The heads the device reads while it serves `n` chains. */
  function HeadsRead(m: Memory, disk: ByteString, q: Queue, last: nat, n: nat): (r: seq<nat>)
    requires q.num > 0
    ensures |r| == n
    decreases n
  {
    if n == 0 then []
    else [HeadAt(m, q, last)] + HeadsRead(ServeOne(m, disk, q, last), disk, q, (last + 1) % IDX, n - 1)
  }

  /** None of `n` chains has a buffer that overlaps a ring. */
  ghost predicate SparesRings(m: Memory, disk: ByteString, q: Queue, last: nat, n: nat)
    requires q.num > 0
    decreases n
  {
    n > 0 ==>
      && Spares(q, Service(m, disk, q, HeadAt(m, q, last)).0)
      && SparesRings(ServeOne(m, disk, q, last), disk, q, (last + 1) % IDX, n - 1)
  }

  function Pending(q: Queue, l: Link): nat
    requires l.last < IDX
  {
    Ahead(l.last, ReadInt(l.m, q.avail + 2, 2) % IDX)
  }

  // ----- runs

  /** The driver's side of an offer (VIRTIO 1.0, section 2.4.6): the head at its place in the ring, then the index. */
  function OfferWrites(m: Memory, q: Queue, k: nat, h: nat): Memory
    requires q.num > 0
  {
    Write(Write(m, q.avail + 4 + 2 * (k % q.num), LeBytes(h, 2)), q.avail + 2, LeBytes((k + 1) % IDX, 2))
  }

  /** Where the device looks for what the driver puts at its place in the ring, and the other way round. */
  lemma SlotsAgree(q: Queue, k: nat)
    requires q.num > 0
    ensures AvailSlot(q, k) == q.avail + 4 + 2 * (k % q.num) && UsedSlot(q, k) == q.used + 4 + 8 * (k % q.num)
  {
  }

  function StepLink(disk: ByteString, q: Queue, l: Link, e: Event): Link
    requires q.num > 0 && l.last < IDX
  {
    match e
    case Offer(h) =>
      var k := |l.offered|;
      Link(OfferWrites(l.m, q, k, h), l.last, l.offered + [h], l.served)
    case Notify =>
      var n := Pending(q, l);
      Link(ServeMany(l.m, disk, q, l.last, n), (l.last + n) % IDX, l.offered, l.served + HeadsRead(l.m, disk, q, l.last, n))
    case Scribble(a, d) => Link(Write(l.m, a, d), l.last, l.offered, l.served)
  }

  /** What the driver owes: never more chains outstanding than slots, and rings that nothing else overlaps. */
  ghost predicate Legal(disk: ByteString, q: Queue, l: Link, e: Event)
    requires q.num > 0 && l.last < IDX
  {
    match e
    case Offer(h) => h < IDX && |l.offered| < |l.served| + q.num
    case Notify => SparesRings(l.m, disk, q, l.last, Pending(q, l))
    case Scribble(a, d) => Apart(a, |d|, q.avail, AvailBytes(q)) && Apart(a, |d|, q.used, UsedBytes(q))
  }

  ghost predicate InStep(q: Queue, l: Link) {
    && Live(l.m, q) && Recorded(l.m, q, l.served) && Offered(l.m, q, l.offered, |l.served|)
    && l.served == l.offered[..|l.served|]
    && l.last == |l.served| % IDX
  }

  function RunLink(disk: ByteString, q: Queue, l: Link, es: seq<Event>): (r: Link)
    requires q.num > 0 && l.last < IDX
    ensures r.last < IDX
    decreases |es|
  {
    if es == [] then l else RunLink(disk, q, StepLink(disk, q, l, es[0]), es[1..])
  }

  ghost predicate LegalRun(disk: ByteString, q: Queue, l: Link, es: seq<Event>)
    requires q.num > 0 && l.last < IDX
    decreases |es|
  {
    es != [] ==> Legal(disk, q, l, es[0]) && LegalRun(disk, q, StepLink(disk, q, l, es[0]), es[1..])
  }

  // ----- serving

  ghost predicate Standing(m: Memory, q: Queue, offered: seq<nat>, done: nat) {
    && Live(m, q) && done <= |offered|
    && Recorded(m, q, offered[..done]) && Offered(m, q, offered, done)
  }

  /** Serving one chain records its head, and disturbs nothing that is still on offer. */
  lemma ServeOneStands(m: Memory, disk: ByteString, q: Queue, offered: seq<nat>, done: nat)
    requires Standing(m, q, offered, done) && done < |offered|
    requires Spares(q, Service(m, disk, q, HeadAt(m, q, done % IDX)).0)
    ensures HeadAt(m, q, done % IDX) == offered[done]
    ensures Standing(ServeOne(m, disk, q, done % IDX), q, offered, done + 1)
  {
    hide Service, ApplyStores, PublishUsed, Recorded, Live, Spares, SameRange, ReadInt, AvailSlot;
    LiveNum(m, q);
    SameUsedSlot(q, done);
    var head := HeadAt(m, q, done % IDX);
    var stores := Service(m, disk, q, head).0;
    var m1 := ApplyStores(m, stores);
    StoresSpare(m, q, stores);
    LiveSame(m, m1, q, q.used, UsedBytes(q));
    RecordedSame(m, m1, q, offered[..done]);
    OfferedSame(m, m1, q, offered, done);
    PublishStands(m1, q, offered, done, Service(m, disk, q, head).1);
  }

  lemma RingsApart(m: Memory, q: Queue)
    requires Live(m, q)
    ensures Apart(q.used, UsedBytes(q), q.avail, AvailBytes(q))
  {
  }

  lemma PublishStands(m: Memory, q: Queue, offered: seq<nat>, done: nat, len: nat)
    requires Standing(m, q, offered, done) && done < |offered|
    ensures Standing(PublishUsed(m, q, offered[done], len), q, offered, done + 1)
  {
    hide PublishUsed, Recorded, Live, SameRange, ReadInt, AvailSlot;
    LiveNum(m, q);
    var m' := PublishUsed(m, q, offered[done], len);
    RingsApart(m, q);
    PublishLayout(m, q, offered[done], len, q.avail, AvailBytes(q));
    LiveSame(m, m', q, q.avail, AvailBytes(q));
    PublishRecords(m, q, offered[..done], offered[done], len);
    assert offered[..done] + [offered[done]] == offered[..done + 1];
    OfferedSame(m, m', q, offered, done);
  }

  lemma StandingNum(m: Memory, q: Queue, offered: seq<nat>, done: nat)
    requires Standing(m, q, offered, done)
    ensures q.num > 0
  {
  }

  lemma {:induction false} ServeManyStands(m: Memory, disk: ByteString, q: Queue, offered: seq<nat>, done: nat, n: nat)
    requires Standing(m, q, offered, done) && done + n <= |offered|
    requires SparesRings(m, disk, q, done % IDX, n)
    ensures Standing(ServeMany(m, disk, q, done % IDX, n), q, offered, done + n)
    ensures HeadsRead(m, disk, q, done % IDX, n) == offered[done..done + n]
    decreases n
  {
    hide Standing, ServeOne, HeadAt, Spares, Service;
    if n > 0 {
      StandingNum(m, q, offered, done);
      ServeOneStands(m, disk, q, offered, done);
      WrapNext(done);
      ServeManyStands(ServeOne(m, disk, q, done % IDX), disk, q, offered, done + 1, n - 1);
      assert offered[done..done + n] == [offered[done]] + offered[done + 1..done + n];
    }
  }

  // ----- every step

  /** The 16-bit difference of two counts less than 2^16 apart is the difference of the counts. */
  lemma AheadCounts(a: nat, b: nat)
    requires a <= b < a + IDX
    ensures Ahead(a % IDX, b % IDX) == b - a
    ensures (a % IDX + (b - a)) % IDX == b % IDX
  {
  }

  /** A notification serves exactly the chains that are offered and not yet served. */
  lemma NotifyServesAll(disk: ByteString, q: Queue, l: Link)
    requires InStep(q, l) && Legal(disk, q, l, Notify)
    ensures Pending(q, l) == |l.offered| - |l.served|
    ensures var l' := StepLink(disk, q, l, Notify); InStep(q, l') && l'.served == l'.offered == l.offered
  {
    hide Live, Recorded, ReadInt, ServeMany, HeadsRead, SparesRings;
    LiveNum(l.m, q);
    var done, n := |l.served|, |l.offered| - |l.served|;
    AheadCounts(done, |l.offered|);
    ServeManyStands(l.m, disk, q, l.offered, done, n);
    assert l.offered[..done] + l.offered[done..done + n] == l.offered == l.offered[..|l.offered|];
  }

  lemma OfferKeeps(disk: ByteString, q: Queue, l: Link, h: nat)
    requires InStep(q, l) && Legal(disk, q, l, Offer(h))
    ensures InStep(q, StepLink(disk, q, l, Offer(h)))
  {
    hide Live, Recorded, SameRange, ReadInt, Write, AvailSlot, LeBytes;
    LiveNum(l.m, q);
    var k := |l.offered|;
    var m2 := OfferWrites(l.m, q, k, h);
    OfferLayout(l.m, q, k, h);
    LiveSame(l.m, m2, q, q.used, UsedBytes(q));
    RecordedSame(l.m, m2, q, l.served);
    OfferExtends(l.m, q, l.offered, |l.served|, h);
    assert (l.offered + [h])[..|l.served|] == l.offered[..|l.served|];
  }

  lemma OfferLayout(m: Memory, q: Queue, k: nat, h: nat)
    requires Live(m, q)
    ensures SameRange(m, OfferWrites(m, q, k, h), q.used, UsedBytes(q))
  {
    hide SameRange, Write, LeBytes, Disjoint, AvailSlot;
    var m1 := Write(m, AvailSlot(q, k), LeBytes(h, 2));
    SlotsAgree(q, k);
    AvailSlotInside(q, k);
    StoreSameRange(m, AvailSlot(q, k), LeBytes(h, 2), q.used, UsedBytes(q));
    StillDisjoint(m, m1, q.used, UsedBytes(q));
    StoreSameRange(m1, q.avail + 2, LeBytes((k + 1) % IDX, 2), q.used, UsedBytes(q));
    SameRangeTrans(m, m1, OfferWrites(m, q, k, h), q.used, UsedBytes(q));
  }

  lemma AvailSlotsApart(q: Queue, j: nat, k: nat)
    requires q.num > 0 && j % q.num != k % q.num
    ensures Apart(AvailSlot(q, j), 2, AvailSlot(q, k), 2)
  {
  }

  /** The new slot and index read back; any other slot is as before. */
  lemma OfferReads(m: Memory, q: Queue, k: nat, h: nat)
    requires Live(m, q) && h < IDX
    ensures var m' := OfferWrites(m, q, k, h);
            ReadInt(m', AvailSlot(q, k), 2) == h && ReadInt(m', q.avail + 2, 2) == (k + 1) % IDX
  {
    hide Write, Mapped, Disjoint, LeBytes, ReadInt, AvailSlot, Pow256;
    SlotsAgree(q, k);
    AvailSlotInside(q, k);
    Pow256Values();
    MappedPart(m, q.avail, AvailBytes(q), AvailSlot(q, k), 2);
    MappedPart(m, q.avail, AvailBytes(q), q.avail + 2, 2);
    var m1 := Write(m, AvailSlot(q, k), LeBytes(h, 2));
    WriteLayout(m, AvailSlot(q, k), LeBytes(h, 2));
    WriteInt(m, AvailSlot(q, k), h, 2);
    ReadApart(m1, q.avail + 2, LeBytes((k + 1) % IDX, 2), AvailSlot(q, k), 2);
    WriteInt(m1, q.avail + 2, (k + 1) % IDX, 2);
  }

  lemma OfferSpares(m: Memory, q: Queue, k: nat, h: nat, j: nat)
    requires Live(m, q) && j % q.num != k % q.num
    ensures ReadInt(OfferWrites(m, q, k, h), AvailSlot(q, j), 2) == ReadInt(m, AvailSlot(q, j), 2)
  {
    hide Write, Mapped, Disjoint, LeBytes, ReadInt, AvailSlot;
    SlotsAgree(q, k);
    AvailSlotInside(q, j);
    AvailSlotsApart(q, k, j);
    var m1 := Write(m, AvailSlot(q, k), LeBytes(h, 2));
    WriteLayout(m, AvailSlot(q, k), LeBytes(h, 2));
    ReadApart(m, AvailSlot(q, k), LeBytes(h, 2), AvailSlot(q, j), 2);
    ReadApart(m1, q.avail + 2, LeBytes((k + 1) % IDX, 2), AvailSlot(q, j), 2);
  }

  lemma OfferExtends(m: Memory, q: Queue, offered: seq<nat>, done: nat, h: nat)
    requires Live(m, q) && Offered(m, q, offered, done) && h < IDX && |offered| < done + q.num
    ensures Offered(OfferWrites(m, q, |offered|, h), q, offered + [h], done)
  {
    hide OfferWrites, ReadInt, AvailSlot, Live;
    LiveNum(m, q);
    var k := |offered|;
    var m' := OfferWrites(m, q, k, h);
    OfferReads(m, q, k, h);
    forall j | done <= j < k + 1
      ensures ReadInt(m', AvailSlot(q, j), 2) == (offered + [h])[j] && (offered + [h])[j] < IDX
    {
      if j < k {
        Modular.Distinct(j, k, q.num);
        OfferSpares(m, q, k, h, j);
      }
    }
  }

  lemma ScribbleKeeps(disk: ByteString, q: Queue, l: Link, a: nat, d: ByteString)
    requires InStep(q, l) && Legal(disk, q, l, Scribble(a, d))
    ensures InStep(q, StepLink(disk, q, l, Scribble(a, d)))
  {
    hide Live, Recorded, Offered, SameRange, Write, Apart;
    LiveNum(l.m, q);
    var m' := Write(l.m, a, d);
    StoreSameRange(l.m, a, d, q.avail, AvailBytes(q));
    StoreSameRange(l.m, a, d, q.used, UsedBytes(q));
    LiveSame(l.m, m', q, q.used, UsedBytes(q));
    RecordedSame(l.m, m', q, l.served);
    OfferedSame(l.m, m', q, l.offered, |l.served|);
  }

  lemma StepKeepsInStep(disk: ByteString, q: Queue, l: Link, e: Event)
    requires InStep(q, l) && Legal(disk, q, l, e)
    ensures InStep(q, StepLink(disk, q, l, e))
  {
    hide InStep, Legal, StepLink;
    match e
    case Offer(h) => OfferKeeps(disk, q, l, h);
    case Notify => NotifyServesAll(disk, q, l);
    case Scribble(a, d) => ScribbleKeeps(disk, q, l, a, d);
  }

  /**
   * Over any legal run the used ring records each offered chain once and in the order of the offers, and
   * the used index in memory is the device's own index.
   */
  lemma {:induction false} RunKeepsInStep(disk: ByteString, q: Queue, l: Link, es: seq<Event>)
    requires InStep(q, l) && LegalRun(disk, q, l, es)
    ensures var r := RunLink(disk, q, l, es);
            && InStep(q, r)
            && ReadInt(r.m, q.used + 2, 2) == r.last
            && l.served <= r.served
    decreases |es|
  {
    hide StepLink, Legal, Live;
    LiveNum(l.m, q);
    if es != [] {
      StepKeepsInStep(disk, q, l, es[0]);
      ServedGrows(disk, q, l, es[0]);
      RunKeepsInStep(disk, q, StepLink(disk, q, l, es[0]), es[1..]);
    }
  }

  lemma ServedGrows(disk: ByteString, q: Queue, l: Link, e: Event)
    requires q.num > 0 && l.last < IDX
    ensures l.served <= StepLink(disk, q, l, e).served
  {
  }

  /** The device's index after a reset and a driver that zeroed both ring indices: nothing offered, nothing served. */
  lemma ResetInStep(m: Memory, q: Queue)
    requires Live(m, q) && ReadInt(m, q.avail + 2, 2) == 0 && ReadInt(m, q.used + 2, 2) == 0
    ensures InStep(q, Link(m, 0, [], []))
  {
    hide Live, ReadInt;
    LiveNum(m, q);
  }

  lemma ServedWithin(q: Queue, l: Link)
    requires InStep(q, l)
    ensures |l.served| <= |l.offered|
  {
    hide Live, ReadInt, UsedSlot, AvailSlot;
  }

  /**
   * The driver's side of the used ring (VIRTIO 1.0, section 2.4.8.2): with its own 16-bit count of entries
   * seen, the index tells it exactly how many are new, and each of those slots holds the next served chain.
   */
  lemma DriverReadsNext(q: Queue, l: Link, seen: nat)
    requires InStep(q, l) && seen < |l.served| <= seen + q.num
    ensures Ahead(seen % IDX, ReadInt(l.m, q.used + 2, 2)) == |l.served| - seen
    ensures ReadInt(l.m, q.used + 4 + 8 * (seen % IDX % q.num), 4) == l.offered[seen]
  {
    hide Live, ReadInt, Offered, UsedSlot;
    LiveNum(l.m, q);
    AheadCounts(seen, |l.served|);
    SameUsedSlot(q, seen);
    SlotsAgree(q, seen % IDX);
    ServedWithin(q, l);
    assert l.served[seen] == l.offered[seen];
  }

  // ----- what a read request leaves in its buffers

  /** A store whose range no later store touches is there in the end. */
  lemma {:induction false} StoresLand(m: Memory, stores: seq<Store>, i: nat)
    requires Disjoint(m) && i < |stores| && stores[i].data != [] && Mapped(m, stores[i].addr, |stores[i].data|)
    requires LastWord(stores, i)
    ensures Read(ApplyStores(m, stores), stores[i].addr, |stores[i].data|) == Some(stores[i].data)
    decreases i
  {
    hide Read, Write, Mapped, Disjoint, LastWord;
    var m1 := Write(m, stores[0].addr, stores[0].data);
    WriteLayout(m, stores[0].addr, stores[0].data);
    LastWordRest(stores, i);
    if i == 0 {
      WriteReadBack(m, stores[0].addr, stores[0].data);
      StoresMiss(m1, stores[1..], stores[0].addr, |stores[0].data|);
    } else {
      StoresLand(m1, stores[1..], i - 1);
    }
  }

  /** No store after the `i`-th overlaps it. */
  ghost predicate LastWord(stores: seq<Store>, i: nat)
    requires i < |stores|
  {
    Misses(stores[i + 1..], stores[i].addr, |stores[i].data|)
  }

  ghost predicate Misses(stores: seq<Store>, lo: nat, n: nat) {
    forall j :: 0 <= j < |stores| ==> Apart(stores[j].addr, |stores[j].data|, lo, n)
  }

  lemma LastWordRest(stores: seq<Store>, i: nat)
    requires i < |stores| && LastWord(stores, i)
    ensures i == 0 ==> Misses(stores[1..], stores[0].addr, |stores[0].data|)
    ensures i > 0 ==> LastWord(stores[1..], i - 1)
  {
    if i > 0 {
      assert stores[1..][i..] == stores[i + 1..];
    }
  }

  lemma {:induction false} StoresMiss(m: Memory, stores: seq<Store>, lo: nat, n: nat)
    requires Disjoint(m) && Misses(stores, lo, n)
    ensures Disjoint(ApplyStores(m, stores))
    ensures Read(ApplyStores(m, stores), lo, n) == Read(m, lo, n)
    decreases |stores|
  {
    hide Read, Write, Mapped, Disjoint, Apart;
    if stores != [] {
      WriteLayout(m, stores[0].addr, stores[0].data);
      WriteApart(m, stores[0].addr, stores[0].data, lo, n);
      StoresMiss(Write(m, stores[0].addr, stores[0].data), stores[1..], lo, n);
    }
  }

  /**
   * After a chain is served, each of its buffers that is mapped, and not overlapped by a later one, holds
   * what the service stored there: for a read request, by ReadIsFlat, its part of the disk.
   */
  lemma ServedBuffersHold(m: Memory, disk: ByteString, q: Queue, last: nat, i: nat)
    requires Live(m, q)
    requires var stores := Service(m, disk, q, HeadAt(m, q, last)).0;
             && Spares(q, stores) && i < |stores| && stores[i].data != []
             && Mapped(m, stores[i].addr, |stores[i].data|) && LastWord(stores, i)
    ensures var s := Service(m, disk, q, HeadAt(m, q, last)).0[i];
            Read(ServeOne(m, disk, q, last), s.addr, |s.data|) == Some(s.data)
  {
    hide Service, ApplyStores, PublishUsed, Live, Read, Mapped, SameRange, Disjoint, LastWord;
    LiveNum(m, q);
    var (stores, written) := Service(m, disk, q, HeadAt(m, q, last));
    var m1 := ApplyStores(m, stores);
    StoresSpare(m, q, stores);
    LiveSame(m, m1, q, q.used, UsedBytes(q));
    StoresLand(m, stores, i);
    PublishLayout(m1, q, HeadAt(m, q, last), written, stores[i].addr, |stores[i].data|);
    ReadSameBytes(m1, PublishUsed(m1, q, HeadAt(m, q, last), written), q, stores[i].addr, |stores[i].data|);
  }

  lemma ReadSameBytes(m: Memory, m': Memory, q: Queue, lo: nat, n: nat)
    requires Live(m, q) && SameRange(m, m', lo, n)
    ensures Read(m', lo, n) == Read(m, lo, n)
  {
    hide Read, Mapped, Apart, Untouched;
    UntouchedRead(m, m', lo, n, lo, n);
  }
}
