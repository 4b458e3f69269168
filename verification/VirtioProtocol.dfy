/** Whole runs of a driver and the virtio-blk device: offers, notifications and the used ring across index wrap-around. */
module VirtioProtocol {
  import opened Bits
  import opened Bytes
  import opened Endian
  import opened GuestMemory
  import opened VirtioQueue
  import Modular

  // ----- slots and wrap-around

  /** 16-bit indices address the same ring slots as running counts exactly when the size divides 2^16. */
  lemma SlotsLineUp(num: nat)
    requires num > 0
    ensures IDX % num == 0 <==> forall k: nat :: k % IDX % num == k % num
  {
    if IDX % num == 0 {
      forall k: nat ensures k % IDX % num == k % num {
        SlotLinesUp(k, num);
      }
    }
    if forall k: nat :: k % IDX % num == k % num {
      assert IDX % IDX % num == IDX % num;
    }
  }

  lemma SlotLinesUp(k: nat, num: nat)
    requires num > 0 && IDX % num == 0
    ensures k % IDX % num == k % num
  {
    var c, w := IDX / num, k / IDX;
    var r := k % IDX;
    assert w * IDX == w * (c * num) == (w * c) * num;
    assert (w * c + r / num) * num == (w * c) * num + r / num * num;
    Modular.Unique(k, num, w * c + r / num, r % num);
  }

  lemma {:induction false} Pow2Add(a: nat, b: nat)
    ensures Pow2(a + b) == Pow2(a) * Pow2(b)
  {
    if a > 0 {
      Pow2Add(a - 1, b);
    }
  }

  /** Every power of two up to 2^15 is a queue size whose slots line up. */
  lemma PowersOfTwoLineUp(k: nat)
    requires k <= 15
    ensures IDX % Pow2(k) == 0
  {
    Pow2Add(16 - k, k);
    assert Pow2(16) == IDX by { assert Pow2(4) == 16; Pow2Add(4, 4); Pow2Add(8, 8); }
    Modular.Unique(IDX, Pow2(k), Pow2(16 - k), 0);
  }

  // ----- where device and driver stand

  function AvailBytes(q: Queue): nat { 4 + q.num * 2 }
  function UsedBytes(q: Queue): nat { 4 + q.num * 8 }

  /** Both rings are mapped and apart, and the slots line up. */
  ghost predicate Live(m: Memory, q: Queue) {
    && Disjoint(m) && 0 < q.num < IDX && IDX % q.num == 0
    && Mapped(m, q.avail, AvailBytes(q)) && Mapped(m, q.used, UsedBytes(q))
    && Apart(q.avail, AvailBytes(q), q.used, UsedBytes(q))
  }

  /** The used ring records the chains `served`, in order: all of the last lap, and their number modulo 2^16. */
  ghost predicate Recorded(m: Memory, q: Queue, served: seq<nat>)
    requires q.num > 0
  {
    && ReadInt(m, q.used + 2, 2) == |served| % IDX
    && forall k :: 0 <= k < |served| && |served| <= k + q.num ==> ReadInt(m, UsedSlot(q, k), 4) == served[k]
  }

  /** The available ring holds the chains offered but not yet served. */
  ghost predicate Offered(m: Memory, q: Queue, offered: seq<nat>, done: nat)
    requires q.num > 0
  {
    && done <= |offered| <= done + q.num
    && ReadInt(m, q.avail + 2, 2) == |offered| % IDX
    && forall k :: done <= k < |offered| ==> ReadInt(m, AvailSlot(q, k), 2) == offered[k] && offered[k] < IDX
  }

  /** What the service of a chain stores stays away from both rings. */
  ghost predicate Spares(q: Queue, stores: seq<Store>) {
    forall i :: 0 <= i < |stores| ==>
      && Apart(stores[i].addr, |stores[i].data|, q.avail, AvailBytes(q))
      && Apart(stores[i].addr, |stores[i].data|, q.used, UsedBytes(q))
  }

  ghost predicate SameRange(m: Memory, m': Memory, lo: nat, n: nat) {
    && SameLayout(m, m') && Disjoint(m') && Untouched(m, m', lo, n)
  }

  lemma SameRangeTrans(m: Memory, m1: Memory, m2: Memory, lo: nat, n: nat)
    requires SameRange(m, m1, lo, n) && SameRange(m1, m2, lo, n)
    ensures SameRange(m, m2, lo, n)
  {
    hide At, Disjoint;
  }

  lemma SameRangeSelf(m: Memory, lo: nat, n: nat)
    requires Disjoint(m)
    ensures SameRange(m, m, lo, n)
  {
    hide At, Disjoint;
  }

  lemma StoreSameRange(m: Memory, a: nat, data: ByteString, lo: nat, n: nat)
    requires Disjoint(m) && Apart(a, |data|, lo, n)
    ensures SameRange(m, Write(m, a, data), lo, n)
  {
    hide At, Write, Disjoint;
    WriteLayout(m, a, data);
    WriteApart(m, a, data, lo, n);
  }

  lemma ReadSame(m: Memory, m': Memory, lo: nat, n: nat, a: nat, k: nat)
    requires Disjoint(m) && SameRange(m, m', lo, n) && lo <= a && a + k <= lo + n
    ensures ReadInt(m', a, k) == ReadInt(m, a, k)
  {
    hide At, Disjoint, Read;
    UntouchedRead(m, m', lo, n, a, k);
  }

  lemma MappedSame(m: Memory, m': Memory, lo: nat, n: nat, a: nat, k: nat)
    requires SameRange(m, m', lo, n)
    ensures Mapped(m', a, k) == Mapped(m, a, k)
  {
    hide Untouched, Disjoint;
    FindSameLayout(m, m', a, k, 0);
  }

  lemma {:induction false} StoresSpare(m: Memory, q: Queue, stores: seq<Store>)
    requires Disjoint(m) && Spares(q, stores)
    ensures SameRange(m, ApplyStores(m, stores), q.avail, AvailBytes(q))
    ensures SameRange(m, ApplyStores(m, stores), q.used, UsedBytes(q))
    decreases |stores|
  {
    hide SameRange, Write, Disjoint, Apart;
    if stores == [] {
      SameRangeSelf(m, q.avail, AvailBytes(q));
      SameRangeSelf(m, q.used, UsedBytes(q));
    } else {
      var m1 := Write(m, stores[0].addr, stores[0].data);
      StoreSameRange(m, stores[0].addr, stores[0].data, q.avail, AvailBytes(q));
      StoreSameRange(m, stores[0].addr, stores[0].data, q.used, UsedBytes(q));
      assert Disjoint(m1) by { StillDisjoint(m, m1, q.used, UsedBytes(q)); }
      StoresSpare(m1, q, stores[1..]);
      SameRangeTrans(m, m1, ApplyStores(m, stores), q.avail, AvailBytes(q));
      SameRangeTrans(m, m1, ApplyStores(m, stores), q.used, UsedBytes(q));
    }
  }

  lemma StillDisjoint(m: Memory, m': Memory, lo: nat, n: nat)
    requires SameRange(m, m', lo, n)
    ensures Disjoint(m')
  {
  }

  lemma LiveSame(m: Memory, m': Memory, q: Queue, lo: nat, n: nat)
    requires Live(m, q) && SameRange(m, m', lo, n)
    ensures Live(m', q)
  {
    hide Mapped, Disjoint, Apart;
    MappedSame(m, m', lo, n, q.avail, AvailBytes(q));
    MappedSame(m, m', lo, n, q.used, UsedBytes(q));
    StillDisjoint(m, m', lo, n);
  }

  lemma RecordedSame(m: Memory, m': Memory, q: Queue, served: seq<nat>)
    requires Disjoint(m) && q.num > 0 && SameRange(m, m', q.used, UsedBytes(q)) && Recorded(m, q, served)
    ensures Recorded(m', q, served)
  {
    hide SameRange, ReadInt, UsedSlot, Disjoint;
    ReadSame(m, m', q.used, UsedBytes(q), q.used + 2, 2);
    forall k | 0 <= k < |served| && |served| <= k + q.num
      ensures ReadInt(m', UsedSlot(q, k), 4) == served[k]
    {
      UsedSlotInside(q, k);
      ReadSame(m, m', q.used, UsedBytes(q), UsedSlot(q, k), 4);
    }
  }

  lemma UsedSlotInside(q: Queue, k: nat)
    requires q.num > 0
    ensures q.used + 4 <= UsedSlot(q, k) && UsedSlot(q, k) + 8 <= q.used + UsedBytes(q)
  {
  }

  lemma AvailSlotInside(q: Queue, k: nat)
    requires q.num > 0
    ensures q.avail + 4 <= AvailSlot(q, k) && AvailSlot(q, k) + 2 <= q.avail + AvailBytes(q)
  {
  }

  lemma OfferedSame(m: Memory, m': Memory, q: Queue, offered: seq<nat>, done: nat)
    requires Disjoint(m) && q.num > 0 && SameRange(m, m', q.avail, AvailBytes(q)) && Offered(m, q, offered, done)
    ensures Offered(m', q, offered, done)
  {
    hide SameRange, ReadInt, AvailSlot, Disjoint;
    ReadSame(m, m', q.avail, AvailBytes(q), q.avail + 2, 2);
    forall k | done <= k < |offered|
      ensures ReadInt(m', AvailSlot(q, k), 2) == offered[k]
    {
      AvailSlotInside(q, k);
      ReadSame(m, m', q.avail, AvailBytes(q), AvailSlot(q, k), 2);
    }
  }

  // ----- publishing

  lemma WriteInt(m: Memory, a: nat, v: nat, n: nat)
    requires Disjoint(m) && Mapped(m, a, n) && n > 0 && v < Pow256(n)
    ensures ReadInt(Write(m, a, LeBytes(v, n)), a, n) == v
  {
    hide Read, Write, Mapped, Disjoint;
    WriteReadBack(m, a, LeBytes(v, n));
    LeRoundTrip(v, n);
  }

  lemma ReadApart(m: Memory, a: nat, data: ByteString, b: nat, n: nat)
    requires Disjoint(m) && Apart(a, |data|, b, n)
    ensures ReadInt(Write(m, a, data), b, n) == ReadInt(m, b, n)
  {
    hide Read, Write, Disjoint, Untouched;
    WriteApart(m, a, data, b, n);
  }

  /** Publishing leaves every range that is apart from the used ring alone. */
  lemma PublishLayout(m: Memory, q: Queue, id: nat, len: nat, lo: nat, n: nat)
    requires Live(m, q) && Apart(q.used, UsedBytes(q), lo, n)
    ensures SameRange(m, PublishUsed(m, q, id, len), lo, n)
  {
    hide SameRange, Write, Disjoint, LeBytes, ReadInt, UsedSlot;
    var idx := ReadInt(m, q.used + 2, 2);
    var slot := UsedSlot(q, idx);
    UsedSlotInside(q, idx);
    var m1 := Write(m, slot, LeBytes(id, 4));
    var m2 := Write(m1, slot + 4, LeBytes(len, 4));
    var m3 := Write(m2, q.used + 2, LeBytes((idx + 1) % IDX, 2));
    StoreSameRange(m, slot, LeBytes(id, 4), lo, n);
    StillDisjoint(m, m1, lo, n);
    StoreSameRange(m1, slot + 4, LeBytes(len, 4), lo, n);
    StillDisjoint(m1, m2, lo, n);
    StoreSameRange(m2, q.used + 2, LeBytes((idx + 1) % IDX, 2), lo, n);
    SameRangeTrans(m, m1, m2, lo, n);
    SameRangeTrans(m, m2, m3, lo, n);
  }

  /** Any 4-byte entry outside the slot being published, and outside the index, is unchanged. */
  lemma PublishKeeps(m: Memory, q: Queue, id: nat, len: nat, b: nat)
    requires Live(m, q)
    requires var slot := UsedSlot(q, ReadInt(m, q.used + 2, 2)); Apart(slot, 8, b, 4) && Apart(q.used + 2, 2, b, 4)
    ensures ReadInt(PublishUsed(m, q, id, len), b, 4) == ReadInt(m, b, 4)
  {
    hide Write, Mapped, Disjoint, LeBytes, ReadInt, UsedSlot;
    var idx := ReadInt(m, q.used + 2, 2);
    var slot := UsedSlot(q, idx);
    var m1 := Write(m, slot, LeBytes(id, 4));
    var m2 := Write(m1, slot + 4, LeBytes(len, 4));
    WriteLayout(m, slot, LeBytes(id, 4));
    WriteLayout(m1, slot + 4, LeBytes(len, 4));
    ReadApart(m, slot, LeBytes(id, 4), b, 4);
    ReadApart(m1, slot + 4, LeBytes(len, 4), b, 4);
    ReadApart(m2, q.used + 2, LeBytes((idx + 1) % IDX, 2), b, 4);
  }

  /** The published slot holds the chain head and the length, and the index has moved by one modulo 2^16. */
  lemma PublishStores(m: Memory, q: Queue, id: nat, len: nat)
    requires Live(m, q) && id < IDX
    ensures var m' := PublishUsed(m, q, id, len);
            var idx := ReadInt(m, q.used + 2, 2);
            && ReadInt(m', UsedSlot(q, idx), 4) == id
            && (len < 0x1_0000_0000 ==> ReadInt(m', UsedSlot(q, idx) + 4, 4) == len)
            && ReadInt(m', q.used + 2, 2) == (idx + 1) % IDX
  {
    hide Write, Mapped, Disjoint, LeBytes, ReadInt, UsedSlot, Pow256;
    var idx := ReadInt(m, q.used + 2, 2);
    var slot := UsedSlot(q, idx);
    UsedSlotInside(q, idx);
    Pow256Values();
    MappedPart(m, q.used, UsedBytes(q), slot, 4);
    MappedPart(m, q.used, UsedBytes(q), q.used + 2, 2);
    var m1 := Write(m, slot, LeBytes(id, 4));
    var m2 := Write(m1, slot + 4, LeBytes(len, 4));
    WriteLayout(m, slot, LeBytes(id, 4));
    WriteLayout(m1, slot + 4, LeBytes(len, 4));
    WriteInt(m, slot, id, 4);
    ReadApart(m1, slot + 4, LeBytes(len, 4), slot, 4);
    ReadApart(m2, q.used + 2, LeBytes((idx + 1) % IDX, 2), slot, 4);
    if len < 0x1_0000_0000 {
      MappedPart(m, q.used, UsedBytes(q), slot + 4, 4);
      WriteInt(m1, slot + 4, len, 4);
      ReadApart(m2, q.used + 2, LeBytes((idx + 1) % IDX, 2), slot + 4, 4);
    }
    WriteInt(m2, q.used + 2, (idx + 1) % IDX, 2);
  }

  lemma UsedSlotsApart(q: Queue, j: nat, k: nat)
    requires q.num > 0 && j % q.num != k % q.num
    ensures Apart(UsedSlot(q, j), 8, UsedSlot(q, k), 4)
  {
  }

  lemma WrapNext(l: nat)
    ensures (l % IDX + 1) % IDX == (l + 1) % IDX
  {
  }

  /** Publishing the next chain extends the record by exactly that chain. */
  lemma PublishRecords(m: Memory, q: Queue, served: seq<nat>, id: nat, len: nat)
    requires Live(m, q) && Recorded(m, q, served) && id < IDX
    ensures Recorded(PublishUsed(m, q, id, len), q, served + [id])
  {
    hide PublishUsed, ReadInt, UsedSlot, Live;
    assert q.num > 0 && IDX % q.num == 0 by { LiveNum(m, q); }
    var l := |served|;
    var m' := PublishUsed(m, q, id, len);
    PublishStores(m, q, id, len);
    WrapNext(l);
    SameUsedSlot(q, l);
    forall k | 0 <= k < l + 1 && l + 1 <= k + q.num
      ensures ReadInt(m', UsedSlot(q, k), 4) == (served + [id])[k]
    {
      if k < l {
        Modular.Distinct(k, l, q.num);
        UsedSlotsApart(q, l, k);
        UsedSlotInside(q, k);
        PublishKeeps(m, q, id, len, UsedSlot(q, k));
      }
    }
  }

  lemma LiveNum(m: Memory, q: Queue)
    requires Live(m, q)
    ensures 0 < q.num < IDX && IDX % q.num == 0 && Disjoint(m)
  {
  }

  lemma SameUsedSlot(q: Queue, l: nat)
    requires q.num > 0 && IDX % q.num == 0
    ensures UsedSlot(q, l % IDX) == UsedSlot(q, l) && AvailSlot(q, l % IDX) == AvailSlot(q, l)
  {
    SlotLinesUp(l, q.num);
  }
}
