/** A driver of the legacy queue: it sets the registers, lays out its rings by the legacy formula, and notifies. */
module VirtioDrivers {
  import opened Bits
  import opened Bytes
  import opened GuestMemory
  import opened VirtioQueue
  import opened VirtioProtocol
  import opened VirtioRuns
  import opened VirtioBlkDevice
  import Modular

  /** What the driver chooses: its page size, the page of the queue, how many descriptors, and an alignment of 2^k. */
  datatype Setup = Setup(page: nat, pfn: nat, num: nat, k: nat) {
    predicate Fits() {
      && 0 < page < UINT32 * UINT32 && 0 < pfn < UINT32 * UINT32 && 0 < num < IDX && k < 64 && Pow2(k) < UINT32 * UINT32
    }
  }

  /** `n` is the least multiple of `a` from `from` on. */
  ghost predicate LeastMultiple(n: nat, a: nat, from: nat)
    requires a > 0
  {
    n >= from && n % a == 0 && forall j: nat :: j >= from && j % a == 0 ==> n <= j
  }

  /** The legacy layout (VIRTIO 1.0, section 2.4.2): descriptors, the available ring after them, the used ring on the next boundary. */
  ghost predicate LegacyLayout(s: Setup, q: Queue) {
    && q.desc == s.pfn * s.page
    && q.avail == s.pfn * s.page + 16 * s.num
    && LeastMultiple(q.used, Pow2(s.k), q.avail + 6 + 2 * s.num)
    && q.num == s.num && q.limit == s.num
  }

  lemma NoMultipleBetween(n: nat, a: nat, j: nat)
    requires a > 0 && n % a == 0 && j % a == 0 && j < n
    ensures j + a <= n
  {
    assert n == n / a * a && j == j / a * a;
    if n / a <= j / a {
      TimesOrdered(n / a, j / a, a);
    } else {
      TimesOrdered(j / a + 1, n / a, a);
    }
  }

  lemma TimesOrdered(x: nat, y: nat, a: nat)
    requires x <= y
    ensures x * a <= y * a
  {
  }

  /** Aligning gives the least multiple. */
  lemma AlignIsLeast(n: nat, k: nat)
    ensures LeastMultiple(Align(n, Pow2(k)), Pow2(k), n)
  {
    hide Align, Pow2;
    AlignRoundsUp(n, k);
    var r := Align(n, Pow2(k));
    forall j: nat | j >= n && j % Pow2(k) == 0 ensures r <= j {
      if j < r {
        NoMultipleBetween(r, Pow2(k), j);
      }
    }
  }

  /** There is one layout. */
  lemma LayoutUnique(s: Setup, q: Queue, q': Queue)
    requires LegacyLayout(s, q) && LegacyLayout(s, q')
    ensures q == q'
  {
    hide Pow2;
  }

  /** The device's registers hold what the driver chose. */
  ghost predicate Configured(v: VirtioBlk, s: Setup)
    reads v
  {
    s.Fits() && v.Valid() && v.guestPageSize == s.page && v.queueNum == s.num && v.queueAlign == Pow2(s.k) && v.queuePFN == s.pfn
  }

  /** The device looks for the three tables where the legacy layout puts them. */
  lemma RingsAreLegacy(v: VirtioBlk, s: Setup)
    requires Configured(v, s)
    ensures LegacyLayout(s, v.Rings()) && v.Active()
  {
    hide Align, Pow2;
    AlignIsLeast(v.queuePFN * v.guestPageSize + 16 * v.queueNum + 6 + 2 * v.queueNum, s.k);
    Modular.Small(s.num, IDX);
  }

  /** A driver's register writes: page size, queue size, alignment, page number. */
  method SetUp(v: VirtioBlk, s: Setup)
    requires v.Valid() && s.Fits()
    modifies v, v.mem
    ensures Configured(v, s) && LegacyLayout(s, v.Rings()) && v.lastAvail == 0 && v.mem.regions == old(v.mem.regions)
  {
    hide Pow2;
    var _ := v.WriteRegister(0x028, s.page);
    var _ := v.WriteRegister(0x038, s.num);
    Modular.Small(s.num, UINT32);
    var _ := v.WriteRegister(0x03c, Pow2(s.k));
    var _ := v.WriteRegister(0x040, s.pfn);
    RingsAreLegacy(v, s);
  }

  /** Device and driver stand as one link over the legacy layout. */
  ghost predicate Stands(v: VirtioBlk, s: Setup, q: Queue, l: Link)
    reads v, v.mem
  {
    Configured(v, s) && LegacyLayout(s, q) && v.mem.regions == l.m && v.lastAvail == l.last && InStep(q, l)
  }

  /** The write to QueueNotify: every chain offered in the driver's rings is served, and is in the used ring the driver reads. */
  method NotifyDevice(v: VirtioBlk, s: Setup, q: Queue, ghost l: Link)
    requires Stands(v, s, q, l) && Legal(v.disk[..], q, l, Notify)
    modifies v, v.mem
    ensures Stands(v, s, q, StepLink(v.disk[..], q, l, Notify))
    ensures StepLink(v.disk[..], q, l, Notify).served == l.offered
  {
    hide Pow2, InStep, LegacyLayout, Legal, ServeMany, HeadsRead, Live;
    RingsAreLegacy(v, s);
    LayoutUnique(s, q, v.Rings());
    StandsPending(v, s, q, l);
    NotifyServesAll(v.disk[..], q, l);
    ghost var n := v.Pending();
    assert n == VirtioRuns.Pending(q, l);
    NothingServed(l.m, v.disk[..], q, l.last);
    Modular.Small(s.num, IDX);
    var ok := v.WriteRegister(0x050, 0);
    assert ok;
  }

  lemma NothingServed(m: Memory, disk: ByteString, q: Queue, last: nat)
    ensures q.num > 0 ==> ServeMany(m, disk, q, last, 0) == m
  {
  }

  lemma StandsPending(v: VirtioBlk, s: Setup, q: Queue, l: Link)
    requires Stands(v, s, q, l)
    ensures q.num > 0 && l.last < IDX && Disjoint(l.m)
  {
  }
}
