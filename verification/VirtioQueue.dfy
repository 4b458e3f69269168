/** The legacy virtio-blk queue (VIRTIO 1.0, sections 2.4.5 to 2.4.8 and 5.2): 16-bit indices, descriptor chains, used ring. */
module VirtioQueue {
  import opened Bits
  import opened Bytes
  import opened Endian
  import opened GuestMemory
  import opened NvmeTransfer
  import Modular

  const IDX: nat := 0x1_0000
  const SECTOR: nat := 512

  /** The queue the driver has set up: its three tables, its ring slots, and the longest chain it may hold. */
  datatype Queue = Queue(desc: nat, avail: nat, used: nat, num: nat, limit: nat)

  function ReadInt(m: Memory, a: nat, n: nat): nat {
    match Read(m, a, n) case Some(b) => Le(b) case None => 0
  }

  // ----- addresses

  function Align(n: nat, a: nat): nat {
    if a == 0 then n else AndNot(n + a - 1, a - 1)
  }

  /** For a power of two, aligning rounds up to the next multiple. */
  lemma AlignRoundsUp(n: nat, k: nat)
    ensures var r := Align(n, Pow2(k)); n <= r < n + Pow2(k) && r % Pow2(k) == 0
  {
    var p := Pow2(k);
    AndNotClears(n + p - 1, k);
    DivMulBounds(n + p - 1, p);
  }

  lemma DivMulBounds(x: nat, p: nat)
    requires p > 0
    ensures var r := x / p * p; r <= x < r + p && r % p == 0
  {
    Modular.Unique(x / p * p, p, x / p, 0);
  }

  // ----- descriptor chains

  datatype Desc = Desc(addr: nat, len: nat, write: bool)

  /** Follows next links from `idx`, at most `fuel` descriptors. */
  function Chain(m: Memory, desc: nat, idx: nat, fuel: nat): seq<Desc>
    decreases fuel
  {
    if fuel == 0 then []
    else
      var d := desc + 16 * idx;
      var flags := ReadInt(m, d + 12, 2);
      [Desc(ReadInt(m, d, 8), ReadInt(m, d + 8, 4), flags / 2 % 2 == 1)]
      + if flags % 2 == 0 then [] else Chain(m, desc, ReadInt(m, d + 14, 2), fuel - 1)
  }

  function DescAt(m: Memory, d: nat): Desc {
    Desc(ReadInt(m, d, 8), ReadInt(m, d + 8, 4), ReadInt(m, d + 12, 2) / 2 % 2 == 1)
  }

  function LinkAt(m: Memory, d: nat): Option<nat> {
    if ReadInt(m, d + 12, 2) % 2 == 0 then None else Some(ReadInt(m, d + 14, 2))
  }

  lemma ChainStep(m: Memory, desc: nat, idx: nat, fuel: nat)
    requires fuel > 0
    ensures Chain(m, desc, idx, fuel) == [DescAt(m, desc + 16 * idx)]
      + match LinkAt(m, desc + 16 * idx) case None => [] case Some(next) => Chain(m, desc, next, fuel - 1)
  {
    hide ReadInt;
  }

  lemma ChainEnd(m: Memory, desc: nat, idx: nat)
    ensures Chain(m, desc, idx, 0) == []
  {
  }

  datatype Store = Store(addr: nat, data: ByteString)

  /** The data descriptors of a read request receive consecutive disk bytes from `off` on. */
  function ReadStores(disk: ByteString, off: nat, data: seq<Desc>): (r: seq<Store>)
    ensures |r| == |data|
    decreases |data|
  {
    if data == [] then [] else [Store(data[0].addr, Padded(disk, off, data[0].len))] + ReadStores(disk, off + data[0].len, data[1..])
  }

  function TotalLen(data: seq<Desc>): nat {
    if data == [] then 0 else data[0].len + TotalLen(data[1..])
  }

  /** Everything the service of a chain stores into guest memory, and the length it reports. */
  function Service(m: Memory, disk: ByteString, q: Queue, head: nat): (seq<Store>, nat) {
    var chain := Chain(m, q.desc, head, q.limit);
    if |chain| < 2 then ([], 0)
    else match Read(m, chain[0].addr, 16)
      case None => ([], 0)
      case Some(hdr) =>
        var data := chain[1..|chain| - 1];
        var status := Store(chain[|chain| - 1].addr, [0]);
        if Le(hdr[0..4]) == 1 then ([status], 1)
        else (ReadStores(disk, Le(hdr[8..16]) * SECTOR, data) + [status], (TotalLen(data) + 1) % 0x1_0000_0000)
  }

  function ApplyStores(m: Memory, stores: seq<Store>): (r: Memory)
    decreases |stores|
  {
    if stores == [] then m else ApplyStores(Write(m, stores[0].addr, stores[0].data), stores[1..])
  }

  function StoredData(stores: seq<Store>): (r: seq<ByteString>)
    ensures |r| == |stores|
  {
    if stores == [] then [] else [stores[0].data] + StoredData(stores[1..])
  }

  /** A read request scatters one flat run of the disk over its data buffers, in order and without gaps. */
  lemma {:induction false} ReadIsFlat(disk: ByteString, off: nat, data: seq<Desc>)
    ensures Concat(StoredData(ReadStores(disk, off, data))) == Padded(disk, off, TotalLen(data))
    decreases |data|
  {
    if data == [] {
      assert Padded(disk, off, 0) == [];
    } else {
      ReadIsFlat(disk, off + data[0].len, data[1..]);
      PaddedJoin(disk, off, data[0].len, TotalLen(data[1..]));
      var stores := ReadStores(disk, off, data);
      assert stores[1..] == ReadStores(disk, off + data[0].len, data[1..]);
      assert StoredData(stores) == [stores[0].data] + StoredData(stores[1..]);
    }
  }

  // ----- one notification

  function UsedSlot(q: Queue, idx: nat): nat
    requires q.num > 0
  {
    q.used + 4 + idx % q.num * 8
  }

  function AvailSlot(q: Queue, idx: nat): nat
    requires q.num > 0
  {
    q.avail + 4 + idx % q.num * 2
  }

  /** Records a chain head and its length at the used index kept in guest memory, then moves that index. */
  function PublishUsed(m: Memory, q: Queue, id: nat, len: nat): Memory
    requires q.num > 0
  {
    var idx := ReadInt(m, q.used + 2, 2);
    var m1 := Write(m, UsedSlot(q, idx), LeBytes(id, 4));
    var m2 := Write(m1, UsedSlot(q, idx) + 4, LeBytes(len, 4));
    Write(m2, q.used + 2, LeBytes((idx + 1) % IDX, 2))
  }

  /** Serves the chain at the device's own index. */
  function ServeOne(m: Memory, disk: ByteString, q: Queue, last: nat): Memory
    requires q.num > 0
  {
    var head := ReadInt(m, AvailSlot(q, last), 2);
    var (stores, written) := Service(m, disk, q, head);
    PublishUsed(ApplyStores(m, stores), q, head, written)
  }

  /** How many 16-bit steps lead from `last` to `idx`. */
  function Ahead(last: nat, idx: nat): (n: nat)
    requires last < IDX && idx < IDX
    ensures n < IDX
    ensures n == 0 <==> last == idx
  {
    if last <= idx then idx - last else idx + IDX - last
  }

  /** Serves `n` chains, one after the other, from the device's index on. */
  function ServeMany(m: Memory, disk: ByteString, q: Queue, last: nat, n: nat): Memory
    requires q.num > 0
    decreases n
  {
    if n == 0 then m else ServeMany(ServeOne(m, disk, q, last), disk, q, (last + 1) % IDX, n - 1)
  }
}
