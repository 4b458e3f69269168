/** The virtio-blk device as the program has it: registers, the notification loop and the chain walk. */
module VirtioBlkDevice {
  import opened Bits
  import opened Bytes
  import opened Endian
  import opened GuestMemory
  import opened NvmeTransfer
  import opened VirtioQueue

  const UINT32: nat := 0x1_0000_0000

  lemma {:induction false} ApplyAppend(m: Memory, stores: seq<Store>, s: Store)
    ensures ApplyStores(m, stores + [s]) == Write(ApplyStores(m, stores), s.addr, s.data)
    decreases |stores|
  {
    hide Write;
    if stores == [] {
      assert stores + [s] == [s];
      assert ApplyStores(Write(m, s.addr, s.data), []) == Write(m, s.addr, s.data);
    } else {
      assert (stores + [s])[1..] == stores[1..] + [s];
      ApplyAppend(Write(m, stores[0].addr, stores[0].data), stores[1..], s);
    }
  }

  class VirtioBlk {
    const mem: Machine
    const disk: array<Byte>
    var status: nat
    var guestPageSize: nat
    var queueNum: nat
    var queueAlign: nat
    var queuePFN: nat
    var lastAvail: nat
    var intStatus: nat

    ghost predicate Valid()
      reads this
    {
      lastAvail < IDX && queueNum < UINT32
    }

    /** Where the legacy layout puts the three tables of the queue. */
    function Rings(): Queue
      reads this
    {
      var desc := queuePFN * guestPageSize;
      var avail := desc + 16 * queueNum;
      Queue(desc, avail, Align(avail + 6 + 2 * queueNum, queueAlign), queueNum % IDX, queueNum)
    }

    /** The driver has given the queue a place and a size. */
    predicate Active()
      reads this
    {
      queuePFN != 0 && queueNum != 0
    }

    /** How many chains the driver has made available that the device has not served, as its 16-bit index shows. */
    ghost function Pending(): nat
      requires Valid()
      reads this, mem
    {
      Ahead(lastAvail, ReadInt(mem.regions, Rings().avail + 2, 2) % IDX)
    }

    /** The slot of a chain is found modulo the low 16 bits of the queue's size: with those zero no chain can be served. */
    ghost predicate DividesByZero()
      requires Valid()
      reads this, mem
    {
      Active() && queueNum % IDX == 0 && Pending() > 0
    }

    constructor (m: Machine, image: array<Byte>)
      ensures Valid() && mem == m && disk == image
      ensures queuePFN == queueNum == lastAvail == intStatus == status == 0
      ensures guestPageSize == queueAlign == 4096
    {
      mem, disk := m, image;
      status, queueNum, queuePFN, lastAvail, intStatus := 0, 0, 0, 0, 0;
      guestPageSize, queueAlign := 4096, 4096;
    }

    method LoadInt(a: nat, n: nat) returns (v: nat)
      ensures v == ReadInt(mem.regions, a, n)
    {
      var b := mem.ReadGuest(a, n);
      match b
      case Some(bytes) => v := Le(bytes);
      case None => v := 0;
    }

    /** One descriptor: what it describes, and the one it links to, if any. */
    method LoadDesc(d: nat) returns (entry: Desc, next: Option<nat>)
      ensures entry == DescAt(mem.regions, d) && next == LinkAt(mem.regions, d)
    {
      hide ReadInt;
      var addr := LoadInt(d, 8);
      var len := LoadInt(d + 8, 4);
      var flags := LoadInt(d + 12, 2);
      var link := LoadInt(d + 14, 2);
      entry := Desc(addr, len, flags / 2 % 2 == 1);
      next := if flags % 2 == 0 then None else Some(link);
    }

    /** Follows the next links, stopping after `limit` descriptors. */
    method GatherChain(desc: nat, head: nat, limit: nat) returns (chain: seq<Desc>)
      ensures chain == Chain(mem.regions, desc, head, limit)
    {
      hide DescAt, LinkAt, Chain;
      chain := [];
      var idx, n := head, 0;
      while n < limit
        invariant n <= limit
        invariant chain + Chain(mem.regions, desc, idx, limit - n) == Chain(mem.regions, desc, head, limit)
      {
        ChainStep(mem.regions, desc, idx, limit - n);
        var entry, next := LoadDesc(desc + 16 * idx);
        ghost var before := chain;
        chain := chain + [entry];
        match next
        case None =>
          return;
        case Some(link) =>
          assert before + ([entry] + Chain(mem.regions, desc, link, limit - n - 1)) == chain + Chain(mem.regions, desc, link, limit - n - 1);
          idx, n := link, n + 1;
      }
      ChainEnd(mem.regions, desc, idx);
    }

    /** Moves the data of a request; the disk image never changes, whatever the request. */
    method MoveData(write: bool, off: nat, data: seq<Desc>) returns (written: nat)
      modifies mem
      ensures written == if write then 0 else TotalLen(data) % 0x1_0000_0000
      ensures mem.regions == ApplyStores(old(mem.regions), if write then [] else ReadStores(disk[..], off, data))
    {
      hide Read, Write, Padded, ReadStores, ApplyStores, TotalLen;
      ghost var m0, d := mem.regions, disk[..];
      var at: nat, i: nat := off, 0;
      written := 0;
      assert data[0..] == data;
      while i < |data|
        invariant i <= |data| && disk[..] == d
        invariant write ==> mem.regions == m0 && written == 0
        invariant !write ==> ApplyStores(mem.regions, ReadStores(d, at, data[i..])) == ApplyStores(m0, ReadStores(d, off, data))
        invariant !write ==> (written + TotalLen(data[i..])) % UINT32 == TotalLen(data) % UINT32 && written < UINT32
      {
        DataStep(mem.regions, d, at, data, i);
        if write {
          var _ := mem.ReadGuest(data[i].addr, data[i].len);
        } else {
          var _ := mem.WriteGuest(data[i].addr, Padded(disk[..], at, data[i].len));
          written := (written + data[i].len) % UINT32;
        }
        at, i := at + data[i].len, i + 1;
      }
      assert data[i..] == [];
      DataDone(mem.regions, d, at);
      NoStores(m0);
    }

    /** Serves one chain, and reports how many bytes it stored. */
    method ServiceChain(q: Queue, head: nat) returns (written: nat)
      modifies mem
      ensures var (stores, n) := Service(old(mem.regions), disk[..], q, head);
              mem.regions == ApplyStores(old(mem.regions), stores) && written == n
    {
      hide Read, Write, Chain, Le, ReadStores, TotalLen, ApplyStores;
      ghost var m0 := mem.regions;
      NoStores(m0);
      var chain := GatherChain(q.desc, head, q.limit);
      if |chain| < 2 {
        return 0;
      }
      var hdr := mem.ReadGuest(chain[0].addr, 16);
      match hdr
      case None => return 0;
      case Some(h) =>
        var write := Le(h[0..4]) == 1;
        var n := MoveData(write, Le(h[8..16]) * SECTOR, chain[1..|chain| - 1]);
        ghost var moved := if write then [] else ReadStores(disk[..], Le(h[8..16]) * SECTOR, chain[1..|chain| - 1]);
        ApplyAppend(m0, moved, Store(chain[|chain| - 1].addr, [0]));
        assert write ==> moved + [Store(chain[|chain| - 1].addr, [0])] == [Store(chain[|chain| - 1].addr, [0])];
        var _ := mem.WriteGuest(chain[|chain| - 1].addr, [0]);
        written := (n + 1) % UINT32;
    }

    method Publish(q: Queue, id: nat, len: nat)
      requires q.num > 0
      modifies mem
      ensures mem.regions == PublishUsed(old(mem.regions), q, id, len)
    {
      hide Read, Write, LeBytes, ReadInt;
      var idx := LoadInt(q.used + 2, 2);
      var slot := q.used + 4 + idx % q.num * 8;
      var _ := mem.WriteGuest(slot, LeBytes(id, 4));
      var _ := mem.WriteGuest(slot + 4, LeBytes(len, 4));
      var _ := mem.WriteGuest(q.used + 2, LeBytes((idx + 1) % IDX, 2));
    }

    /** One turn of the notification loop. */
    method ServeNext(q: Queue)
      requires q.num > 0 && lastAvail < IDX
      modifies this`lastAvail, mem
      ensures mem.regions == ServeOne(old(mem.regions), disk[..], q, old(lastAvail))
      ensures lastAvail == (old(lastAvail) + 1) % IDX
    {
      hide ReadInt, Service, PublishUsed, ApplyStores, AvailSlot;
      var head := LoadInt(AvailSlot(q, lastAvail), 2);
      var written := ServiceChain(q, head);
      Publish(q, head, written);
      lastAvail := (lastAvail + 1) % IDX;
    }

    /** Serves one chain after the other until the device's index, which wraps at 2^16, meets the driver's. */
    method ServeUntil(q: Queue, availIdx: nat)
      requires q.num > 0 && lastAvail < IDX && availIdx < IDX
      modifies this`lastAvail, mem
      ensures mem.regions == ServeMany(old(mem.regions), disk[..], q, old(lastAvail), Ahead(old(lastAvail), availIdx))
      ensures lastAvail == availIdx
    {
      hide ServeOne, ServeMany, Ahead;
      while lastAvail != availIdx
        invariant lastAvail < IDX && disk[..] == old(disk[..])
        invariant ServeMany(mem.regions, disk[..], q, lastAvail, Ahead(lastAvail, availIdx))
               == ServeMany(old(mem.regions), disk[..], q, old(lastAvail), Ahead(old(lastAvail), availIdx))
        decreases Ahead(lastAvail, availIdx)
      {
        ServeManyStep(mem.regions, disk[..], q, lastAvail, availIdx);
        ServeNext(q);
      }
      ServeManyDone(mem.regions, disk[..], q, lastAvail);
    }

    /** Serves all pending chains; `ok` is false where the division by a zero size stops it, which is before the first one. */
    method ProcessQueue() returns (ok: bool)
      requires Valid()
      modifies this`lastAvail, this`intStatus, mem
      ensures Valid() && ok == !old(DividesByZero())
      ensures !ok || old(queuePFN == 0 || queueNum == 0) ==> mem.regions == old(mem.regions) && lastAvail == old(lastAvail) && intStatus == old(intStatus)
      ensures ok && old(queuePFN != 0 && queueNum != 0) ==>
                && lastAvail == (old(lastAvail) + old(Pending())) % IDX && intStatus == old(intStatus) / 2 * 2 + 1
                && if old(Pending()) == 0 then mem.regions == old(mem.regions)
                   else mem.regions == ServeMany(old(mem.regions), disk[..], Rings(), old(lastAvail), old(Pending()))
    {
      hide ReadInt, ServeMany, Align;
      if queuePFN == 0 || queueNum == 0 {
        return true;
      }
      var q := Rings();
      var availIdx := LoadInt(q.avail + 2, 2);
      IndexFits(mem.regions, q.avail + 2);
      if lastAvail != availIdx {
        if q.num == 0 {
          return false;
        }
        ServeUntil(q, availIdx);
      }
      intStatus := intStatus / 2 * 2 + 1;
      ok := true;
    }

    /** The registers that steer the queue; every other offset only latches a value this model leaves out. */
    method WriteRegister(off: nat, val: nat) returns (ok: bool)
      requires Valid() && val < 0x1_0000_0000_0000_0000
      modifies this, mem
      ensures Valid() && ok == !(off == 0x050 && old(DividesByZero()))
      ensures off == 0x028 ==> guestPageSize == val
      ensures off == 0x038 ==> queueNum == val % 0x1_0000_0000
      ensures off == 0x03c ==> queueAlign == val
      ensures off == 0x040 ==> queuePFN == val && lastAvail == 0
      ensures off == 0x064 ==> intStatus == AndNot(old(intStatus), val % 0x1_0000_0000)
      ensures off == 0x070 ==> status == val % 0x1_0000_0000
      ensures off == 0x070 && val == 0 ==> queuePFN == lastAvail == intStatus == 0
      ensures off != 0x028 ==> guestPageSize == old(guestPageSize)
      ensures off != 0x038 ==> queueNum == old(queueNum)
      ensures off != 0x03c ==> queueAlign == old(queueAlign)
      ensures off != 0x040 && !(off == 0x070 && val == 0) ==> queuePFN == old(queuePFN)
      ensures off !in {0x040, 0x050} && !(off == 0x070 && val == 0) ==> lastAvail == old(lastAvail)
      ensures off !in {0x050, 0x064} && !(off == 0x070 && val == 0) ==> intStatus == old(intStatus)
      ensures off != 0x070 ==> status == old(status)
      ensures off != 0x050 ==> mem.regions == old(mem.regions)
      ensures off == 0x050 && (!ok || old(queuePFN == 0 || queueNum == 0)) ==>
                mem.regions == old(mem.regions) && lastAvail == old(lastAvail) && intStatus == old(intStatus)
      ensures off == 0x050 && ok && old(queuePFN != 0 && queueNum != 0) ==>
                && lastAvail == (old(lastAvail) + old(Pending())) % IDX && intStatus == old(intStatus) / 2 * 2 + 1
                && if old(Pending()) == 0 then mem.regions == old(mem.regions)
                   else mem.regions == ServeMany(old(mem.regions), disk[..], Rings(), old(lastAvail), old(Pending()))
    {
      hide ReadInt, Align, ServeMany, Ahead;
      ok := true;
      if off == 0x028 {
        guestPageSize := val;
      } else if off == 0x038 {
        queueNum := val % UINT32;
      } else if off == 0x03c {
        queueAlign := val;
      } else if off == 0x040 {
        queuePFN, lastAvail := val, 0;
      } else if off == 0x050 {
        ok := ProcessQueue();
      } else if off == 0x064 {
        intStatus := AndNot(intStatus, val % UINT32);
      } else if off == 0x070 {
        status := val % UINT32;
        if val == 0 {
          queuePFN, lastAvail, intStatus := 0, 0, 0;
        }
      }
    }
  }

  lemma ServeManyStep(m: Memory, disk: ByteString, q: Queue, last: nat, idx: nat)
    requires q.num > 0 && last < IDX && idx < IDX && last != idx
    ensures ServeMany(m, disk, q, last, Ahead(last, idx))
         == ServeMany(ServeOne(m, disk, q, last), disk, q, (last + 1) % IDX, Ahead((last + 1) % IDX, idx))
    ensures Ahead((last + 1) % IDX, idx) < Ahead(last, idx)
  {
    hide ServeOne;
  }

  lemma ServeManyDone(m: Memory, disk: ByteString, q: Queue, last: nat)
    requires q.num > 0 && last < IDX
    ensures ServeMany(m, disk, q, last, Ahead(last, last)) == m
  {
  }

  /** One more data descriptor of a read request. */
  lemma DataStep(m: Memory, disk: ByteString, at: nat, data: seq<Desc>, i: nat)
    requires i < |data|
    ensures ApplyStores(m, ReadStores(disk, at, data[i..]))
         == ApplyStores(Write(m, data[i].addr, Padded(disk, at, data[i].len)), ReadStores(disk, at + data[i].len, data[i + 1..]))
    ensures TotalLen(data[i..]) == data[i].len + TotalLen(data[i + 1..])
  {
    hide Write, Padded;
    var rest := data[i..];
    assert rest[0] == data[i] && rest[1..] == data[i + 1..];
    var stores := ReadStores(disk, at, rest);
    assert stores[1..] == ReadStores(disk, at + data[i].len, rest[1..]);
  }

  lemma DataDone(m: Memory, disk: ByteString, at: nat)
    ensures ApplyStores(m, ReadStores(disk, at, [])) == m && TotalLen([]) == 0
  {
  }

  lemma NoStores(m: Memory)
    ensures ApplyStores(m, []) == m
  {
  }

  lemma {:induction false} LeBound(b: ByteString)
    ensures Le(b) < Pow256(|b|)
    decreases |b|
  {
    if b != [] {
      LeBound(b[1..]);
    }
  }

  lemma IndexFits(m: Memory, a: nat)
    ensures ReadInt(m, a, 2) < IDX
  {
    hide Read, Le;
    Pow256Values();
    match Read(m, a, 2)
    case Some(b) => LeBound(b);
    case None =>
  }
}
