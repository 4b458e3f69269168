/** Read requests as a driver lays them out (VIRTIO 1.0, sections 2.4.5 and 5.2.6): what serving one leaves in the driver's buffers. */
module VirtioRequests {
  import opened Bytes
  import opened Endian
  import opened GuestMemory
  import opened VirtioQueue
  import opened VirtioProtocol
  import opened VirtioRuns

  /** A descriptor in the driver's table, at index `idx`. */
  datatype Entry = Entry(idx: nat, addr: nat, len: nat, write: bool) {
    function View(): Desc { Desc(addr, len, write) }

    predicate Fits() { idx < IDX && addr < 0x1_0000_0000_0000_0000 && len < 0x1_0000_0000 }
  }

  /** The 16 bytes of a descriptor; `next` links it on. */
  function Image(e: Entry, next: Option<nat>): (b: ByteString)
    ensures |b| == 16
  {
    LeBytes(e.addr, 8) + LeBytes(e.len, 4)
    + LeBytes((if e.write then 2 else 0) + if next.Some? then 1 else 0, 2)
    + LeBytes(match next case Some(n) => n case None => 0, 2)
  }

  function Follower(es: seq<Entry>, i: nat): Option<nat>
    requires i < |es|
  {
    if i + 1 < |es| then Some(es[i + 1].idx) else None
  }

  ghost predicate InTable(m: Memory, desc: nat, e: Entry, next: Option<nat>) {
    e.Fits() && (next.Some? ==> next.value < IDX) && Read(m, desc + 16 * e.idx, 16) == Some(Image(e, next))
  }

  /** The driver's table holds the chain `es`. */
  ghost predicate Linked(m: Memory, desc: nat, es: seq<Entry>) {
    forall i :: 0 <= i < |es| ==> InTable(m, desc, es[i], Follower(es, i))
  }

  function Views(es: seq<Entry>): (r: seq<Desc>)
    ensures |r| == |es|
  {
    seq(|es|, i requires 0 <= i < |es| => es[i].View())
  }

  // ----- walking the table

  lemma ReadPart(m: Memory, gpa: nat, b: ByteString, off: nat, k: nat)
    requires Disjoint(m) && b != [] && Read(m, gpa, |b|) == Some(b) && k > 0 && off + k <= |b|
    ensures Read(m, gpa + off, k) == Some(b[off..off + k])
  {
    hide At, Disjoint, Mapped, Read;
    ReadMapped(m, gpa, |b|);
    MappedPart(m, gpa, |b|, gpa + off, k);
    ReadBytes(m, gpa, |b|);
    var part := b[off..off + k];
    forall i | 0 <= i < k ensures At(m, gpa + off + i) == Some(part[i]) {
      assert At(m, gpa + (off + i)) == Some(b[off + i]);
    }
    ReadFromBytes(m, gpa + off, part);
  }

  lemma ReadMapped(m: Memory, gpa: nat, n: nat)
    requires Read(m, gpa, n).Some?
    ensures Mapped(m, gpa, n)
  {
  }

  lemma ReadField(m: Memory, gpa: nat, b: ByteString, off: nat, v: nat, k: nat)
    requires Disjoint(m) && b != [] && Read(m, gpa, |b|) == Some(b) && k > 0 && off + k <= |b|
    requires b[off..off + k] == LeBytes(v, k) && v < Pow256(k)
    ensures ReadInt(m, gpa + off, k) == v
  {
    hide Disjoint, Read, Le, LeBytes;
    ReadPart(m, gpa, b, off, k);
    LeRoundTrip(v, k);
  }

  lemma ImageParts(e: Entry, next: Option<nat>)
    ensures var b := Image(e, next);
            && b[0..8] == LeBytes(e.addr, 8) && b[8..12] == LeBytes(e.len, 4)
            && b[12..14] == LeBytes((if e.write then 2 else 0) + if next.Some? then 1 else 0, 2)
            && b[14..16] == LeBytes(match next case Some(n) => n case None => 0, 2)
  {
    hide LeBytes;
  }

  lemma ImageReads(m: Memory, desc: nat, e: Entry, next: Option<nat>)
    requires Disjoint(m) && InTable(m, desc, e, next)
    ensures DescAt(m, desc + 16 * e.idx) == e.View() && LinkAt(m, desc + 16 * e.idx) == next
  {
    hide Disjoint, Read, LeBytes, ReadInt, Pow256, Image;
    Pow256Values();
    ImageParts(e, next);
    var d, b := desc + 16 * e.idx, Image(e, next);
    ReadField(m, d, b, 0, e.addr, 8);
    ReadField(m, d, b, 8, e.len, 4);
    ReadField(m, d, b, 12, (if e.write then 2 else 0) + if next.Some? then 1 else 0, 2);
    ReadField(m, d, b, 14, match next case Some(n) => n case None => 0, 2);
  }

  lemma LinkedRest(m: Memory, desc: nat, es: seq<Entry>)
    requires es != [] && Linked(m, desc, es)
    ensures InTable(m, desc, es[0], Follower(es, 0)) && Linked(m, desc, es[1..])
  {
    hide InTable;
    forall i | 0 <= i < |es[1..]| ensures InTable(m, desc, es[1..][i], Follower(es[1..], i)) {
      assert InTable(m, desc, es[i + 1], Follower(es, i + 1));
    }
  }

  /** The device walks exactly the chain in the table, cut off at as many descriptors as it allows. */
  lemma {:induction false} ChainReadsTable(m: Memory, desc: nat, es: seq<Entry>, limit: nat)
    requires Disjoint(m) && es != [] && Linked(m, desc, es)
    ensures Chain(m, desc, es[0].idx, limit) == Views(es)[..if limit < |es| then limit else |es|]
    decreases |es|
  {
    hide Chain, DescAt, LinkAt, Linked, InTable, Disjoint, Views;
    if limit == 0 {
      ChainEnd(m, desc, es[0].idx);
    } else {
      LinkedRest(m, desc, es);
      ImageReads(m, desc, es[0], Follower(es, 0));
      ChainStep(m, desc, es[0].idx, limit);
      var n := if limit < |es| then limit else |es|;
      ViewsFirst(es, n);
      if |es| > 1 {
        ChainReadsTable(m, desc, es[1..], limit - 1);
      }
    }
  }

  lemma ViewsFirst(es: seq<Entry>, n: nat)
    requires es != [] && 0 < n <= |es|
    ensures Views(es)[..n] == [es[0].View()] + Views(es[1..])[..n - 1]
  {
  }

  // ----- a read request

  /** A request header: its type and sector. */
  function Header(kind: nat, sector: nat): (b: ByteString)
    ensures |b| == 16
  {
    LeBytes(kind, 4) + Zeros(4) + LeBytes(sector, 8)
  }

  lemma HeaderParts(kind: nat, sector: nat)
    requires kind < 0x1_0000_0000 && sector < 0x1_0000_0000_0000_0000
    ensures var b := Header(kind, sector); Le(b[0..4]) == kind && Le(b[8..16]) == sector
  {
    hide LeBytes, Le, Pow256;
    Pow256Values();
    var b := Header(kind, sector);
    assert b[0..4] == LeBytes(kind, 4) && b[8..16] == LeBytes(sector, 8);
    LeRoundTrip(kind, 4);
    LeRoundTrip(sector, 8);
  }

  /** A chain of header, data buffers and status byte, short enough for the queue, asking to read from `sector` on. */
  ghost predicate ReadRequest(m: Memory, q: Queue, es: seq<Entry>, sector: nat) {
    && Disjoint(m) && 2 <= |es| <= q.limit && Linked(m, q.desc, es)
    && sector < 0x1_0000_0000_0000_0000 && Read(m, es[0].addr, 16) == Some(Header(0, sector))
  }

  /** The data buffers of a request. */
  function Data(es: seq<Entry>): seq<Desc>
    requires |es| >= 2
  {
    Views(es)[1..|es| - 1]
  }

  /** Serving a read request stores the disk's bytes from its sector on into its buffers, then the status byte. */
  lemma ReadRequestStores(m: Memory, disk: ByteString, q: Queue, es: seq<Entry>, sector: nat)
    requires ReadRequest(m, q, es, sector)
    ensures Service(m, disk, q, es[0].idx)
         == (ReadStores(disk, sector * 512, Data(es)) + [Store(es[|es| - 1].addr, [0])], (TotalLen(Data(es)) + 1) % 0x1_0000_0000)
  {
    hide Read, Disjoint, Linked, Header, Le, Chain, ReadStores, TotalLen;
    ChainReadsTable(m, q.desc, es, q.limit);
    assert Views(es)[..|es|] == Views(es);
    HeaderParts(0, sector);
  }

  ghost predicate BuffersHold(m: Memory, data: seq<Desc>, bytes: seq<ByteString>) {
    |bytes| == |data| && forall i :: 0 <= i < |data| ==> |bytes[i]| == data[i].len && Read(m, data[i].addr, data[i].len) == Some(bytes[i])
  }

  /** Buffers the device can fill one by one: mapped, not empty, apart from each other and from the status byte. */
  ghost predicate Fillable(m: Memory, es: seq<Entry>)
    requires |es| >= 2
  {
    && (forall i :: 1 <= i < |es| - 1 ==> es[i].len > 0 && Mapped(m, es[i].addr, es[i].len))
    && (forall i, j :: 1 <= i < j < |es| - 1 ==> Apart(es[j].addr, es[j].len, es[i].addr, es[i].len))
    && (forall i :: 1 <= i < |es| - 1 ==> Apart(es[|es| - 1].addr, 1, es[i].addr, es[i].len))
  }

  lemma {:induction false} StoreAt(disk: ByteString, off: nat, data: seq<Desc>, i: nat)
    requires i < |data|
    ensures var s := ReadStores(disk, off, data)[i]; s.addr == data[i].addr && |s.data| == data[i].len
    ensures ReadStores(disk, off, data)[i].data == StoredData(ReadStores(disk, off, data))[i]
    decreases |data|
  {
    var rest := ReadStores(disk, off + data[0].len, data[1..]);
    assert ReadStores(disk, off, data)[1..] == rest;
    if i > 0 {
      StoreAt(disk, off + data[0].len, data[1..], i - 1);
    }
  }

  lemma BufferLast(m: Memory, disk: ByteString, es: seq<Entry>, off: nat, i: nat)
    requires 2 <= |es| && Fillable(m, es) && i < |es| - 2
    ensures var stores := ReadStores(disk, off, Data(es)) + [Store(es[|es| - 1].addr, [0])];
            && LastWord(stores, i) && stores[i].addr == es[i + 1].addr && |stores[i].data| == es[i + 1].len
  {
    hide ReadStores, Apart, Mapped;
    var data := Data(es);
    var stores := ReadStores(disk, off, data) + [Store(es[|es| - 1].addr, [0])];
    StoreAt(disk, off, data, i);
    forall j | i < j < |stores|
      ensures Apart(stores[j].addr, |stores[j].data|, es[i + 1].addr, es[i + 1].len)
    {
      if j < |data| {
        StoreAt(disk, off, data, j);
        assert Apart(es[j + 1].addr, es[j + 1].len, es[i + 1].addr, es[i + 1].len);
      }
    }
    var later := stores[i + 1..];
    forall j | 0 <= j < |later|
      ensures Apart(later[j].addr, |later[j].data|, stores[i].addr, |stores[i].data|)
    {
      assert later[j] == stores[i + 1 + j];
    }
  }

  /**
   * A read request, served: the driver's buffers, joined in chain order, are the disk from the request's
   * sector on, zero past its end.
   */
  lemma ReadRequestDelivers(m: Memory, disk: ByteString, q: Queue, last: nat, es: seq<Entry>, sector: nat) returns (bytes: seq<ByteString>)
    requires Live(m, q) && ReadRequest(m, q, es, sector) && HeadAt(m, q, last) == es[0].idx
    requires Fillable(m, es) && Spares(q, Service(m, disk, q, es[0].idx).0)
    ensures BuffersHold(ServeOne(m, disk, q, last), Data(es), bytes)
    ensures Concat(bytes) == Padded(disk, sector * 512, TotalLen(Data(es)))
  {
    hide Live, ReadRequest, Service, ServeOne, Spares, ReadStores, Fillable, LastWord, Padded, Concat, TotalLen, Read;
    LiveNum(m, q);
    RequestShape(m, q, es, sector);
    var data, off := Data(es), sector * 512;
    var body := ReadStores(disk, off, data);
    var stores := body + [Store(es[|es| - 1].addr, [0])];
    ReadRequestStores(m, disk, q, es, sector);
    bytes := StoredData(body);
    forall i | 0 <= i < |data|
      ensures |bytes[i]| == data[i].len && Read(ServeOne(m, disk, q, last), data[i].addr, data[i].len) == Some(bytes[i])
    {
      StoreAt(disk, off, data, i);
      BufferLast(m, disk, es, off, i);
      BufferMapped(m, es, i);
      assert stores[i] == body[i];
      ServedBuffersHold(m, disk, q, last, i);
    }
    ReadIsFlat(disk, off, data);
  }

  lemma RequestShape(m: Memory, q: Queue, es: seq<Entry>, sector: nat)
    requires ReadRequest(m, q, es, sector)
    ensures |es| >= 2
  {
  }

  lemma BufferMapped(m: Memory, es: seq<Entry>, i: nat)
    requires |es| >= 2 && Fillable(m, es) && i < |es| - 2
    ensures es[i + 1].len > 0 && Mapped(m, es[i + 1].addr, es[i + 1].len)
    ensures Data(es)[i] == es[i + 1].View()
  {
    hide Mapped, Apart;
  }

  // ----- what the driver learns of a request

  /** The used ring's next entry names the chain and how much was stored, and the index has moved past it. */
  ghost predicate Reported(m: Memory, m': Memory, q: Queue, head: nat, len: nat)
    requires q.num > 0
  {
    var idx := ReadInt(m, q.used + 2, 2);
    && ReadInt(m', q.used + 4 + 8 * (idx % q.num), 4) == head && ReadInt(m', q.used + 4 + 8 * (idx % q.num) + 4, 4) == len
    && ReadInt(m', q.used + 2, 2) == (idx + 1) % IDX
  }

  lemma ServeReports(m: Memory, disk: ByteString, q: Queue, last: nat)
    requires Live(m, q) && HeadAt(m, q, last) < IDX && Spares(q, Service(m, disk, q, HeadAt(m, q, last)).0)
    requires Service(m, disk, q, HeadAt(m, q, last)).1 < 0x1_0000_0000
    ensures Reported(m, ServeOne(m, disk, q, last), q, HeadAt(m, q, last), Service(m, disk, q, HeadAt(m, q, last)).1)
  {
    hide Service, ApplyStores, PublishUsed, Live, ReadInt, SameRange, UsedSlot, AvailSlot, Spares;
    LiveNum(m, q);
    var head := HeadAt(m, q, last);
    var (stores, len) := Service(m, disk, q, head);
    var m1 := ApplyStores(m, stores);
    StoresSpare(m, q, stores);
    LiveSame(m, m1, q, q.used, UsedBytes(q));
    LiveReads(m, q);
    ReadSame(m, m1, q.used, UsedBytes(q), q.used + 2, 2);
    PublishStores(m1, q, head, len);
    SlotsAgree(q, ReadInt(m, q.used + 2, 2));
  }

  lemma LiveReads(m: Memory, q: Queue)
    requires Live(m, q)
    ensures Disjoint(m)
  {
  }

  /** A read request is reported with the bytes stored: its data and the status byte. */
  lemma ReadRequestReported(m: Memory, disk: ByteString, q: Queue, last: nat, es: seq<Entry>, sector: nat)
    requires Live(m, q) && ReadRequest(m, q, es, sector) && HeadAt(m, q, last) == es[0].idx
    requires Spares(q, Service(m, disk, q, es[0].idx).0)
    ensures Reported(m, ServeOne(m, disk, q, last), q, es[0].idx, (TotalLen(Data(es)) + 1) % 0x1_0000_0000)
  {
    hide Live, Service, ServeOne, Spares, TotalLen, Reported, Linked;
    FirstFits(m, q.desc, es);
    ReadRequestStores(m, disk, q, es, sector);
    ServeReports(m, disk, q, last);
  }

  lemma FirstFits(m: Memory, desc: nat, es: seq<Entry>)
    requires es != [] && Linked(m, desc, es)
    ensures es[0].idx < IDX
  {
    assert InTable(m, desc, es[0], Follower(es, 0));
  }

  /** A chain without a status byte, or whose header cannot be read, stores nothing and is reported with no bytes. */
  lemma BrokenRequestStores(m: Memory, disk: ByteString, q: Queue, es: seq<Entry>)
    requires Disjoint(m) && es != [] && |es| <= q.limit && Linked(m, q.desc, es)
    requires |es| == 1 || Read(m, es[0].addr, 16).None?
    ensures Service(m, disk, q, es[0].idx) == ([], 0)
  {
    hide Read, Linked, Le, Chain;
    ChainReadsTable(m, q.desc, es, q.limit);
    assert Views(es)[..|es|] == Views(es);
  }

  /** A table or ring that is not mapped reads as zeros. */
  lemma UnmappedReadsZero(m: Memory, a: nat, n: nat)
    requires !Mapped(m, a, n)
    ensures ReadInt(m, a, n) == 0
  {
  }

  /** A chain that asks to write its data buffers to the disk from `sector` on. */
  ghost predicate WriteRequest(m: Memory, q: Queue, es: seq<Entry>, sector: nat) {
    && Disjoint(m) && 2 <= |es| <= q.limit && Linked(m, q.desc, es)
    && sector < 0x1_0000_0000_0000_0000 && Read(m, es[0].addr, 16) == Some(Header(1, sector))
  }

  /** Serving a write request stores the status byte and nothing else: what it carries goes nowhere. */
  lemma WriteRequestStores(m: Memory, disk: ByteString, q: Queue, es: seq<Entry>, sector: nat)
    requires WriteRequest(m, q, es, sector)
    ensures Service(m, disk, q, es[0].idx) == ([Store(es[|es| - 1].addr, [0])], 1)
  {
    hide Read, Disjoint, Linked, Header, Le, Chain;
    ChainReadsTable(m, q.desc, es, q.limit);
    assert Views(es)[..|es|] == Views(es);
    HeaderParts(1, sector);
  }

  /** A write request is reported as done, with one byte stored: the status byte, which says that all went well. */
  lemma WriteRequestReported(m: Memory, disk: ByteString, q: Queue, last: nat, es: seq<Entry>, sector: nat)
    requires Live(m, q) && WriteRequest(m, q, es, sector) && HeadAt(m, q, last) == es[0].idx
    requires Spares(q, [Store(es[|es| - 1].addr, [0])]) && Mapped(m, es[|es| - 1].addr, 1)
    ensures Reported(m, ServeOne(m, disk, q, last), q, es[0].idx, 1)
    ensures Read(ServeOne(m, disk, q, last), es[|es| - 1].addr, 1) == Some([0])
  {
    hide Live, Service, ServeOne, Spares, Reported, Linked, Mapped, Read, Header;
    FirstFits(m, q.desc, es);
    WriteRequestStores(m, disk, q, es, sector);
    ServeReports(m, disk, q, last);
    LiveNum(m, q);
    var stores := [Store(es[|es| - 1].addr, [0])];
    assert stores[0 + 1..] == [];
    ServedBuffersHold(m, disk, q, last, 0);
  }
}
