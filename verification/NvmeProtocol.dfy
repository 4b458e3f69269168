/** A host and the controller sharing one I/O queue pair: doorbells, completions and phase tags over any run. */
module NvmeProtocol {
  import opened Bytes
  import opened Endian
  import opened GuestMemory
  import opened NvmeTransfer
  import opened NvmeQueues
  import Modular

  /** An I/O queue pair: submission queue `q` and the completion queue it reports to. */
  datatype Pair = Pair(q: nat, sqBase: nat, sqSize: nat, cqid: nat, cqBase: nat, cqSize: nat) {
    function SqBytes(): nat { sqSize * SQES }
    function CqBytes(): nat { cqSize * CQES }
  }

  /** Both rings are created, mapped and apart. */
  ghost predicate Attached(n: Nvme, g: Pair) {
    && n.Valid() && Disjoint(n.mem)
    && 0 < g.q < MAX_QUEUES && g.cqid < MAX_QUEUES && 0 < g.sqSize && 0 < g.cqSize
    && n.sq[g.q].base == g.sqBase && n.sq[g.q].size == g.sqSize && n.sq[g.q].cqid == g.cqid
    && n.cq[g.cqid].base == g.cqBase && n.cq[g.cqid].size == g.cqSize
    && n.sq[g.q].head < g.sqSize && n.cq[g.cqid].tail < g.cqSize
    && Mapped(n.mem, g.sqBase, g.SqBytes()) && Mapped(n.mem, g.cqBase, g.CqBytes())
    && Apart(g.sqBase, g.SqBytes(), g.cqBase, g.CqBytes())
  }

  // ----- termination of the doorbell loop

  lemma LayoutKeepsMapped(m: Memory, m': Memory, gpa: nat, n: nat)
    requires SameLayout(m, m')
    ensures Mapped(m', gpa, n) == Mapped(m, gpa, n)
    ensures Disjoint(m) ==> Disjoint(m')
  {
    FindSameLayout(m, m', gpa, n, 0);
  }

  lemma SlotInRing(base: nat, size: nat, i: nat, width: nat)
    requires i < size && (width == SQES || width == CQES)
    ensures base <= base + i * width && base + i * width + width <= base + size * width
  {
  }

  lemma ServeKeepsAttached(n: Nvme, g: Pair, cmd: ByteString)
    requires Attached(n, g) && |cmd| == SQES
    ensures Attached(ServeCommand(n, g.q, cmd), g)
    ensures ServeCommand(n, g.q, cmd).sq[g.q].head == (n.sq[g.q].head + 1) % g.sqSize
  {
    hide ExecuteIO, ExecuteAdmin, Entry, Mapped, Disjoint, Write;
    var r := ServeCommand(n, g.q, cmd);
    LayoutKeepsMapped(n.mem, r.mem, g.sqBase, g.SqBytes());
    LayoutKeepsMapped(n.mem, r.mem, g.cqBase, g.CqBytes());
  }

  /** How many commands lie between the head and the tail of a ring. */
  function Pending(head: nat, tail: nat, size: nat): nat
    requires head < size && tail < size
  {
    if head <= tail then tail - head else tail + size - head
  }

  lemma PendingStep(head: nat, tail: nat, size: nat)
    requires head < size && tail < size && head != tail
    ensures Pending((head + 1) % size, tail, size) == Pending(head, tail, size) - 1
  {
    if head + 1 < size {
      Modular.Small(head + 1, size);
    } else {
      Modular.Unique(size, size, 1, 0);
    }
  }

  /** A created I/O submission queue over mapped memory; its completions may go anywhere, or nowhere. */
  ghost predicate SubmissionReady(n: Nvme, q: nat) {
    && n.Valid() && 0 < q < MAX_QUEUES && n.sq[q].head < n.sq[q].size
    && Mapped(n.mem, n.sq[q].base, n.sq[q].size * SQES)
  }

  lemma ReadyHead(n: Nvme, q: nat)
    requires SubmissionReady(n, q)
    ensures HeadCommand(n, q).Some? && |HeadCommand(n, q).value| == SQES
  {
    SlotInRing(n.sq[q].base, n.sq[q].size, n.sq[q].head, SQES);
    MappedPart(n.mem, n.sq[q].base, n.sq[q].size * SQES, n.sq[q].base + n.sq[q].head * SQES, SQES);
  }

  lemma ServeKeepsReady(n: Nvme, q: nat, cmd: ByteString)
    requires SubmissionReady(n, q) && |cmd| == SQES
    ensures var r := ServeCommand(n, q, cmd);
            && SubmissionReady(r, q) && r.sq[q].size == n.sq[q].size
            && r.sq[q].head == (n.sq[q].head + 1) % n.sq[q].size
  {
    hide Mapped, ServeCommand;
    var r := ServeCommand(n, q, cmd);
    LayoutKeepsMapped(n.mem, r.mem, n.sq[q].base, n.sq[q].size * SQES);
  }

  lemma {:induction false} InRangeTailStops(n: Nvme, q: nat, tail: nat, budget: nat)
    requires SubmissionReady(n, q) && tail < n.sq[q].size && Pending(n.sq[q].head, tail, n.sq[q].size) <= budget
    ensures RunSQ(n, q, tail, budget).1 && RunSQ(n, q, tail, budget).0.sq[q].head == tail
    decreases budget
  {
    hide ServeCommand, RunSQ, Mapped, HeadCommand;
    if n.sq[q].head != tail {
      ReadyHead(n, q);
      var cmd := HeadCommand(n, q).value;
      RunStep(n, q, tail, budget, cmd);
      ServeKeepsReady(n, q, cmd);
      PendingStep(n.sq[q].head, tail, n.sq[q].size);
      InRangeTailStops(ServeCommand(n, q, cmd), q, tail, budget - 1);
    } else {
      RunAtTail(n, q, budget);
    }
  }

  lemma {:induction false} OutOfRangeTailRuns(n: Nvme, q: nat, tail: nat, budget: nat)
    requires SubmissionReady(n, q) && tail >= n.sq[q].size
    ensures !RunSQ(n, q, tail, budget).1
    decreases budget
  {
    hide ServeCommand, HeadCommand, Mapped;
    ReadyHead(n, q);
    if budget > 0 {
      var cmd := HeadCommand(n, q).value;
      RunStep(n, q, tail, budget, cmd);
      ServeKeepsReady(n, q, cmd);
      OutOfRangeTailRuns(ServeCommand(n, q, cmd), q, tail, budget - 1);
    }
  }

  /** A doorbell on an I/O queue over mapped memory ends if and only if its tail is below the queue size. */
  lemma DoorbellEnds(n: Nvme, q: nat, tail: nat)
    requires SubmissionReady(n, q)
    ensures tail < n.sq[q].size <==> exists budget: nat :: RunSQ(n, q, tail, budget).1
  {
    hide RunSQ, Mapped;
    if tail < n.sq[q].size {
      InRangeTailStops(n, q, tail, n.sq[q].size);
    } else {
      forall budget: nat ensures !RunSQ(n, q, tail, budget).1 {
        OutOfRangeTailRuns(n, q, tail, budget);
      }
    }
  }

  // ----- one doorbell serves exactly the commands in the ring

  /** Where the `k`-th command ever submitted is stored. */
  function SqSlot(g: Pair, k: nat): nat
    requires g.sqSize > 0
  {
    g.sqBase + k % g.sqSize * SQES
  }

  /** Commands are 64 bytes and sit in successive slots, the first at slot `at % sqSize`. */
  ghost predicate InRing(m: Memory, g: Pair, at: nat, cmds: seq<ByteString>) {
    && g.sqSize > 0
    && forall i :: 0 <= i < |cmds| ==>
         Read(m, SqSlot(g, at + i), SQES) == Some(cmds[i])
  }

  /** The data of a read command goes to mapped pages that avoid both rings; other commands store nothing. */
  ghost predicate Clear(m: Memory, g: Pair, cmd: ByteString) {
    && |cmd| == SQES
    && (cmd[0] == 0x02 ==>
      var b := DataBuffer(cmd);
      && Described(m, b) && Separate(m, b)
      && forall k :: 0 <= k < b.total ==>
           !(g.sqBase <= Addr(m, b, k) < g.sqBase + g.SqBytes()) && !(g.cqBase <= Addr(m, b, k) < g.cqBase + g.CqBytes()))
  }

  function ServeAll(n: Nvme, q: nat, cmds: seq<ByteString>): (r: Nvme)
    requires n.Valid() && q < MAX_QUEUES && n.sq[q].size > 0
    requires forall c :: c in cmds ==> |c| == SQES
    ensures r.Valid() && r.sq[q].size > 0
    decreases |cmds|
  {
    if cmds == [] then n else ServeAll(ServeCommand(n, q, cmds[0]), q, cmds[1..])
  }

  /** Each command is clear when its turn comes. */
  ghost predicate AllClear(n: Nvme, g: Pair, cmds: seq<ByteString>)
    requires n.Valid() && g.q < MAX_QUEUES && n.sq[g.q].size > 0
    decreases |cmds|
  {
    cmds != [] ==> Clear(n.mem, g, cmds[0]) && AllClear(ServeCommand(n, g.q, cmds[0]), g, cmds[1..])
  }

  lemma {:induction false} AllClearSized(n: Nvme, g: Pair, cmds: seq<ByteString>)
    requires n.Valid() && g.q < MAX_QUEUES && n.sq[g.q].size > 0 && AllClear(n, g, cmds)
    ensures forall c :: c in cmds ==> |c| == SQES
    decreases |cmds|
  {
    if cmds != [] {
      AllClearSized(ServeCommand(n, g.q, cmds[0]), g, cmds[1..]);
    }
  }

  lemma ExecuteSparesRings(n: Nvme, g: Pair, cmd: ByteString)
    requires Attached(n, g) && Clear(n.mem, g, cmd)
    ensures var m' := ExecuteIO(n, cmd).mem;
            && Untouched(n.mem, m', g.sqBase, g.SqBytes())
            && Untouched(n.mem, m', g.cqBase, g.CqBytes())
  {
    hide Described, Separate, Transfer, DataBuffer, DiskOffset, Mapped, Disjoint;
    if cmd[0] == 0x02 {
      ReadScatters(n.mem, n.disk, DiskOffset(cmd), DataBuffer(cmd), 0);
    }
  }

  /** The tail slot of the completion queue. */
  function TailSlot(n: Nvme, g: Pair): nat
    requires n.Valid() && g.cqid < MAX_QUEUES
  {
    g.cqBase + n.cq[g.cqid].tail * CQES
  }

  /** The completion entry that answers `cmd`. */
  function Answer(n: Nvme, g: Pair, cmd: ByteString): (e: ByteString)
    requires n.Valid() && g.q < MAX_QUEUES && g.cqid < MAX_QUEUES && |cmd| == SQES
    ensures |e| == CQES
  {
    Entry(n.sq[g.q].head, g.q, CommandId(cmd), n.cq[g.cqid].phase)
  }

  lemma ServeMemory(n: Nvme, g: Pair, cmd: ByteString)
    requires Attached(n, g) && |cmd| == SQES
    ensures ServeCommand(n, g.q, cmd).mem == Write(ExecuteIO(n, cmd).mem, TailSlot(n, g), Answer(n, g, cmd))
    ensures SameLayout(n.mem, ServeCommand(n, g.q, cmd).mem) && Disjoint(ServeCommand(n, g.q, cmd).mem)
  {
    hide ExecuteIO, ExecuteAdmin, Entry, Mapped, Disjoint, Write;
    LayoutKeepsMapped(n.mem, ServeCommand(n, g.q, cmd).mem, 0, 0);
  }

  lemma TailSlotApart(n: Nvme, g: Pair)
    requires Attached(n, g)
    ensures Apart(TailSlot(n, g), CQES, g.sqBase, g.SqBytes())
  {
    SlotInRing(g.cqBase, g.cqSize, n.cq[g.cqid].tail, CQES);
  }

  /** Serving a clear command leaves the submission ring as it was. */
  lemma ServeSparesSubmissions(n: Nvme, g: Pair, cmd: ByteString)
    requires Attached(n, g) && Clear(n.mem, g, cmd)
    ensures Untouched(n.mem, ServeCommand(n, g.q, cmd).mem, g.sqBase, g.SqBytes())
  {
    ServeMemory(n, g, cmd);
    ExecuteSparesRings(n, g, cmd);
    TailSlotApart(n, g);
    var m1 := ExecuteIO(n, cmd).mem;
    LayoutKeepsMapped(n.mem, m1, 0, 0);
    WriteApart(m1, TailSlot(n, g), Answer(n, g, cmd), g.sqBase, g.SqBytes());
    UntouchedTrans(n.mem, m1, ServeCommand(n, g.q, cmd).mem, g.sqBase, g.SqBytes());
  }

  lemma UntouchedTrans(m: Memory, m1: Memory, m2: Memory, lo: nat, n: nat)
    requires Untouched(m, m1, lo, n) && Untouched(m1, m2, lo, n)
    ensures Untouched(m, m2, lo, n)
  {
  }

  lemma UntouchedKeepsInRing(m: Memory, m': Memory, g: Pair, at: nat, cmds: seq<ByteString>)
    requires SameLayout(m, m') && Disjoint(m) && Disjoint(m') && Untouched(m, m', g.sqBase, g.SqBytes())
    requires InRing(m, g, at, cmds)
    ensures InRing(m', g, at, cmds)
  {
    hide Read, Disjoint, Untouched, SameLayout;
    forall i | 0 <= i < |cmds|
      ensures Read(m', SqSlot(g, at + i), SQES) == Some(cmds[i])
    {
      var slot := (at + i) % g.sqSize;
      SlotInRing(g.sqBase, g.sqSize, slot, SQES);
      UntouchedRead(m, m', g.sqBase, g.SqBytes(), g.sqBase + slot * SQES, SQES);
    }
  }

  lemma InRingRest(m: Memory, g: Pair, at: nat, cmds: seq<ByteString>)
    requires cmds != [] && InRing(m, g, at, cmds)
    ensures InRing(m, g, at + 1, cmds[1..])
  {
    hide Read, SqSlot;
    forall i | 0 <= i < |cmds| - 1
      ensures Read(m, SqSlot(g, at + 1 + i), SQES) == Some(cmds[1..][i])
    {
      assert at + 1 + i == at + (i + 1);
      assert cmds[1..][i] == cmds[i + 1];
    }
  }

  lemma HeadIsFirst(n: Nvme, g: Pair, at: nat, cmds: seq<ByteString>)
    requires Attached(n, g) && n.sq[g.q].head == at % g.sqSize
    requires cmds != [] && InRing(n.mem, g, at, cmds)
    ensures HeadCommand(n, g.q) == Some(cmds[0])
  {
    assert (at + 0) % g.sqSize == at % g.sqSize;
  }

  /** Serving the first command leaves the others in the ring, the head standing before them. */
  lemma ServeFirst(n: Nvme, g: Pair, at: nat, cmds: seq<ByteString>)
    requires Attached(n, g) && n.sq[g.q].head == at % g.sqSize
    requires cmds != [] && InRing(n.mem, g, at, cmds) && Clear(n.mem, g, cmds[0])
    ensures InRing(ServeCommand(n, g.q, cmds[0]).mem, g, at + 1, cmds[1..])
    ensures ServeCommand(n, g.q, cmds[0]).sq[g.q].head == (at + 1) % g.sqSize
  {
    hide ServeCommand, InRing, Untouched, Mapped;
    ServeKeepsAttached(n, g, cmds[0]);
    ServeSparesSubmissions(n, g, cmds[0]);
    ServeMemory(n, g, cmds[0]);
    InRingRest(n.mem, g, at, cmds);
    UntouchedKeepsInRing(n.mem, ServeCommand(n, g.q, cmds[0]).mem, g, at + 1, cmds[1..]);
    Modular.AddMod(at, 1, g.sqSize);
  }

  /** A doorbell executes the commands between head and tail, each once and in ring order. */
  lemma {:induction false} DoorbellServesRing(n: Nvme, g: Pair, at: nat, cmds: seq<ByteString>, budget: nat)
    requires Attached(n, g) && n.sq[g.q].head == at % g.sqSize
    requires |cmds| < g.sqSize && |cmds| <= budget && InRing(n.mem, g, at, cmds) && AllClear(n, g, cmds)
    ensures forall c :: c in cmds ==> |c| == SQES
    ensures RunSQ(n, g.q, (at + |cmds|) % g.sqSize, budget) == (ServeAll(n, g.q, cmds), true)
    decreases |cmds|
  {
    hide ServeCommand, RunSQ, InRing, Clear, Mapped, Disjoint, HeadCommand;
    AllClearSized(n, g, cmds);
    if cmds == [] {
      assert (at + |cmds|) % g.sqSize == at % g.sqSize;
      RunAtTail(n, g.q, budget);
    } else {
      Modular.Distinct(at, at + |cmds|, g.sqSize);
      HeadIsFirst(n, g, at, cmds);
      RunStep(n, g.q, (at + |cmds|) % g.sqSize, budget, cmds[0]);
      ServeKeepsAttached(n, g, cmds[0]);
      ServeFirst(n, g, at, cmds);
      DoorbellServesRing(ServeCommand(n, g.q, cmds[0]), g, at + 1, cmds[1..], budget - 1);
      assert at + 1 + |cmds[1..]| == at + |cmds|;
    }
  }

  // ----- completions, as the host sees them

  /** The phase tag of the `k`-th completion ever posted: 1 on even laps of the ring, 0 on odd ones. */
  function PhaseOf(k: nat, size: nat): nat
    requires size > 0
  {
    if k / size % 2 == 0 then 1 else 0
  }

  /** A completion as a host decodes it (NVM Express 1.4, section 4.6); status zero is success. */
  datatype Completion = Completion(result: nat, sqid: nat, cid: nat, status: nat)

  function Decoded(e: ByteString): Completion
    requires |e| == CQES
  {
    Completion(Le(e[0..4]), Le(e[10..12]), Le(e[12..14]), Le(e[14..16]) / 2)
  }

  /** Command `cid` of this pair was completed successfully. */
  function Success(g: Pair, cid: nat): Completion { Completion(0, g.q, cid, 0) }

  function EntryPhase(e: ByteString): nat
    requires |e| == CQES
  {
    Le(e[14..16]) % 2
  }

  function Slot(m: Memory, g: Pair, i: nat): (r: Option<ByteString>)
    ensures r.Some? ==> |r.value| == CQES
  {
    Read(m, g.cqBase + i * CQES, CQES)
  }

  /** Slot `i` holds the successful completion of command `cid` with this phase tag. */
  ghost predicate Holds(m: Memory, g: Pair, i: nat, cid: nat, phase: nat) {
    var e := Slot(m, g, i);
    e.Some? && Decoded(e.value) == Success(g, cid) && EntryPhase(e.value) == phase
  }

  /** Slot `i` has not been written since the host cleared it. */
  ghost predicate Blank(m: Memory, g: Pair, i: nat) {
    var e := Slot(m, g, i);
    e.Some? && EntryPhase(e.value) == 0
  }

  /** The tail register after `t` completions. */
  ghost predicate TailAt(n: Nvme, g: Pair, t: nat)
    requires n.Valid() && g.cqid < MAX_QUEUES && g.cqSize > 0
  {
    n.cq[g.cqid].tail == t % g.cqSize && n.cq[g.cqid].phase == PhaseOf(t, g.cqSize)
  }

  /** The completion ring holds the last lap of completions; the rest of the first lap is blank. */
  ghost predicate RingHolds(m: Memory, g: Pair, cids: seq<nat>)
    requires g.cqSize > 0
  {
    && (forall k :: 0 <= k < |cids| && |cids| <= k + g.cqSize ==> Holds(m, g, k % g.cqSize, cids[k], PhaseOf(k, g.cqSize)))
    && (forall i :: |cids| <= i < g.cqSize ==> Blank(m, g, i))
  }

  /** A host that has consumed `c` completions looks at the next slot: its completion, if the phase tag is new. */
  function Poll(m: Memory, g: Pair, c: nat): Option<Completion>
    requires g.cqSize > 0
  {
    match Slot(m, g, c % g.cqSize)
    case Some(e) => if EntryPhase(e) == PhaseOf(c, g.cqSize) then Some(Decoded(e)) else None
    case None => None
  }

  /** Polling sees exactly the posted and not yet consumed completions, in order. */
  lemma PollReadsNext(m: Memory, g: Pair, cids: seq<nat>, c: nat)
    requires g.cqSize > 0 && RingHolds(m, g, cids)
    requires c <= |cids| <= c + g.cqSize
    ensures Poll(m, g, c) == if c < |cids| then Some(Success(g, cids[c])) else None
  {
    hide Read, Decoded, EntryPhase;
    if c < |cids| {
      assert Holds(m, g, c % g.cqSize, cids[c], PhaseOf(c, g.cqSize));
    } else if c < g.cqSize {
      Modular.Small(c, g.cqSize);
      assert Blank(m, g, c);
    } else {
      var k := c - g.cqSize;
      Modular.Lap(k, g.cqSize);
      assert Holds(m, g, k % g.cqSize, cids[k], PhaseOf(k, g.cqSize));
    }
  }

  lemma EntryParts(sqhead: nat, sqid: nat, cid: nat, phase: nat)
    ensures var e := Entry(sqhead, sqid, cid, phase);
            && e[0..4] == Zeros(4) && e[4..8] == Zeros(4) && e[8..10] == LeBytes(sqhead + 1, 2)
            && e[10..12] == LeBytes(sqid, 2) && e[12..14] == LeBytes(cid, 2) && e[14..16] == LeBytes(phase, 2)
  {
    hide LeBytes;
  }

  lemma {:induction false} LeZeros(n: nat)
    ensures Le(Zeros(n)) == 0
  {
    if n > 0 {
      assert Zeros(n)[1..] == Zeros(n - 1);
      LeZeros(n - 1);
    }
  }

  /** A completion entry: no result, the next head, queue and command, status zero and the phase in its lowest bit. */
  lemma EntryFields(sqhead: nat, sqid: nat, cid: nat, phase: nat)
    requires sqid < 0x1_0000 && cid < 0x1_0000 && phase <= 1
    ensures var e := Entry(sqhead, sqid, cid, phase);
            && (forall i :: 0 <= i < 8 ==> e[i] == 0) && Le(e[10..12]) == sqid && Le(e[12..14]) == cid && Le(e[14..16]) == phase
            && (sqhead + 1 < 0x1_0000 ==> Le(e[8..10]) == sqhead + 1)
            && Decoded(e) == Completion(0, sqid, cid, 0) && EntryPhase(e) == phase
  {
    var e := Entry(sqhead, sqid, cid, phase);
    assert forall i :: 0 <= i < 8 ==> e[i] == 0;
    hide LeBytes, Le, Pow256, Entry;
    Pow256Values();
    EntryParts(sqhead, sqid, cid, phase);
    LeZeros(4);
    LeRoundTrip(sqid, 2);
    LeRoundTrip(cid, 2);
    LeRoundTrip(phase, 2);
    if sqhead + 1 < 0x1_0000 {
      LeRoundTrip(sqhead + 1, 2);
    }
  }

  lemma SlotApart(g: Pair, i: nat, j: nat)
    requires i != j
    ensures Apart(g.cqBase + i * CQES, CQES, g.cqBase + j * CQES, CQES)
  {
  }

  /** Writing one slot of the ring leaves the others. */
  lemma PostKeepsSlot(m: Memory, g: Pair, i: nat, e: ByteString, j: nat)
    requires Disjoint(m) && i != j && |e| == CQES
    ensures Slot(Write(m, g.cqBase + i * CQES, e), g, j) == Slot(m, g, j)
  {
    SlotApart(g, i, j);
    WriteApart(m, g.cqBase + i * CQES, e, g.cqBase + j * CQES, CQES);
  }

  /** Posting at the tail slot extends what the ring holds by one completion. */
  lemma PostExtends(m: Memory, g: Pair, cids: seq<nat>, e: ByteString, cid: nat)
    requires Disjoint(m) && g.cqSize > 0 && Mapped(m, g.cqBase, g.CqBytes())
    requires RingHolds(m, g, cids)
    requires |e| == CQES && Decoded(e) == Success(g, cid) && EntryPhase(e) == PhaseOf(|cids|, g.cqSize)
    ensures RingHolds(Write(m, g.cqBase + |cids| % g.cqSize * CQES, e), g, cids + [cid])
  {
    hide Read, Write, Mapped, Disjoint, Decoded, EntryPhase;
    var t, size := |cids|, g.cqSize;
    var slot := t % size;
    var m' := Write(m, g.cqBase + slot * CQES, e);
    forall k | 0 <= k < t + 1 && t + 1 <= k + size
      ensures Holds(m', g, k % size, (cids + [cid])[k], PhaseOf(k, size))
    {
      if k == t {
        SlotInRing(g.cqBase, size, slot, CQES);
        MappedPart(m, g.cqBase, g.CqBytes(), g.cqBase + slot * CQES, CQES);
        WriteReadBack(m, g.cqBase + slot * CQES, e);
      } else {
        Modular.Distinct(k, t, size);
        PostKeepsSlot(m, g, slot, e, k % size);
        assert Holds(m, g, k % size, cids[k], PhaseOf(k, size));
      }
    }
    forall i | t + 1 <= i < size
      ensures Blank(m', g, i)
    {
      Modular.Small(t, size);
      PostKeepsSlot(m, g, slot, e, i);
      assert Blank(m, g, i);
    }
  }

  lemma UntouchedKeepsRing(m: Memory, m': Memory, g: Pair, cids: seq<nat>)
    requires SameLayout(m, m') && Disjoint(m) && Disjoint(m') && Untouched(m, m', g.cqBase, g.CqBytes())
    requires g.cqSize > 0 && RingHolds(m, g, cids)
    ensures RingHolds(m', g, cids)
  {
    hide Read, Mapped, Disjoint, Decoded, EntryPhase, SameLayout, Untouched, PhaseOf;
    forall i | 0 <= i < g.cqSize
      ensures Slot(m', g, i) == Slot(m, g, i)
    {
      SlotInRing(g.cqBase, g.cqSize, i, CQES);
      UntouchedRead(m, m', g.cqBase, g.CqBytes(), g.cqBase + i * CQES, CQES);
    }
    forall k | 0 <= k < |cids| && |cids| <= k + g.cqSize
      ensures Holds(m', g, k % g.cqSize, cids[k], PhaseOf(k, g.cqSize))
    {
      assert Holds(m, g, k % g.cqSize, cids[k], PhaseOf(k, g.cqSize));
    }
    forall i | |cids| <= i < g.cqSize ensures Blank(m', g, i) {
      assert Blank(m, g, i);
    }
  }

  /** The last of the first `n` completions that went into the slot of completion `c`. */
  function LastInSlot(c: nat, n: nat, size: nat): (k: nat)
    requires c < n && size > 0
    ensures c <= k < n
  {
    LastLap(n - 1 - c, size);
    c + (n - 1 - c) / size * size
  }

  lemma LastLap(d: nat, size: nat)
    requires size > 0
    ensures 0 <= d / size * size <= d < d / size * size + size
  {
  }

  lemma LastInSlotIs(c: nat, n: nat, size: nat)
    requires c < n && size > 0
    ensures var k, laps := LastInSlot(c, n, size), (n - 1 - c) / size;
            n <= k + size && k % size == c % size && k / size == c / size + laps && k == c + laps * size
  {
    var laps := (n - 1 - c) / size;
    LastLap(n - 1 - c, size);
    assert (c / size + laps) * size == c / size * size + laps * size;
    Modular.Unique(c + laps * size, size, c / size + laps, c % size);
  }

  lemma PhaseAfter(c: nat, k: nat, size: nat, laps: nat)
    requires size > 0 && k / size == c / size + laps
    ensures PhaseOf(k, size) == PhaseOf(c, size) <==> laps % 2 == 0
  {
  }

  /**
   * What a host reads that has consumed `c` completions, however many more were posted: the last one that went
   * into the slot, if an even number of laps lies in between, otherwise nothing.
   */
  lemma PollReads(m: Memory, g: Pair, cids: seq<nat>, c: nat)
    requires g.cqSize > 0 && RingHolds(m, g, cids) && c < |cids|
    ensures Poll(m, g, c) == if (|cids| - 1 - c) / g.cqSize % 2 == 0 then Some(Success(g, cids[LastInSlot(c, |cids|, g.cqSize)])) else None
  {
    hide Read, Decoded, EntryPhase, LastInSlot, PhaseOf;
    var size := g.cqSize;
    var k := LastInSlot(c, |cids|, size);
    LastInSlotIs(c, |cids|, size);
    PhaseAfter(c, k, size, (|cids| - 1 - c) / size);
    assert Holds(m, g, k % size, cids[k], PhaseOf(k, size));
  }

  /** No later completion carries the command id of completion `c`. */
  ghost predicate NotReused(cids: seq<nat>, c: nat) {
    forall j :: c < j < |cids| ==> cids[j] != cids[c]
  }

  /** While its command id is not used again, the next completion is read rightly if and only if no more are outstanding than slots. */
  lemma PollIsRight(m: Memory, g: Pair, cids: seq<nat>, c: nat)
    requires g.cqSize > 0 && RingHolds(m, g, cids) && c < |cids| && NotReused(cids, c)
    ensures Poll(m, g, c) == Some(Success(g, cids[c])) <==> |cids| <= c + g.cqSize
  {
    hide RingHolds, Poll, LastInSlot;
    PollReads(m, g, cids, c);
    LastInSlotIs(c, |cids|, g.cqSize);
    FirstLap(|cids| - 1 - c, g.cqSize);
  }

  lemma FirstLap(d: nat, size: nat)
    requires size > 0
    ensures d / size == 0 <==> d < size
    ensures d >= size ==> d / size * size >= size
  {
    LastLap(d, size);
    if d < size {
      Modular.Small(d, size);
    }
  }

  // ----- the controller's side of the completion ring

  lemma TailStep(n: Nvme, g: Pair, t: nat, cmd: ByteString)
    requires Attached(n, g) && TailAt(n, g, t) && |cmd| == SQES
    ensures ServeCommand(n, g.q, cmd).Valid() && TailAt(ServeCommand(n, g.q, cmd), g, t + 1)
  {
    hide ExecuteIO, ExecuteAdmin, Entry, Mapped, Disjoint, Write;
    Modular.Next(t, g.cqSize);
  }

  lemma ServeSparesCompletions(n: Nvme, g: Pair, cids: seq<nat>, cmd: ByteString)
    requires Attached(n, g) && Clear(n.mem, g, cmd) && RingHolds(n.mem, g, cids)
    ensures var m1 := ExecuteIO(n, cmd).mem;
            Disjoint(m1) && Mapped(m1, g.cqBase, g.CqBytes()) && RingHolds(m1, g, cids)
  {
    hide ExecuteIO, Clear, RingHolds, Mapped, Disjoint;
    assert |cmd| == SQES by { ClearSized(n.mem, g, cmd); }
    ExecuteSparesRings(n, g, cmd);
    var m1 := ExecuteIO(n, cmd).mem;
    LayoutKeepsMapped(n.mem, m1, g.cqBase, g.CqBytes());
    UntouchedKeepsRing(n.mem, m1, g, cids);
  }

  lemma ClearSized(m: Memory, g: Pair, cmd: ByteString)
    requires Clear(m, g, cmd)
    ensures |cmd| == SQES
  {
  }

  lemma FieldBound(b: ByteString)
    requires |b| == 2
    ensures Le(b) < 0x1_0000
  {
    assert b[1..][1..] == [];
    assert Le(b[1..]) == b[1] + 256 * Le([]);
  }

  lemma AnswerFields(n: Nvme, g: Pair, cmd: ByteString)
    requires Attached(n, g) && |cmd| == SQES && n.cq[g.cqid].phase <= 1
    ensures Decoded(Answer(n, g, cmd)) == Success(g, CommandId(cmd))
    ensures EntryPhase(Answer(n, g, cmd)) == n.cq[g.cqid].phase
  {
    FieldBound(cmd[2..4]);
    EntryFields(n.sq[g.q].head, g.q, CommandId(cmd), n.cq[g.cqid].phase);
  }

  /** The head a completion reports is the ring's next head exactly if that does not wrap to zero, or the field wraps with it. */
  lemma ReportedHead(n: Nvme, g: Pair, cmd: ByteString)
    requires Attached(n, g) && |cmd| == SQES && g.sqSize <= 0x1_0000
    ensures Le(Answer(n, g, cmd)[8..10]) == (n.sq[g.q].head + 1) % g.sqSize
       <==> n.sq[g.q].head + 1 < g.sqSize || g.sqSize == 0x1_0000
  {
    hide LeBytes, Le, Pow256, Entry;
    var head := n.sq[g.q].head;
    EntryParts(head, g.q, CommandId(cmd), n.cq[g.cqid].phase);
    Pow256Values();
    if head + 1 < 0x1_0000 {
      LeRoundTrip(head + 1, 2);
      NextHead(head, g.sqSize);
    } else {
      assert LeBytes(0x1_0000, 2) == Zeros(2) by { WrapsToZero(); }
      LeZeros(2);
    }
  }

  lemma NextHead(head: nat, size: nat)
    requires head < size
    ensures (head + 1) % size == if head + 1 < size then head + 1 else 0
  {
    if head + 1 < size {
      Modular.Small(head + 1, size);
    }
  }

  lemma WrapsToZero()
    ensures LeBytes(0x1_0000, 2) == Zeros(2)
  {
    assert LeBytes(0x100, 1) == [0] + LeBytes(1, 0);
    assert LeBytes(0x1_0000, 2) == [0] + LeBytes(0x100, 1);
  }

  /** Serving a command posts exactly its completion. */
  lemma ServePosts(n: Nvme, g: Pair, cids: seq<nat>, cmd: ByteString)
    requires Attached(n, g) && Clear(n.mem, g, cmd) && TailAt(n, g, |cids|) && RingHolds(n.mem, g, cids)
    ensures |cmd| == SQES && RingHolds(ServeCommand(n, g.q, cmd).mem, g, cids + [CommandId(cmd)])
  {
    hide ExecuteIO, ServeCommand, Clear, RingHolds, Mapped, Disjoint, Decoded, EntryPhase, CommandId, Answer;
    ClearSized(n.mem, g, cmd);
    ServeMemory(n, g, cmd);
    ServeSparesCompletions(n, g, cids, cmd);
    AnswerFields(n, g, cmd);
    PostExtends(ExecuteIO(n, cmd).mem, g, cids, Answer(n, g, cmd), CommandId(cmd));
  }

  function Ids(cmds: seq<ByteString>): (r: seq<nat>)
    requires forall c :: c in cmds ==> |c| == SQES
    ensures |r| == |cmds|
  {
    seq(|cmds|, i requires 0 <= i < |cmds| => CommandId(cmds[i]))
  }

  /** Where the controller stands after it has completed the commands `cids`, in that order. */
  ghost predicate Stands(n: Nvme, g: Pair, cids: seq<nat>) {
    && Attached(n, g) && n.sq[g.q].head == |cids| % g.sqSize
    && TailAt(n, g, |cids|) && RingHolds(n.mem, g, cids)
  }

  lemma ServeStands(n: Nvme, g: Pair, cids: seq<nat>, cmd: ByteString)
    requires Stands(n, g, cids) && Clear(n.mem, g, cmd)
    ensures |cmd| == SQES && Stands(ServeCommand(n, g.q, cmd), g, cids + [CommandId(cmd)])
  {
    hide ServeCommand, Clear, RingHolds, TailAt, CommandId, Mapped, Disjoint;
    ClearSized(n.mem, g, cmd);
    ServeKeepsAttached(n, g, cmd);
    TailStep(n, g, |cids|, cmd);
    ServePosts(n, g, cids, cmd);
    Modular.AddMod(|cids|, 1, g.sqSize);
  }

  /** Serving a batch completes each of its commands once, in order. */
  lemma {:induction false} BatchStands(n: Nvme, g: Pair, cids: seq<nat>, cmds: seq<ByteString>)
    requires Stands(n, g, cids) && AllClear(n, g, cmds)
    ensures forall c :: c in cmds ==> |c| == SQES
    ensures Stands(ServeAll(n, g.q, cmds), g, cids + Ids(cmds))
    decreases |cmds|
  {
    hide Stands, ServeCommand, Clear, CommandId, Ids, Attached;
    StandsAttached(n, g, cids);
    AllClearSized(n, g, cmds);
    if cmds == [] {
      assert cids + Ids(cmds) == cids;
    } else {
      IdsFirst(cmds);
      ServeStands(n, g, cids, cmds[0]);
      StandsAttached(ServeCommand(n, g.q, cmds[0]), g, cids + [CommandId(cmds[0])]);
      BatchStands(ServeCommand(n, g.q, cmds[0]), g, cids + [CommandId(cmds[0])], cmds[1..]);
      assert cids + [CommandId(cmds[0])] + Ids(cmds[1..]) == cids + ([CommandId(cmds[0])] + Ids(cmds[1..]));
    }
  }

  lemma IdsFirst(cmds: seq<ByteString>)
    requires cmds != [] && forall c :: c in cmds ==> |c| == SQES
    ensures Ids(cmds) == [CommandId(cmds[0])] + Ids(cmds[1..])
  {
    hide CommandId;
  }

  lemma StandsAttached(n: Nvme, g: Pair, cids: seq<nat>)
    requires Stands(n, g, cids)
    ensures Attached(n, g)
  {
  }
}
