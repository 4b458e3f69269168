/** Whole runs of a host driving an I/O queue pair: batches of commands, doorbells and polls. */
module NvmeLink {
  import opened Bytes
  import opened GuestMemory
  import opened NvmeTransfer
  import opened NvmeQueues
  import opened NvmeProtocol
  import Modular

  /** The controller, the ids of all commands submitted so far, and the completions the host has polled. */
  datatype Link = Link(dev: Nvme, sent: seq<nat>, received: seq<Completion>)

  datatype HostEvent =
    | Submit(cmds: seq<ByteString>)
    | PollOnce
    | HostStore(addr: nat, data: ByteString) // the host fills a data buffer or builds a PRP list

  /** The host stores commands into successive submission slots, the first at slot `at % sqSize`. */
  function PutCommands(m: Memory, g: Pair, at: nat, cmds: seq<ByteString>): Memory
    requires g.sqSize > 0
    decreases |cmds|
  {
    if cmds == [] then m
    else PutCommands(Write(m, SqSlot(g, at), cmds[0]), g, at + 1, cmds[1..])
  }

  function Stored(l: Link, g: Pair, cmds: seq<ByteString>): Nvme
    requires g.sqSize > 0
  {
    l.dev.(mem := PutCommands(l.dev.mem, g, |l.sent|, cmds))
  }

  function StepLink(l: Link, g: Pair, e: HostEvent): (r: Link)
    requires l.dev.Valid() && g.q < MAX_QUEUES && g.sqSize > 0 && g.cqSize > 0
    ensures r.dev.Valid()
  {
    match e
    case Submit(cmds) =>
      if exists c :: c in cmds && |c| != SQES then l
      else Link(RunSQ(Stored(l, g, cmds), g.q, (|l.sent| + |cmds|) % g.sqSize, g.sqSize).0, l.sent + Ids(cmds), l.received)
    case PollOnce =>
      (match Poll(l.dev.mem, g, |l.received|)
      case Some(done) => l.(received := l.received + [done])
      case None => l)
    case HostStore(a, d) => l.(dev := l.dev.(mem := Write(l.dev.mem, a, d)))
  }

  /** What the host must respect: room in both rings, data buffers that are mapped and clear of them, and no other store into them. */
  ghost predicate Legal(l: Link, g: Pair, e: HostEvent)
    requires l.dev.Valid() && 0 < g.sqSize && g.q < MAX_QUEUES && l.dev.sq[g.q].size > 0
  {
    match e
    case Submit(cmds) =>
      && |cmds| < g.sqSize
      && |l.sent| + |cmds| <= |l.received| + g.cqSize
      && (forall c :: c in cmds ==> |c| == SQES)
      && AllClear(Stored(l, g, cmds), g, cmds)
    case PollOnce => true
    case HostStore(a, d) => Apart(a, |d|, g.sqBase, g.SqBytes()) && Apart(a, |d|, g.cqBase, g.CqBytes())
  }

  function RunLink(l: Link, g: Pair, events: seq<HostEvent>): (r: Link)
    requires l.dev.Valid() && g.q < MAX_QUEUES && g.sqSize > 0 && g.cqSize > 0
    ensures r.dev.Valid()
    decreases |events|
  {
    if events == [] then l else RunLink(StepLink(l, g, events[0]), g, events[1..])
  }

  ghost predicate LegalRun(l: Link, g: Pair, events: seq<HostEvent>)
    requires l.dev.Valid() && g.q < MAX_QUEUES && g.sqSize > 0 && g.cqSize > 0
    decreases |events|
  {
    events != [] ==>
      l.dev.sq[g.q].size > 0 && Legal(l, g, events[0]) && LegalRun(StepLink(l, g, events[0]), g, events[1..])
  }

  /** One successful completion for each command, in order. */
  function Successes(g: Pair, cids: seq<nat>): (r: seq<Completion>)
    ensures |r| == |cids| && forall i :: 0 <= i < |r| ==> r[i] == Completion(0, g.q, cids[i], 0)
  {
    seq(|cids|, i requires 0 <= i < |cids| => Success(g, cids[i]))
  }

  /** Nothing is lost, repeated or reordered: the host has seen successful completions of a prefix of what was submitted. */
  ghost predicate InStep(l: Link, g: Pair) {
    && Stands(l.dev, g, l.sent)
    && l.received <= Successes(g, l.sent)
    && |l.sent| <= |l.received| + g.cqSize
  }

  lemma PutOne(m: Memory, g: Pair, at: nat, cmd: ByteString)
    requires Disjoint(m) && g.sqSize > 0 && |cmd| == SQES && Mapped(m, g.sqBase, g.SqBytes())
    requires Apart(g.sqBase, g.SqBytes(), g.cqBase, g.CqBytes())
    ensures var m' := Write(m, SqSlot(g, at), cmd);
            && SameLayout(m, m') && Disjoint(m')
            && Read(m', SqSlot(g, at), SQES) == Some(cmd)
            && Untouched(m, m', g.cqBase, g.CqBytes())
  {
    hide Read, Mapped, Disjoint, Write, Untouched;
    var slot := at % g.sqSize;
    SlotInRing(g.sqBase, g.sqSize, slot, SQES);
    MappedPart(m, g.sqBase, g.SqBytes(), g.sqBase + slot * SQES, SQES);
    WriteLayout(m, g.sqBase + slot * SQES, cmd);
    WriteReadBack(m, g.sqBase + slot * SQES, cmd);
    WriteApart(m, g.sqBase + slot * SQES, cmd, g.cqBase, g.CqBytes());
  }

  lemma SlotsApart(g: Pair, at: nat, k: nat)
    requires k < at < k + g.sqSize
    ensures Apart(SqSlot(g, at), SQES, SqSlot(g, k), SQES)
  {
    Modular.Distinct(k, at, g.sqSize);
  }

  /** Storing later commands leaves an earlier submission slot of the same lap alone. */
  lemma {:induction false} PutKeepsSlot(m: Memory, g: Pair, at: nat, cmds: seq<ByteString>, k: nat)
    requires Disjoint(m) && g.sqSize > 0 && (forall c :: c in cmds ==> |c| == SQES)
    requires k < at && at + |cmds| <= k + g.sqSize
    ensures Read(PutCommands(m, g, at, cmds), SqSlot(g, k), SQES) == Read(m, SqSlot(g, k), SQES)
    decreases |cmds|
  {
    hide Read, Disjoint, Write, SqSlot, Apart;
    if cmds != [] {
      SlotsApart(g, at, k);
      WriteApart(m, SqSlot(g, at), cmds[0], SqSlot(g, k), SQES);
      WriteLayout(m, SqSlot(g, at), cmds[0]);
      PutKeepsSlot(Write(m, SqSlot(g, at), cmds[0]), g, at + 1, cmds[1..], k);
    }
  }

  lemma {:induction false} PutFills(m: Memory, g: Pair, at: nat, cmds: seq<ByteString>)
    requires Disjoint(m) && g.sqSize > 0 && (forall c :: c in cmds ==> |c| == SQES) && |cmds| <= g.sqSize
    requires Mapped(m, g.sqBase, g.SqBytes()) && Apart(g.sqBase, g.SqBytes(), g.cqBase, g.CqBytes())
    ensures var m' := PutCommands(m, g, at, cmds);
            SameLayout(m, m') && Disjoint(m') && Untouched(m, m', g.cqBase, g.CqBytes()) && InRing(m', g, at, cmds)
    decreases |cmds|
  {
    hide Read, Mapped, Disjoint, Write, Untouched, InRing, SqSlot;
    if cmds == [] {
      EmptyInRing(m, g, at);
      UntouchedSelf(m, g.cqBase, g.CqBytes());
    } else {
      PutOne(m, g, at, cmds[0]);
      var m1 := Write(m, SqSlot(g, at), cmds[0]);
      LayoutKeepsMapped(m, m1, g.sqBase, g.SqBytes());
      PutFills(m1, g, at + 1, cmds[1..]);
      PutKeepsSlot(m1, g, at + 1, cmds[1..], at);
      var m' := PutCommands(m1, g, at + 1, cmds[1..]);
      UntouchedTrans(m, m1, m', g.cqBase, g.CqBytes());
      InRingCons(m', g, at, cmds);
    }
  }

  lemma EmptyInRing(m: Memory, g: Pair, at: nat)
    requires g.sqSize > 0
    ensures InRing(m, g, at, [])
  {
  }

  lemma UntouchedSelf(m: Memory, lo: nat, n: nat)
    ensures Untouched(m, m, lo, n)
  {
  }

  lemma InRingAt(m: Memory, g: Pair, at: nat, cmds: seq<ByteString>, i: nat)
    requires InRing(m, g, at, cmds) && i < |cmds|
    ensures Read(m, SqSlot(g, at + i), SQES) == Some(cmds[i])
  {
    hide Read, SqSlot;
  }

  lemma InRingCons(m: Memory, g: Pair, at: nat, cmds: seq<ByteString>)
    requires g.sqSize > 0 && cmds != [] && InRing(m, g, at + 1, cmds[1..])
    requires Read(m, SqSlot(g, at), SQES) == Some(cmds[0])
    ensures InRing(m, g, at, cmds)
  {
    hide Read, SqSlot;
    forall i | 0 <= i < |cmds|
      ensures Read(m, SqSlot(g, at + i), SQES) == Some(cmds[i])
    {
      if i > 0 {
        InRingAt(m, g, at + 1, cmds[1..], i - 1);
        assert cmds[i] == cmds[1..][i - 1];
        assert (at + 1) + (i - 1) == at + i;
      } else {
        assert at + i == at;
      }
    }
  }

  /** Storing a batch leaves the controller standing where it stood. */
  lemma StoredStands(l: Link, g: Pair, cmds: seq<ByteString>)
    requires Stands(l.dev, g, l.sent) && |cmds| < g.sqSize && (forall c :: c in cmds ==> |c| == SQES)
    ensures Stands(Stored(l, g, cmds), g, l.sent)
    ensures InRing(Stored(l, g, cmds).mem, g, |l.sent|, cmds)
  {
    hide PutCommands, RingHolds, InRing, Mapped, Disjoint, Untouched;
    var m := l.dev.mem;
    PutFills(m, g, |l.sent|, cmds);
    var m' := PutCommands(m, g, |l.sent|, cmds);
    LayoutKeepsMapped(m, m', g.sqBase, g.SqBytes());
    LayoutKeepsMapped(m, m', g.cqBase, g.CqBytes());
    UntouchedKeepsRing(m, m', g, l.sent);
  }

  /** Submitting a batch and ringing the doorbell: the controller serves exactly that batch, in order. */
  lemma SubmitServes(l: Link, g: Pair, cmds: seq<ByteString>)
    requires InStep(l, g) && Legal(l, g, Submit(cmds))
    ensures var r := StepLink(l, g, Submit(cmds));
            && r.dev == ServeAll(Stored(l, g, cmds), g.q, cmds)
            && Stands(r.dev, g, l.sent + Ids(cmds))
            && r.sent == l.sent + Ids(cmds) && r.received == l.received
  {
    hide Stands, InRing, AllClear, ServeAll, RunSQ, PutCommands;
    var n := Stored(l, g, cmds);
    StoredStands(l, g, cmds);
    assert Attached(n, g) && n.sq[g.q].head == |l.sent| % g.sqSize by { StandsHead(n, g, l.sent); }
    DoorbellServesRing(n, g, |l.sent|, cmds, g.sqSize);
    BatchStands(n, g, l.sent, cmds);
  }

  lemma StandsHead(n: Nvme, g: Pair, cids: seq<nat>)
    requires Stands(n, g, cids)
    ensures Attached(n, g) && n.sq[g.q].head == |cids| % g.sqSize && RingHolds(n.mem, g, cids)
  {
  }

  /** A store of the host outside both rings leaves the controller standing where it stood. */
  lemma StoreStands(n: Nvme, g: Pair, cids: seq<nat>, a: nat, d: ByteString)
    requires Stands(n, g, cids) && Apart(a, |d|, g.sqBase, g.SqBytes()) && Apart(a, |d|, g.cqBase, g.CqBytes())
    ensures Stands(n.(mem := Write(n.mem, a, d)), g, cids)
  {
    hide Write, RingHolds, Mapped, Disjoint, Untouched, Apart, TailAt;
    var m' := Write(n.mem, a, d);
    StandsHead(n, g, cids);
    WriteLayout(n.mem, a, d);
    WriteApart(n.mem, a, d, g.cqBase, g.CqBytes());
    UntouchedKeepsRing(n.mem, m', g, cids);
    TailSame(n, n.(mem := m'), g, |cids|);
  }

  lemma TailSame(n: Nvme, n': Nvme, g: Pair, t: nat)
    requires n.Valid() && g.cqid < MAX_QUEUES && g.cqSize > 0 && n' == n.(mem := n'.mem)
    ensures TailAt(n', g, t) == TailAt(n, g, t)
  {
  }

  lemma StepKeepsInStep(l: Link, g: Pair, e: HostEvent)
    requires InStep(l, g) && Legal(l, g, e)
    ensures InStep(StepLink(l, g, e), g)
  {
    hide Stands, AllClear, RunSQ, PutCommands, Poll, RingHolds, Apart, Write;
    match e
    case HostStore(a, d) => StoreStands(l.dev, g, l.sent, a, d);
    case Submit(cmds) =>
      SubmitServes(l, g, cmds);
      assert Successes(g, l.sent) <= Successes(g, l.sent + Ids(cmds));
    case PollOnce =>
      StandsHead(l.dev, g, l.sent);
      PollReadsNext(l.dev.mem, g, l.sent, |l.received|);
  }

  /**
   * Over every legal run, across any number of wraps of either ring, what the host has polled is
   * a prefix of what it submitted, and the controller stands behind all of it.
   */
  lemma {:induction false} RunKeepsInStep(l: Link, g: Pair, events: seq<HostEvent>)
    requires InStep(l, g) && LegalRun(l, g, events)
    ensures InStep(RunLink(l, g, events), g)
    decreases |events|
  {
    hide InStep, Legal, StepLink;
    assert l.dev.Valid() && 0 < g.sqSize && 0 < g.cqSize && g.q < MAX_QUEUES && l.dev.sq[g.q].size > 0 by { InStepSized(l, g); }
    if events != [] {
      StepKeepsInStep(l, g, events[0]);
      RunKeepsInStep(StepLink(l, g, events[0]), g, events[1..]);
    }
  }

  lemma InStepSized(l: Link, g: Pair)
    requires InStep(l, g)
    ensures Attached(l.dev, g)
  {
  }

  function Polls(n: nat): seq<HostEvent> {
    if n == 0 then [] else [PollOnce] + Polls(n - 1)
  }

  lemma PollStep(l: Link, g: Pair)
    requires InStep(l, g)
    ensures InStep(StepLink(l, g, PollOnce), g)
    ensures var r := StepLink(l, g, PollOnce);
            r.sent == l.sent && |r.received| == if |l.received| < |l.sent| then |l.received| + 1 else |l.received|
  {
    hide Stands, RingHolds, Poll, RunSQ, PutCommands;
    StepKeepsInStep(l, g, PollOnce);
    StandsHead(l.dev, g, l.sent);
    PollReadsNext(l.dev.mem, g, l.sent, |l.received|);
  }

  /** As many polls as there are outstanding completions deliver all of them. */
  lemma {:induction false} PollingCatchesUp(l: Link, g: Pair, n: nat)
    requires InStep(l, g) && |l.received| + n >= |l.sent|
    ensures Attached(l.dev, g) && LegalRun(l, g, Polls(n)) && RunLink(l, g, Polls(n)).received == Successes(g, l.sent)
    decreases n
  {
    hide Stands, StepLink;
    InStepSized(l, g);
    if n > 0 {
      PollStep(l, g);
      var l' := StepLink(l, g, PollOnce);
      PollingCatchesUp(l', g, n - 1);
      assert Polls(n)[1..] == Polls(n - 1);
      assert Legal(l, g, PollOnce);
      assert RunLink(l, g, Polls(n)) == RunLink(l', g, Polls(n - 1));
    } else {
      assert l.received == Successes(g, l.sent);
    }
  }

  /** A queue pair fresh from the Create commands, its completion ring cleared by the host, is in step. */
  lemma FreshPairInStep(n: Nvme, g: Pair)
    requires Attached(n, g) && n.sq[g.q].head == 0 && n.cq[g.cqid].tail == 0 && n.cq[g.cqid].phase == 1
    requires forall i :: 0 <= i < g.cqSize ==> Blank(n.mem, g, i)
    ensures InStep(Link(n, [], []), g)
  {
    Modular.Small(0, g.sqSize);
    Modular.Small(0, g.cqSize);
  }
}
