/** What the disk holds over whole runs of a queue pair: the last write to a byte stands, and a later read delivers it. */
module NvmeStorage {
  import opened Bytes
  import opened GuestMemory
  import opened NvmeTransfer
  import opened NvmeQueues
  import opened NvmeProtocol
  import opened NvmeLink

  /** A Write command whose blocks include disk byte `i`. */
  predicate WritesByte(cmd: ByteString, i: nat) {
    |cmd| == SQES && cmd[0] == 0x01 && DiskOffset(cmd) <= i < DiskOffset(cmd) + DataBuffer(cmd).total
  }

  predicate Sized(cmds: seq<ByteString>) {
    forall c :: c in cmds ==> |c| == SQES
  }

  ghost predicate NoneWrites(cmds: seq<ByteString>, i: nat) {
    forall c :: c in cmds ==> !WritesByte(c, i)
  }

  ghost predicate Spared(events: seq<HostEvent>, i: nat) {
    forall e :: e in events && e.Submit? ==> NoneWrites(e.cmds, i)
  }

  // ----- what no command writes stays

  lemma {:induction false} TransferSpares(m: Memory, disk: ByteString, off: nat, b: Buffer, done: nat, i: nat)
    requires i < |disk| && !(off + done <= i < off + b.total)
    ensures Transfer(m, disk, true, off, b, done).1[i] == disk[i]
    decreases b.total - done
  {
    hide PrpAddr, DiskStore, Read;
    if done < b.total {
      var gpa := PrpAddr(m, b, done);
      var chunk := ChunkAt(gpa, b, done);
      GatherSpares(m, gpa, chunk, disk, off + done, i);
      TransferSpares(m, Gather(m, gpa, chunk, disk, off + done), off, b, done + chunk, i);
    }
  }

  lemma GatherSpares(m: Memory, gpa: nat, chunk: nat, disk: ByteString, off: nat, i: nat)
    requires i < |disk| && !(off <= i < off + chunk)
    ensures Gather(m, gpa, chunk, disk, off)[i] == disk[i]
  {
  }

  lemma ExecuteSparesByte(n: Nvme, cmd: ByteString, i: nat)
    requires n.Valid() && |cmd| == SQES && i < |n.disk| && !WritesByte(cmd, i)
    ensures |ExecuteIO(n, cmd).disk| == |n.disk| && ExecuteIO(n, cmd).disk[i] == n.disk[i]
  {
    hide Transfer, DataBuffer, DiskOffset;
    if cmd[0] == 0x01 {
      TransferSpares(n.mem, n.disk, DiskOffset(cmd), DataBuffer(cmd), 0, i);
    } else {
      ReadKeepsDisk(n.mem, n.disk, DiskOffset(cmd), DataBuffer(cmd), 0);
    }
  }

  lemma ExecuteKeepsSize(n: Nvme, cmd: ByteString)
    requires n.Valid() && |cmd| == SQES
    ensures |ExecuteIO(n, cmd).disk| == |n.disk|
  {
    hide Transfer, DataBuffer, DiskOffset;
  }

  lemma ServeDisk(n: Nvme, q: nat, cmd: ByteString)
    requires n.Valid() && 0 < q < MAX_QUEUES && |cmd| == SQES && n.sq[q].size > 0
    ensures ServeCommand(n, q, cmd).disk == ExecuteIO(n, cmd).disk && |ExecuteIO(n, cmd).disk| == |n.disk|
  {
    hide ExecuteIO, ExecuteAdmin, CommandId;
    ExecuteKeepsSize(n, cmd);
  }

  lemma {:induction false} BatchSparesByte(n: Nvme, q: nat, cmds: seq<ByteString>, i: nat)
    requires n.Valid() && 0 < q < MAX_QUEUES && n.sq[q].size > 0 && Sized(cmds)
    requires i < |n.disk| && NoneWrites(cmds, i)
    ensures |ServeAll(n, q, cmds).disk| == |n.disk| && ServeAll(n, q, cmds).disk[i] == n.disk[i]
    decreases |cmds|
  {
    hide ServeCommand, WritesByte, ExecuteIO;
    if cmds != [] {
      ExecuteSparesByte(n, cmds[0], i);
      ServeDisk(n, q, cmds[0]);
      BatchSparesByte(ServeCommand(n, q, cmds[0]), q, cmds[1..], i);
    }
  }

  lemma StepSparesByte(l: Link, g: Pair, e: HostEvent, i: nat)
    requires InStep(l, g) && Legal(l, g, e) && i < |l.dev.disk| && (e.Submit? ==> NoneWrites(e.cmds, i))
    ensures |StepLink(l, g, e).dev.disk| == |l.dev.disk| && StepLink(l, g, e).dev.disk[i] == l.dev.disk[i]
  {
    hide Stands, RunSQ, ServeAll, AllClear, Poll, NoneWrites, PutCommands, Apart;
    InStepSized(l, g);
    match e
    case Submit(cmds) =>
      SubmitServes(l, g, cmds);
      BatchSparesByte(Stored(l, g, cmds), g.q, cmds, i);
    case PollOnce =>
    case HostStore(a, d) =>
  }

  /** Over any legal run, a disk byte that no submitted Write command covers keeps its value. */
  lemma {:induction false} RunSparesByte(l: Link, g: Pair, events: seq<HostEvent>, i: nat)
    requires InStep(l, g) && LegalRun(l, g, events) && i < |l.dev.disk| && Spared(events, i)
    ensures |RunLink(l, g, events).dev.disk| == |l.dev.disk| && RunLink(l, g, events).dev.disk[i] == l.dev.disk[i]
    decreases |events|
  {
    hide InStep, Legal, StepLink, NoneWrites;
    InStepSized(l, g);
    if events != [] {
      StepSparesByte(l, g, events[0], i);
      StepKeepsInStep(l, g, events[0]);
      RunSparesByte(StepLink(l, g, events[0]), g, events[1..], i);
    }
  }

  // ----- the last write to a byte stands

  /** A batch of commands, seen from one of them. */
  datatype Batch = Batch(before: seq<ByteString>, cmd: ByteString, after: seq<ByteString>) {
    function All(): seq<ByteString> { before + ([cmd] + after) }
  }

  /** The host may submit the batch where the link stands. */
  ghost predicate Submits(l: Link, g: Pair, b: Batch) {
    InStep(l, g) && Legal(l, g, Submit(b.All()))
  }

  /** After the batch the run goes on legally. */
  ghost predicate GoesOn(l: Link, g: Pair, b: Batch, later: seq<HostEvent>) {
    Submits(l, g, b) && LegalRun(StepLink(l, g, Submit(b.All())), g, later)
  }

  ghost function Later(l: Link, g: Pair, b: Batch, later: seq<HostEvent>): Link
    requires Submits(l, g, b)
  {
    RunLink(StepLink(l, g, Submit(b.All())), g, later)
  }

  /** The controller when the turn of the batch's command comes. */
  ghost function Turn(l: Link, g: Pair, b: Batch): (n: Nvme)
    requires Submits(l, g, b)
  {
    BatchSized(l, g, b);
    ServeAll(Stored(l, g, b.All()), g.q, b.before)
  }

  lemma BatchSized(l: Link, g: Pair, b: Batch)
    requires Submits(l, g, b)
    ensures Sized(b.before) && Sized(b.after) && Sized([b.cmd] + b.after) && |b.cmd| == SQES
    ensures l.dev.Valid() && 0 < g.q < MAX_QUEUES && g.sqSize > 0 && g.cqSize > 0 && l.dev.sq[g.q].size > 0
    ensures Stored(l, g, b.All()).Valid() && Stored(l, g, b.All()).sq == l.dev.sq && Stored(l, g, b.All()).disk == l.dev.disk
  {
    hide AllClear, RingHolds, TailAt, Mapped, Disjoint, PutCommands;
    forall c | c in b.before || c in b.after || c in [b.cmd] + b.after || c == b.cmd ensures |c| == SQES {
      assert c in b.All();
    }
  }

  lemma {:induction false} BatchJoin(n: Nvme, g: Pair, before: seq<ByteString>, rest: seq<ByteString>)
    requires n.Valid() && g.q < MAX_QUEUES && n.sq[g.q].size > 0 && Sized(before) && Sized(rest)
    requires AllClear(n, g, before + rest)
    ensures ServeAll(n, g.q, before + rest) == ServeAll(ServeAll(n, g.q, before), g.q, rest)
    ensures AllClear(ServeAll(n, g.q, before), g, rest) && AllClear(n, g, before)
    decreases |before|
  {
    hide ServeCommand, Clear;
    if before == [] {
      assert before + rest == rest;
    } else {
      assert (before + rest)[1..] == before[1..] + rest && (before + rest)[0] == before[0];
      BatchJoin(ServeCommand(n, g.q, before[0]), g, before[1..], rest);
    }
  }

  lemma TurnFirst(n: Nvme, g: Pair, w: ByteString, after: seq<ByteString>)
    requires n.Valid() && g.q < MAX_QUEUES && n.sq[g.q].size > 0 && Sized(after) && |w| == SQES
    requires AllClear(n, g, [w] + after) && Sized([w] + after)
    ensures Clear(n.mem, g, w) && ServeAll(n, g.q, [w] + after) == ServeAll(ServeCommand(n, g.q, w), g.q, after)
  {
    hide ServeCommand, Clear;
    assert ([w] + after)[0] == w && ([w] + after)[1..] == after;
  }

  lemma AttachedSized(n: Nvme, g: Pair)
    requires Attached(n, g)
    ensures n.Valid() && 0 < g.q < MAX_QUEUES && 0 < g.sqSize && 0 < g.cqSize && n.sq[g.q].size > 0
  {
  }

  lemma TurnAttached(n0: Nvme, g: Pair, sent: seq<nat>, before: seq<ByteString>)
    requires Stands(n0, g, sent) && n0.Valid() && 0 < g.q < MAX_QUEUES && n0.sq[g.q].size > 0
    requires Sized(before) && AllClear(n0, g, before)
    ensures Attached(ServeAll(n0, g.q, before), g)
  {
    hide ServeAll, AllClear, Stands, Attached, Ids;
    BatchStands(n0, g, sent, before);
    StandsAttached(ServeAll(n0, g.q, before), g, sent + Ids(before));
  }

  lemma {:induction false} BatchKeepsSize(n: Nvme, q: nat, cmds: seq<ByteString>)
    requires n.Valid() && 0 < q < MAX_QUEUES && n.sq[q].size > 0 && Sized(cmds)
    ensures |ServeAll(n, q, cmds).disk| == |n.disk|
    decreases |cmds|
  {
    hide ServeCommand, ExecuteIO;
    if cmds != [] {
      ServeDisk(n, q, cmds[0]);
      BatchKeepsSize(ServeCommand(n, q, cmds[0]), q, cmds[1..]);
    }
  }

  lemma SubmitsStored(l: Link, g: Pair, b: Batch)
    requires Submits(l, g, b)
    ensures l.dev.Valid() && 0 < g.q < MAX_QUEUES && g.sqSize > 0 && g.cqSize > 0 && l.dev.sq[g.q].size > 0
    ensures Sized(b.All()) && Stands(Stored(l, g, b.All()), g, l.sent) && AllClear(Stored(l, g, b.All()), g, b.All())
    ensures StepLink(l, g, Submit(b.All())).dev == ServeAll(Stored(l, g, b.All()), g.q, b.All())
  {
    hide RingHolds, TailAt, Mapped, Disjoint, PutCommands, ServeAll, RunSQ, AllClear;
    BatchSized(l, g, b);
    StoredStands(l, g, b.All());
    SubmitServes(l, g, b.All());
  }

  /** The turn of a command splits the batch: what comes before it, the command, what comes after. */
  lemma BatchTurn(l: Link, g: Pair, b: Batch)
    requires Submits(l, g, b)
    ensures Sized(b.after) && |b.cmd| == SQES
    ensures var n := Turn(l, g, b);
            && |n.disk| == |l.dev.disk| && Clear(n.mem, g, b.cmd) && Attached(n, g)
            && StepLink(l, g, Submit(b.All())).dev == ServeAll(ServeCommand(n, g.q, b.cmd), g.q, b.after)
  {
    hide InStep, Legal, Stands, StepLink, ServeAll, AllClear, Clear, Stored, ServeCommand, Attached;
    BatchSized(l, g, b);
    SubmitsStored(l, g, b);
    var n0, n := Stored(l, g, b.All()), Turn(l, g, b);
    assert n == ServeAll(n0, g.q, b.before);
    BatchJoin(n0, g, b.before, [b.cmd] + b.after);
    BatchKeepsSize(n0, g.q, b.before);
    TurnAttached(n0, g, l.sent, b.before);
    AttachedSized(n, g);
    TurnFirst(n, g, b.cmd, b.after);
  }

  /** The bytes of a Write command's buffer, as they are when its turn comes, land on the disk as far as its runs fit. */
  lemma ServeLands(n: Nvme, q: nat, w: ByteString, i: nat)
    requires n.Valid() && 0 < q < MAX_QUEUES && n.sq[q].size > 0 && WritesByte(w, i) && i < |n.disk|
    requires Described(n.mem, DataBuffer(w)) && DiskOffset(w) + RunEnd(DataBuffer(w), i - DiskOffset(w)) <= |n.disk|
    ensures |ServeCommand(n, q, w).disk| == |n.disk|
    ensures ServeCommand(n, q, w).disk[i] == GuestByte(n.mem, DataBuffer(w), i - DiskOffset(w))
  {
    hide Transfer, Described, GuestByte, RunEnd, ServeCommand, DataBuffer, DiskOffset;
    ServeDisk(n, q, w);
    WriteGathers(n.mem, n.disk, DiskOffset(w), DataBuffer(w), 0);
  }

  lemma GoesOnSteps(l: Link, g: Pair, b: Batch, later: seq<HostEvent>)
    requires GoesOn(l, g, b, later)
    ensures Submits(l, g, b) && l.dev.Valid() && g.q < MAX_QUEUES && g.sqSize > 0 && g.cqSize > 0
    ensures var l1 := StepLink(l, g, Submit(b.All()));
            InStep(l1, g) && LegalRun(l1, g, later) && Later(l, g, b, later) == RunLink(l1, g, later)
  {
    hide Stands, Legal, StepLink, LegalRun, RunLink;
    BatchSized(l, g, b);
    hide InStep;
    StepKeepsInStep(l, g, Submit(b.All()));
  }

  /** The batch's command is a Write whose buffer is described when its turn comes, and byte `i` is in a run of it that fits on the disk. */
  ghost predicate Lands(l: Link, g: Pair, b: Batch, i: nat)
    requires Submits(l, g, b)
  {
    && WritesByte(b.cmd, i) && Described(Turn(l, g, b).mem, DataBuffer(b.cmd))
    && DiskOffset(b.cmd) + RunEnd(DataBuffer(b.cmd), i - DiskOffset(b.cmd)) <= |l.dev.disk|
  }

  /**
   * Last write wins: if nothing later in the batch or in the run writes disk byte `i`, it holds the byte
   * that the Write command found in its buffer when its turn came.
   */
  lemma LastWriteStands(l: Link, g: Pair, b: Batch, later: seq<HostEvent>, i: nat)
    requires GoesOn(l, g, b, later) && Lands(l, g, b, i) && i < |l.dev.disk|
    requires NoneWrites(b.after, i) && Spared(later, i)
    ensures var disk := Later(l, g, b, later).dev.disk;
            |disk| == |l.dev.disk| && disk[i] == GuestByte(Turn(l, g, b).mem, DataBuffer(b.cmd), i - DiskOffset(b.cmd))
  {
    hide GoesOn, Submits, InStep, LegalRun, StepLink, RunLink, Later, Turn, NoneWrites, Spared, Described, RunEnd, GuestByte,
         ServeCommand, ServeAll, WritesByte, Attached, DataBuffer, DiskOffset;
    GoesOnSteps(l, g, b, later);
    var n := Turn(l, g, b);
    BatchTurn(l, g, b);
    AttachedSized(n, g);
    WritesSized(b.cmd, i);
    ServeLands(n, g.q, b.cmd, i);
    BatchSparesByte(ServeCommand(n, g.q, b.cmd), g.q, b.after, i);
    RunSparesByte(StepLink(l, g, Submit(b.All())), g, later, i);
  }

  lemma WritesSized(w: ByteString, i: nat)
    requires WritesByte(w, i)
    ensures |w| == SQES && DiskOffset(w) <= i
  {
  }

  // ----- a later read delivers it

  /** Posting the completion is invisible outside the completion ring. */
  lemma AnswerMisses(n: Nvme, g: Pair, r: ByteString, m1: Memory, a: nat)
    requires Attached(n, g) && SameLayout(n.mem, m1) && |r| == SQES && !(g.cqBase <= a < g.cqBase + g.CqBytes())
    ensures At(Write(m1, TailSlot(n, g), Answer(n, g, r)), a) == At(m1, a)
  {
    hide At, Write, Mapped, Disjoint, Answer;
    SlotInRing(g.cqBase, g.cqSize, n.cq[g.cqid].tail, CQES);
    LayoutKeepsMapped(n.mem, m1, TailSlot(n, g), CQES);
    MappedPart(n.mem, g.cqBase, g.CqBytes(), TailSlot(n, g), CQES);
    WriteByte(m1, TailSlot(n, g), Answer(n, g, r), a);
  }

  /** A Read command leaves the disk bytes, as they are when its turn comes, in its buffer. */
  lemma ServeDelivers(n: Nvme, g: Pair, r: ByteString, k: nat)
    requires Attached(n, g) && Clear(n.mem, g, r) && r[0] == 0x02 && k < DataBuffer(r).total
    ensures n.Valid() && g.q < MAX_QUEUES && n.sq[g.q].size > 0
    ensures At(ServeCommand(n, g.q, r).mem, Addr(n.mem, DataBuffer(r), k)) == Some(DiskByte(n.disk, DiskOffset(r) + k))
  {
    hide At, Write, Transfer, Described, Separate, Addr, Answer, TailSlot, DataBuffer, DiskOffset, Attached;
    AttachedSized(n, g);
    ServeMemory(n, g, r);
    ReadScatters(n.mem, n.disk, DiskOffset(r), DataBuffer(r), 0);
    AnswerMisses(n, g, r, ExecuteIO(n, r).mem, Addr(n.mem, DataBuffer(r), k));
  }

  /** A Read command at the end of a batch: its buffer holds what the disk held before the batch where the batch writes nothing. */
  lemma ReadDelivers(l: Link, g: Pair, b: Batch, k: nat)
    requires Submits(l, g, b) && b.after == [] && |b.cmd| == SQES && b.cmd[0] == 0x02 && k < DataBuffer(b.cmd).total
    requires DiskOffset(b.cmd) + k < |l.dev.disk| && NoneWrites(b.before, DiskOffset(b.cmd) + k)
    ensures At(Later(l, g, b, []).dev.mem, Addr(Turn(l, g, b).mem, DataBuffer(b.cmd), k)) == Some(l.dev.disk[DiskOffset(b.cmd) + k])
  {
    hide Submits, InStep, StepLink, At, Addr, ServeCommand, Attached, Clear, DataBuffer, DiskOffset, NoneWrites, Stored;
    BatchSized(l, g, b);
    BatchTurn(l, g, b);
    ServeDelivers(Turn(l, g, b), g, b.cmd, k);
    BatchSparesByte(Stored(l, g, b.All()), g.q, b.before, DiskOffset(b.cmd) + k);
  }

  predicate SameBlocks(w: ByteString, r: ByteString) {
    && |w| == |r| == SQES && w[0] == 0x01 && r[0] == 0x02
    && DiskOffset(w) == DiskOffset(r) && DataBuffer(w).total == DataBuffer(r).total
  }

  lemma LandsInside(l: Link, g: Pair, w: Batch, k: nat)
    requires Submits(l, g, w) && |w.cmd| == SQES && w.cmd[0] == 0x01 && k < DataBuffer(w.cmd).total
    requires DiskOffset(w.cmd) + DataBuffer(w.cmd).total <= |l.dev.disk| && Described(Turn(l, g, w).mem, DataBuffer(w.cmd))
    ensures Lands(l, g, w, DiskOffset(w.cmd) + k)
  {
    hide Submits, Turn, Described, DataBuffer, DiskOffset, RunEnd;
    RunEndsInside(DataBuffer(w.cmd));
  }

  /**
   * A Write command in one batch and, after any legal run that leaves its blocks alone, a Read command of them at
   * the end of another: the second buffer receives what the first one held when the Write command's turn came.
   */
  lemma WrittenIsReadBack(l: Link, g: Pair, w: Batch, later: seq<HostEvent>, r: Batch, k: nat)
    requires GoesOn(l, g, w, later) && Submits(Later(l, g, w, later), g, r) && r.after == []
    requires SameBlocks(w.cmd, r.cmd) && k < DataBuffer(w.cmd).total
    requires DiskOffset(w.cmd) + DataBuffer(w.cmd).total <= |l.dev.disk| && Described(Turn(l, g, w).mem, DataBuffer(w.cmd))
    requires var i := DiskOffset(w.cmd) + k;
             NoneWrites(w.after, i) && Spared(later, i) && NoneWrites(r.before, i)
    ensures var l2 := Later(l, g, w, later);
            At(Later(l2, g, r, []).dev.mem, Addr(Turn(l2, g, r).mem, DataBuffer(r.cmd), k))
            == Some(GuestByte(Turn(l, g, w).mem, DataBuffer(w.cmd), k))
  {
    hide GoesOn, Submits, Lands, Later, Turn, NoneWrites, Spared, Described, GuestByte, At, Addr, DataBuffer, DiskOffset,
         StepLink, RunLink, LegalRun, InStep, Legal;
    GoesOnSteps(l, g, w, later);
    LandsInside(l, g, w, k);
    LastWriteStands(l, g, w, later, DiskOffset(w.cmd) + k);
    ReadDelivers(Later(l, g, w, later), g, r, k);
  }
}
