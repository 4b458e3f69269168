/** No schedule paints a pull into a corner: while no worker has failed, every state can still complete. */
module DiskPullProgress {
  import opened Bytes
  import opened DiskFiles
  import opened LayerCaches
  import opened ZeroSkip
  import opened DiskPull
  import opened DiskPullTheorems

  ghost predicate NoneFailed(st: State) {
    forall i :: 0 <= i < |st.workers| ==> st.workers[i] != Failed
  }

  /** Every layer names the digest of its content. */
  ghost predicate Described(cfg: Config) {
    forall l :: l in cfg.layers ==> l.contentDigest.Some?
  }

  lemma RunCons(cfg: Config, st: State, e: Event, es: seq<Event>)
    requires WellFormed(cfg, st)
    ensures Run(cfg, st, [e] + es) == Run(cfg, Step(cfg, st, e), es)
  {
    hide Step, WellFormed;
    assert ([e] + es)[1..] == es;
  }

  lemma {:induction false} RunAppend(cfg: Config, st: State, es: seq<Event>, more: seq<Event>)
    requires WellFormed(cfg, st)
    ensures Run(cfg, st, es + more) == Run(cfg, Run(cfg, st, es), more)
    decreases |es|
  {
    hide Step, WellFormed;
    if es == [] {
      assert es + more == more;
    } else {
      assert (es + more)[1..] == es[1..] + more;
      RunAppend(cfg, Step(cfg, st, es[0]), es[1..], more);
    }
  }

  lemma RunNothing(cfg: Config, st: State)
    requires WellFormed(cfg, st)
    ensures Run(cfg, st, []) == st
  {
  }

  lemma InvFormed(cfg: Config, st: State)
    requires Inv(cfg, st)
    ensures WellFormed(cfg, st) && |st.workers| == |cfg.layers|
  {
  }

  /** One step of worker `i` replaces that worker only. */
  lemma StepOf(cfg: Config, st: State, i: nat, c: Choice)
    requires WellFormed(cfg, st) && i < |st.workers|
    requires st.workers[i].Writing? ==> st.workers[i].start <= |st.workers[i].data|
    ensures Step(cfg, st, Event(i, c)).workers == st.workers[i := WorkerStep(cfg, st.file, i, st.workers[i], c).1]
  {
    hide WorkerStep;
  }

  lemma ChunkAdvances(cfg: Config, st: State, i: nat, w: Worker)
    requires cfg.Valid() && Inv(cfg, st) && i < |st.workers| && w == st.workers[i] && w.Writing? && w.start < |w.data|
    ensures var n := |NextChunk(w.data, w.start)|;
            && 0 < n && w.start + n <= |w.data|
            && Step(cfg, st, Event(i, Chunk)).workers == st.workers[i := Writing(w.data, w.start + n)]
            && Inv(cfg, Step(cfg, st, Event(i, Chunk)))
  {
    assert WorkerOk(cfg, st.file, i, w);
    hide WorkerOk, WriteNext, Written, BaseOrTarget, OnlyInside, Offset, TargetOf, SizeOf;
    ChunkKeepsInv(cfg, st, i, w);
    ChunkKeepsWorker(cfg, st.file, i, w);
    ChunkStep(cfg, st, i);
    ChunkNonempty(w.data, w.start);
  }

  lemma ChunkNonempty(data: ByteString, start: nat)
    requires start < |data|
    ensures 0 < |NextChunk(data, start)|
  {
  }

  lemma {:induction false} FinishWriting(cfg: Config, st: State, i: nat, w: Worker) returns (es: seq<Event>)
    requires cfg.Valid() && Inv(cfg, st) && i < |st.workers| && w == st.workers[i]
    requires w.Writing? && w.start <= |w.data|
    ensures WellFormed(cfg, st) && Inv(cfg, Run(cfg, st, es)) && Run(cfg, st, es).workers == st.workers[i := Done]
    decreases |w.data| - w.start
  {
    hide Run, Inv, Step, WorkerOk, NextChunk;
    InvFormed(cfg, st);
    var st1 := Step(cfg, st, Event(i, Chunk));
    StepKeepsInv(cfg, st, Event(i, Chunk));
    if w.start == |w.data| {
      es := [Event(i, Chunk)];
      RunCons(cfg, st, Event(i, Chunk), []);
      RunNothing(cfg, st1);
      StepOf(cfg, st, i, Chunk);
      assert [Event(i, Chunk)] + [] == es;
    } else {
      ChunkAdvances(cfg, st, i, w);
      var rest := FinishWriting(cfg, st1, i, st1.workers[i]);
      RunCons(cfg, st, Event(i, Chunk), rest);
      es := [Event(i, Chunk)] + rest;
      assert st1.workers[i := Done] == st.workers[i := Done];
    }
  }

  /** A download that ends well leaves the content to be written. */
  lemma FinishFetches(cfg: Config, st: State, i: nat, w: Worker)
    requires cfg.Valid() && Inv(cfg, st) && i < |st.workers| && w == st.workers[i] && w.Fetching?
    ensures var w' := WorkerStep(cfg, st.file, i, w, Finish).1; w'.Writing? && w'.start == 0
  {
    assert WorkerOk(cfg, st.file, i, w);
    var blob := cfg.world.blob(cfg.layers[i].digest);
    assert w.received + blob[|w.received|..] == blob;
    assert cfg.layers[i] in cfg.layers;
  }

  lemma FinishFetching(cfg: Config, st: State, i: nat, w: Worker) returns (es: seq<Event>)
    requires cfg.Valid() && Inv(cfg, st) && i < |st.workers| && w == st.workers[i] && w.Fetching?
    ensures WellFormed(cfg, st) && Inv(cfg, Run(cfg, st, es)) && Run(cfg, st, es).workers == st.workers[i := Done]
  {
    hide Run, Inv, Step, WorkerStep;
    InvFormed(cfg, st);
    var st1 := Step(cfg, st, Event(i, Finish));
    StepKeepsInv(cfg, st, Event(i, Finish));
    StepOf(cfg, st, i, Finish);
    FinishFetches(cfg, st, i, w);
    var rest := FinishWriting(cfg, st1, i, st1.workers[i]);
    RunCons(cfg, st, Event(i, Finish), rest);
    es := [Event(i, Finish)] + rest;
    assert st1.workers[i := Done] == st.workers[i := Done];
  }

  lemma BeginGoesOn(cfg: Config, f: ByteString, i: nat)
    requires i < |cfg.layers| && Described(cfg)
    ensures var w := BeginLayer(cfg, f, i); w == Done || w.Fetching? || (w.Writing? && w.start == 0)
  {
    assert cfg.layers[i] in cfg.layers;
  }

  lemma FinishQueued(cfg: Config, st: State, i: nat) returns (es: seq<Event>)
    requires cfg.Valid() && Described(cfg) && Inv(cfg, st) && i < |st.workers| && st.workers[i] == Queued
    ensures WellFormed(cfg, st) && Inv(cfg, Run(cfg, st, es)) && Run(cfg, st, es).workers == st.workers[i := Done]
  {
    hide Run, Inv, Step, BeginLayer;
    InvFormed(cfg, st);
    var st1 := Step(cfg, st, Event(i, Begin));
    StepKeepsInv(cfg, st, Event(i, Begin));
    StepOf(cfg, st, i, Begin);
    BeginGoesOn(cfg, st.file, i);
    var rest: seq<Event> := [];
    if st1.workers[i].Fetching? {
      rest := FinishFetching(cfg, st1, i, st1.workers[i]);
    } else if st1.workers[i].Writing? {
      rest := FinishWriting(cfg, st1, i, st1.workers[i]);
    } else {
      RunNothing(cfg, st1);
    }
    RunCons(cfg, st, Event(i, Begin), rest);
    es := [Event(i, Begin)] + rest;
    assert st1.workers[i := Done] == st.workers[i := Done];
  }

  lemma WritingInBounds(cfg: Config, st: State, i: nat)
    requires WellFormed(cfg, st) && i < |st.workers| && st.workers[i].Writing?
    ensures st.workers[i].start <= |st.workers[i].data|
  {
  }

  lemma FinishWorker(cfg: Config, st: State, i: nat) returns (es: seq<Event>)
    requires cfg.Valid() && Described(cfg) && Inv(cfg, st) && i < |st.workers| && st.workers[i] != Failed
    ensures WellFormed(cfg, st) && Inv(cfg, Run(cfg, st, es)) && Run(cfg, st, es).workers == st.workers[i := Done]
  {
    hide Run, Inv, WellFormed;
    InvFormed(cfg, st);
    match st.workers[i]
    case Queued => es := FinishQueued(cfg, st, i);
    case Fetching(_, _) => es := FinishFetching(cfg, st, i, st.workers[i]);
    case Writing(_, _) =>
      WritingInBounds(cfg, st, i);
      es := FinishWriting(cfg, st, i, st.workers[i]);
    case Done =>
      es := [];
      RunNothing(cfg, st);
  }

  lemma {:induction false} FinishAll(cfg: Config, st: State, n: nat) returns (es: seq<Event>)
    requires cfg.Valid() && Described(cfg) && Inv(cfg, st) && NoneFailed(st) && n <= |st.workers|
    requires forall i :: 0 <= i < n ==> st.workers[i] == Done
    ensures WellFormed(cfg, st) && Run(cfg, st, es).Completed()
    decreases |st.workers| - n
  {
    hide Run, Inv, WellFormed;
    InvFormed(cfg, st);
    if n == |st.workers| {
      es := [];
      RunNothing(cfg, st);
    } else {
      var first := FinishWorker(cfg, st, n);
      var st1 := Run(cfg, st, first);
      var rest := FinishAll(cfg, st1, n + 1);
      es := first + rest;
      RunAppend(cfg, st, first, rest);
    }
  }

  /** From every state that any schedule reaches without a failure, some continuation completes the pull. */
  lemma CanFinish(cfg: Config, events: seq<Event>) returns (more: seq<Event>)
    requires cfg.Valid() && Described(cfg)
    requires NoneFailed(Run(cfg, Start(cfg), events))
    ensures Run(cfg, Start(cfg), events + more).Completed()
  {
    hide Run, Inv, Start, WellFormed;
    StartKeepsInv(cfg);
    RunKeepsInv(cfg, Start(cfg), events);
    more := FinishAll(cfg, Run(cfg, Start(cfg), events), 0);
    RunAppend(cfg, Start(cfg), events, more);
  }

  // ----- what a schedule may do to a worker

  function CutsOf(events: seq<Event>, i: nat): nat {
    if events == [] then 0
    else (if events[0] == Event(i, Cut) then 1 else 0) + CutsOf(events[1..], i)
  }

  /** No worker is aborted, and none is cut more than four times: five attempts are enough. */
  ghost predicate Survivable(events: seq<Event>) {
    && (forall e :: e in events ==> e.choice != Abort)
    && forall i: nat :: CutsOf(events, i) <= 4
  }

  function AttemptsOf(w: Worker): nat { if w.Fetching? then w.attempts else 0 }

  /** The rest of the schedule cuts no worker more often than its attempts allow. */
  ghost predicate Endures(st: State, events: seq<Event>) {
    && NoneFailed(st) && (forall e :: e in events ==> e.choice != Abort)
    && forall i :: 0 <= i < |st.workers| ==> AttemptsOf(st.workers[i]) + CutsOf(events, i) <= 4
  }

  /** Only an abort or a fifth cut makes a worker fail. */
  lemma StepSurvives(cfg: Config, st: State, i: nat, c: Choice)
    requires cfg.Valid() && Described(cfg) && Inv(cfg, st) && i < |st.workers| && st.workers[i] != Failed
    requires c != Abort && (c == Cut ==> AttemptsOf(st.workers[i]) < 4)
    ensures WellFormed(cfg, st) && (st.workers[i].Writing? ==> st.workers[i].start <= |st.workers[i].data|)
    ensures var w' := WorkerStep(cfg, st.file, i, st.workers[i], c).1;
            w' != Failed && AttemptsOf(w') <= AttemptsOf(st.workers[i]) + if c == Cut then 1 else 0
  {
    hide Inv, BeginLayer, FinishDownload, WriteNext, Receive;
    InvFormed(cfg, st);
    var w := st.workers[i];
    if w.Queued? {
      BeginGoesOn(cfg, st.file, i);
      BeginFresh(cfg, st.file, i);
    } else if w.Fetching? && c == Finish {
      FinishFetches(cfg, st, i, w);
    } else if w.Writing? {
      WritingInBounds(cfg, st, i);
      ChunkSurvives(cfg, st, i, w);
    }
  }

  lemma BeginFresh(cfg: Config, f: ByteString, i: nat)
    requires i < |cfg.layers|
    ensures AttemptsOf(BeginLayer(cfg, f, i)) == 0
  {
  }

  lemma ChunkSurvives(cfg: Config, st: State, i: nat, w: Worker)
    requires cfg.Valid() && Inv(cfg, st) && i < |st.workers| && w == st.workers[i] && w.Writing? && w.start <= |w.data|
    ensures var w' := WriteNext(cfg, st.file, i, w.data, w.start).1; w' == Done || w'.Writing?
  {
    hide Inv, NextChunk, ChunkWrite;
    InvFormed(cfg, st);
    if w.start < |w.data| {
      ChunkAdvances(cfg, st, i, w);
      StepOf(cfg, st, i, Chunk);
      var w' := WriteNext(cfg, st.file, i, w.data, w.start).1;
      assert st.workers[i := w'][i] == w' && Step(cfg, st, Event(i, Chunk)).workers[i].Writing?;
    }
  }

  lemma StepEndures(cfg: Config, st: State, events: seq<Event>)
    requires cfg.Valid() && Described(cfg) && Inv(cfg, st) && events != [] && Endures(st, events)
    ensures WellFormed(cfg, st) && Endures(Step(cfg, st, events[0]), events[1..])
  {
    hide Inv, WorkerStep;
    InvFormed(cfg, st);
    var Event(i, c) := events[0];
    if i < |st.workers| {
      assert c == Cut ==> CutsOf(events, i) > 0;
      StepSurvives(cfg, st, i, c);
      StepOf(cfg, st, i, c);
    }
  }

  lemma {:induction false} RunEndures(cfg: Config, st: State, events: seq<Event>)
    requires cfg.Valid() && Described(cfg) && Inv(cfg, st) && Endures(st, events)
    ensures WellFormed(cfg, st) && NoneFailed(Run(cfg, st, events))
    decreases |events|
  {
    hide Inv, Step;
    InvFormed(cfg, st);
    if events != [] {
      StepEndures(cfg, st, events);
      hide Endures;
      StepKeepsInv(cfg, st, events[0]);
      RunEndures(cfg, Step(cfg, st, events[0]), events[1..]);
    }
  }

  /** Whatever a survivable schedule has done so far, no worker has failed and some continuation completes the pull. */
  lemma CanComplete(cfg: Config, events: seq<Event>) returns (more: seq<Event>)
    requires cfg.Valid() && Described(cfg) && Survivable(events)
    ensures NoneFailed(Run(cfg, Start(cfg), events)) && Run(cfg, Start(cfg), events + more).Completed()
  {
    hide Inv, Run, Step;
    StartKeepsInv(cfg);
    assert Endures(Start(cfg), events);
    RunEndures(cfg, Start(cfg), events);
    more := CanFinish(cfg, events);
  }

  // ----- what no schedule completes

  lemma FailedStep(cfg: Config, st: State, i: nat, e: Event)
    requires WellFormed(cfg, st) && i < |st.workers| && st.workers[i] == Failed
    ensures Step(cfg, st, e).workers[i] == Failed
  {
    hide BeginLayer, FinishDownload, WriteNext, Receive;
  }

  /** A worker that has failed stays so, and the pull does not complete. */
  lemma {:induction false} FailureIsFinal(cfg: Config, st: State, i: nat, events: seq<Event>)
    requires WellFormed(cfg, st) && i < |st.workers| && st.workers[i] == Failed
    ensures i < |Run(cfg, st, events).workers| && Run(cfg, st, events).workers[i] == Failed && !Run(cfg, st, events).Completed()
    decreases |events|
  {
    hide Step;
    if events != [] {
      FailedStep(cfg, st, i, events[0]);
      FailureIsFinal(cfg, Step(cfg, st, events[0]), i, events[1..]);
    } else {
      assert st.workers[i] in st.workers;
    }
  }

  /** An abort, such as a failed write, fails a worker at work. */
  lemma AbortFails(cfg: Config, st: State, i: nat, events: seq<Event>)
    requires WellFormed(cfg, st) && i < |st.workers| && (st.workers[i].Fetching? || st.workers[i].Writing?)
    ensures !Run(cfg, Step(cfg, st, Event(i, Abort)), events).Completed()
  {
    hide Run;
    FailureIsFinal(cfg, Step(cfg, st, Event(i, Abort)), i, events);
  }

  lemma UndescribedStep(cfg: Config, st: State, i: nat, e: Event)
    requires WellFormed(cfg, st) && i < |st.workers| && st.workers[i] == Queued && cfg.layers[i].contentDigest.None?
    ensures Step(cfg, st, e).workers[i] == Queued || Step(cfg, st, e).workers[i] == Failed
  {
    hide FinishDownload, WriteNext, Receive;
  }

  lemma {:induction false} UndescribedRun(cfg: Config, st: State, i: nat, events: seq<Event>)
    requires WellFormed(cfg, st) && i < |st.workers| && st.workers[i] == Queued && cfg.layers[i].contentDigest.None?
    ensures !Run(cfg, st, events).Completed()
    decreases |events|
  {
    hide Step;
    if events == [] {
      assert st.workers[i] in st.workers;
    } else {
      var st1 := Step(cfg, st, events[0]);
      UndescribedStep(cfg, st, i, events[0]);
      if st1.workers[i] == Queued {
        UndescribedRun(cfg, st1, i, events[1..]);
      } else {
        FailureIsFinal(cfg, st1, i, events[1..]);
      }
    }
  }

  /** An image with a layer that does not name the digest of its content is not pulled, under any schedule. */
  lemma UndescribedNeverCompletes(cfg: Config, events: seq<Event>)
    requires !Described(cfg)
    ensures !Run(cfg, Start(cfg), events).Completed()
  {
    hide Run;
    var l :| l in cfg.layers && l.contentDigest.None?;
    var i :| 0 <= i < |cfg.layers| && cfg.layers[i] == l;
    UndescribedRun(cfg, Start(cfg), i, events);
  }

  // ----- one download, over any network

  /** Worker `i` alone, over a series of choices. */
  function WorkerRun(cfg: Config, f: ByteString, i: nat, w: Worker, cs: seq<Choice>): (r: (ByteString, Worker))
    requires i < |cfg.layers| && (w.Writing? ==> w.start <= |w.data|)
    decreases |cs|
  {
    if cs == [] then (f, w)
    else
      var (f1, w1) := WorkerStep(cfg, f, i, w, cs[0]);
      WorkerRun(cfg, f1, i, w1, cs[1..])
  }

  function CutCount(cs: seq<Choice>): nat {
    if cs == [] then 0 else (if cs[0] == Cut then 1 else 0) + CutCount(cs[1..])
  }

  /** Bytes that arrive and connections that break, in any order. */
  ghost predicate OnlyNetwork(cs: seq<Choice>) {
    forall c :: c in cs ==> c.Deliver? || c == Cut
  }

  lemma {:induction false} NetworkRun(cfg: Config, f: ByteString, i: nat, received: ByteString, attempts: nat, cs: seq<Choice>)
    requires cfg.Valid() && i < |cfg.layers| && OnlyNetwork(cs)
    requires received <= cfg.world.blob(cfg.layers[i].digest) && attempts <= 4
    ensures WorkerRun(cfg, f, i, Fetching(received, attempts), cs + [Finish]) ==
            (f, if attempts + CutCount(cs) < 5 then Writing(Content(cfg.world, cfg.layers[i]), 0) else Failed)
    decreases |cs|
  {
    hide FinishDownload, Content;
    if cs == [] {
      assert cs + [Finish] == [Finish];
      FinishGives(cfg, i, received);
    } else {
      var rest := cs[1..] + [Finish];
      assert (cs + [Finish])[1..] == rest && (cs + [Finish])[0] == cs[0];
      assert forall c :: c in cs[1..] ==> c in cs;
      assert cs[0] in cs;
      if cs[0].Deliver? {
        NetworkRun(cfg, f, i, Receive(cfg, i, received, cs[0].count), attempts, cs[1..]);
      } else if attempts < 4 {
        NetworkRun(cfg, f, i, received, attempts + 1, cs[1..]);
      } else {
        FailedForGood(cfg, f, i, rest);
      }
    }
  }

  lemma FinishGives(cfg: Config, i: nat, received: ByteString)
    requires cfg.Valid() && i < |cfg.layers| && received <= cfg.world.blob(cfg.layers[i].digest)
    ensures FinishDownload(cfg, i, received) == Writing(Content(cfg.world, cfg.layers[i]), 0)
  {
    var blob := cfg.world.blob(cfg.layers[i].digest);
    assert received + blob[|received|..] == blob;
    assert cfg.layers[i] in cfg.layers;
  }

  lemma {:induction false} FailedForGood(cfg: Config, f: ByteString, i: nat, cs: seq<Choice>)
    requires i < |cfg.layers|
    ensures WorkerRun(cfg, f, i, Failed, cs) == (f, Failed)
    decreases |cs|
  {
    if cs != [] {
      FailedForGood(cfg, f, i, cs[1..]);
    }
  }

  /**
   * A download that is cut goes on from the bytes it has: whatever arrives between the cuts, it ends with the
   * layer's content to write if it was cut fewer than five times, and fails otherwise.
   */
  lemma DownloadSurvivesCuts(cfg: Config, f: ByteString, i: nat, cs: seq<Choice>)
    requires cfg.Valid() && i < |cfg.layers| && OnlyNetwork(cs)
    ensures WorkerRun(cfg, f, i, Fetching([], 0), cs + [Finish]) ==
            (f, if CutCount(cs) < 5 then Writing(Content(cfg.world, cfg.layers[i]), 0) else Failed)
  {
    hide WorkerRun, Content;
    NetworkRun(cfg, f, i, [], 0, cs);
  }
}
