/** What a clipboard policy promises over whole runs: one-way stays one-way, and only what it permits crosses. */
module ClipboardPolicies {
  import opened Bytes
  import opened Clipboard

  // ----- what a side shows under a policy

  predicate PermitsItem(p: Policy, x: Item) { x.format in p.formats && 1 <= |x.data| <= p.maxBytes }

  predicate PermitsFile(p: Policy, x: File) { p.files && |x.data| <= p.maxBytes }

  /** Nothing larger than the cap, nothing of a format or kind that is switched off, one item a format, and files alone. */
  ghost predicate Permits(p: Policy, x: Payload) {
    && (forall i :: 0 <= i < |x.items| ==> PermitsItem(p, x.items[i]))
    && (forall i, j :: 0 <= i < j < |x.items| ==> x.items[i].format != x.items[j].format)
    && (forall i :: 0 <= i < |x.files| ==> PermitsFile(p, x.files[i]))
    && (x.files == [] || x.items == [])
  }

  /** `picked` is what stands in `all` at the places `at`, in order. */
  ghost predicate Picks<T>(all: seq<T>, picked: seq<T>, at: seq<nat>) {
    && |at| == |picked|
    && (forall j :: 0 <= j < |at| ==> at[j] < |all| && picked[j] == all[at[j]])
    && forall i, j :: 0 <= i < j < |at| ==> at[i] < at[j]
  }

  /** A permitted item, and the first permitted one of its format. */
  ghost predicate FirstPermitted(p: Policy, items: seq<Item>, i: nat) {
    i < |items| && PermitsItem(p, items[i]) && forall j :: 0 <= j < i && PermitsItem(p, items[j]) ==> items[j].format != items[i].format
  }

  function ShiftUp(at: seq<nat>): (r: seq<nat>)
    ensures |r| == |at|
  {
    seq(|at|, i requires 0 <= i < |at| => at[i] + 1)
  }

  lemma PicksTail<T>(all: seq<T>, picked: seq<T>, at: seq<nat>)
    requires all != [] && Picks(all[1..], picked, at)
    ensures Picks(all, picked, ShiftUp(at)) && Picks(all, [all[0]] + picked, [0] + ShiftUp(at))
  {
  }

  lemma ShiftedIn(at: seq<nat>, i: nat)
    ensures i + 1 in ShiftUp(at) <==> i in at
    ensures 0 !in ShiftUp(at)
  {
    if i in at {
      var k :| 0 <= k < |at| && at[k] == i;
      assert ShiftUp(at)[k] == i + 1;
    }
  }

  /** What is left of the policy after an item: its format is used up if it was taken. */
  function After(p: Policy, x: Item): Policy {
    if PermitsItem(p, x) then p.(formats := p.formats - {x.format}) else p
  }

  lemma FilterItemsStep(p: Policy, items: seq<Item>)
    requires items != []
    ensures FilterItems(p, items) == (if PermitsItem(p, items[0]) then [items[0]] else []) + FilterItems(After(p, items[0]), items[1..])
  {
  }

  lemma FirstPermittedTail(p: Policy, items: seq<Item>, i: nat)
    requires items != []
    ensures FirstPermitted(p, items, i + 1) <==> FirstPermitted(After(p, items[0]), items[1..], i)
  {
    var rest := After(p, items[0]);
    if FirstPermitted(p, items, i + 1) {
      assert items[1..][i] == items[i + 1];
      forall j | 0 <= j < i && PermitsItem(rest, items[1..][j]) ensures items[1..][j].format != items[1..][i].format {
        assert items[1..][j] == items[j + 1] && PermitsItem(p, items[j + 1]);
      }
    }
    if FirstPermitted(rest, items[1..], i) {
      assert items[1..][i] == items[i + 1];
      forall j | 0 <= j < i + 1 && PermitsItem(p, items[j]) ensures items[j].format != items[i + 1].format {
        if j > 0 {
          assert items[1..][j - 1] == items[j];
        }
      }
    }
  }

  /** Exactly the first permitted item of each format is kept, in order. */
  lemma {:induction false} ItemsKept(p: Policy, items: seq<Item>) returns (at: seq<nat>)
    ensures Picks(items, FilterItems(p, items), at)
    ensures forall i: nat :: i in at <==> FirstPermitted(p, items, i)
    decreases |items|
  {
    hide Picks, FirstPermitted, FilterItems, After, PermitsItem;
    if items == [] {
      at := [];
      NoItems(p);
    } else {
      var first := PermitsItem(p, items[0]);
      var rest := ItemsKept(After(p, items[0]), items[1..]);
      at := (if first then [0] else []) + ShiftUp(rest);
      FilterItemsStep(p, items);
      PicksTail(items, FilterItems(After(p, items[0]), items[1..]), rest);
      assert [] + ShiftUp(rest) == ShiftUp(rest);
      assert [] + FilterItems(After(p, items[0]), items[1..]) == FilterItems(After(p, items[0]), items[1..]);
      forall i: nat ensures i in at <==> FirstPermitted(p, items, i) {
        FirstIsFirst(p, items);
        if i > 0 {
          FirstPermittedTail(p, items, i - 1);
          ShiftedIn(rest, i - 1);
        } else {
          ShiftedIn(rest, 0);
        }
      }
    }
  }

  lemma NoItems(p: Policy)
    ensures Picks<Item>([], FilterItems(p, []), []) && forall i: nat :: !FirstPermitted(p, [], i)
  {
  }

  lemma FirstIsFirst(p: Policy, items: seq<Item>)
    requires items != []
    ensures FirstPermitted(p, items, 0) <==> PermitsItem(p, items[0])
  {
  }

  /** Exactly the permitted files are kept, in order. */
  lemma {:induction false} FilesKept(p: Policy, files: seq<File>) returns (at: seq<nat>)
    ensures Picks(files, FilterFiles(p, files), at)
    ensures forall i: nat :: i in at <==> i < |files| && PermitsFile(p, files[i])
    decreases |files|
  {
    hide Picks;
    if files == [] {
      at := [];
      assert Picks<File>([], FilterFiles(p, []), []) by { NoFiles(p); }
    } else {
      var first := PermitsFile(p, files[0]);
      var rest := FilesKept(p, files[1..]);
      at := (if first then [0] else []) + ShiftUp(rest);
      PicksTail(files, FilterFiles(p, files[1..]), rest);
      assert [] + ShiftUp(rest) == ShiftUp(rest);
      forall i: nat ensures i in at <==> i < |files| && PermitsFile(p, files[i]) {
        if i > 0 {
          ShiftedIn(rest, i - 1);
        } else {
          ShiftedIn(rest, 0);
        }
      }
    }
  }

  lemma NoFiles(p: Policy)
    ensures Picks<File>([], FilterFiles(p, []), [])
  {
  }

  /**
   * What a side shows: the permitted files, in order; if there are none, the first permitted item of each
   * format, in order; nothing else.
   */
  lemma ShowsExactly(p: Policy, x: Payload) returns (files: seq<nat>, items: seq<nat>)
    ensures Picks(x.files, Visible(p, x).files, files) && forall i: nat :: i in files <==> i < |x.files| && PermitsFile(p, x.files[i])
    ensures files == [] ==> Picks(x.items, Visible(p, x).items, items) && forall i: nat :: i in items <==> FirstPermitted(p, x.items, i)
    ensures files != [] ==> Visible(p, x).items == []
  {
    hide FilterItems, FilterFiles, FirstPermitted, PermitsFile;
    files := FilesKept(p, x.files);
    items := ItemsKept(p, x.items);
  }

  lemma ShownIsPermitted(p: Policy, x: Payload)
    ensures Permits(p, Visible(p, x))
  {
    hide FilterItems, FilterFiles, PermitsFile, PermitsItem;
    var files, items := ShowsExactly(p, x);
    var y := Visible(p, x);
    forall i | 0 <= i < |y.files| ensures PermitsFile(p, y.files[i]) {
      assert files[i] in files;
    }
    forall i | 0 <= i < |y.items| ensures PermitsItem(p, y.items[i]) {
      assert items[i] in items;
    }
    forall i, j | 0 <= i < j < |y.items| ensures y.items[i].format != y.items[j].format {
      assert items[i] in items && items[j] in items;
    }
  }

  // ----- the policy in force

  /** The policy the next cycle works under: a requested one before the present one. */
  function InForce(s: State): Policy { match s.pending case Some(p) => p case None => s.policy }

  /** Of every policy in force during the run, `ok` holds. */
  ghost predicate Throughout(s: State, events: seq<Event>, ok: Policy -> bool) {
    ok(InForce(s)) && forall e :: e in events && e.SetPolicy? ==> ok(e.policy)
  }

  lemma GuestPhasePolicy(s: State, c: Cycle)
    ensures GuestPhase(s, c).policy == s.policy && GuestPhase(s, c).pending == s.pending
  {
    hide Visible, AfterApply;
  }

  lemma CyclePolicy(s: State, c: Cycle)
    ensures Sync(s, c).policy == InForce(s) && Sync(s, c).pending == None && ApplyPendingPolicy(s).policy == InForce(s)
  {
    hide HostPhase, GuestPhase;
    HostPhaseKeeps(Connect(ApplyPendingPolicy(s)), c);
    GuestPhasePolicy(FirstHalf(s, c).0, c);
  }

  lemma StepThroughout(s: State, events: seq<Event>, ok: Policy -> bool)
    requires events != [] && Throughout(s, events, ok)
    ensures Throughout(Step(s, events[0]), events[1..], ok)
  {
    hide Sync;
    assert events[0] in events;
    if events[0].RunCycle? {
      CyclePolicy(s, events[0].cycle);
    }
  }

  // ----- only what is permitted crosses

  /** What a step added to the log was shown by its source, and is permitted by the policy in force. */
  ghost predicate AddsPermitted(s: State, s': State) {
    && s.log <= s'.log
    && forall i :: |s.log| <= i < |s'.log| ==> Permits(InForce(s), s'.log[i].payload) && !s'.log[i].payload.Empty()
  }

  ghost predicate CrossesPermitted(s: State, events: seq<Event>)
    decreases |events|
  {
    events != [] ==> AddsPermitted(s, Step(s, events[0])) && CrossesPermitted(Step(s, events[0]), events[1..])
  }

  lemma HostPhaseAdds(s: State, c: Cycle)
    ensures var (s', pushed) := HostPhase(s, c);
            s'.log == s.log || exists x :: s'.log == s.log + [ToGuest(Visible(s.policy, x))] && !Visible(s.policy, x).Empty()
    ensures HostPhase(s, c).0.policy == s.policy && HostPhase(s, c).0.pending == s.pending
  {
    hide Visible;
    var x := s.host.Maybe(c.copyBeforeCapture).content;
    assert HostPhase(s, c).0.log == s.log || HostPhase(s, c).0.log == s.log + [ToGuest(Visible(s.policy, x))];
  }

  lemma GuestPhaseAdds(s: State, c: Cycle)
    ensures var s' := GuestPhase(s, c);
            s'.log == s.log || exists x :: s'.log == s.log + [ToHost(Visible(s.policy, x))] && !Visible(s.policy, x).Empty()
  {
    hide Visible;
    var x := s.guest.Maybe(c.copyBeforeFetch).content;
    assert GuestPhase(s, c).log == s.log || GuestPhase(s, c).log == s.log + [ToHost(Visible(s.policy, x))];
  }

  lemma StepAddsPermitted(s: State, e: Event)
    ensures AddsPermitted(s, Step(s, e))
  {
    hide Visible, HostPhase, GuestPhase, Permits;
    if e.RunCycle? {
      var s1 := Connect(ApplyPendingPolicy(s));
      HostPhaseAdds(s1, e.cycle);
      var (s3, more) := FirstHalf(s, e.cycle);
      GuestPhaseAdds(s3, e.cycle);
      forall x ensures Permits(InForce(s), Visible(InForce(s), x)) {
        ShownIsPermitted(InForce(s), x);
      }
      CyclePolicy(s, e.cycle);
    }
  }

  /** Over every run, whatever crosses is permitted by the policy in force when it crosses: by format, kind, size and number. */
  lemma {:induction false} RunCrossesPermitted(s: State, events: seq<Event>)
    ensures CrossesPermitted(s, events)
    decreases |events|
  {
    hide AddsPermitted, Step;
    if events != [] {
      StepAddsPermitted(s, events[0]);
      RunCrossesPermitted(Step(s, events[0]), events[1..]);
    }
  }

  // ----- one way only

  /** Switched off, or from guest to host only. */
  predicate NeverToGuest(p: Policy) { !p.enabled || p.direction == Disabled || p.direction == GuestToHost }

  /** Switched off, or from host to guest only. */
  predicate NeverToHost(p: Policy) { !p.enabled || p.direction == Disabled || p.direction == HostToGuest }

  /** What users may copy on either side during a step. */
  function GuestCopies(e: Event): Option<Payload> {
    match e case GuestCopy(x) => Some(x) case RunCycle(c) => c.copyBeforeFetch case _ => None
  }

  /** The guest board is as it was, or shows what a user copied there, and nothing was sent to it. */
  ghost predicate GuestAlone(s: State, s': State, e: Event) {
    && (s'.guest == s.guest || (GuestCopies(e).Some? && s'.guest == Board(s.guest.count + 1, GuestCopies(e).value)))
    && s.log <= s'.log && forall i :: |s.log| <= i < |s'.log| ==> s'.log[i].ToHost?
  }

  /** Likewise for the host; a cycle gives users two moments to copy. */
  ghost predicate HostAlone(s: State, s': State, e: Event) {
    && (s'.host == s.host || exists x, y :: HostCopies(e, x, y) && s'.host == s.host.Maybe(x).Maybe(y))
    && s.log <= s'.log && forall i :: |s.log| <= i < |s'.log| ==> s'.log[i].ToGuest?
  }

  ghost predicate HostCopies(e: Event, x: Option<Payload>, y: Option<Payload>) {
    match e
    case HostCopy(z) => x == Some(z) && y == None
    case RunCycle(c) => (x == c.copyBeforeCapture || x == None) && (y == c.copyOnHost || y == None)
    case _ => false
  }

  ghost predicate GuestAloneThroughout(s: State, events: seq<Event>)
    decreases |events|
  {
    events != [] ==> GuestAlone(s, Step(s, events[0]), events[0]) && GuestAloneThroughout(Step(s, events[0]), events[1..])
  }

  ghost predicate HostAloneThroughout(s: State, events: seq<Event>)
    decreases |events|
  {
    events != [] ==> HostAlone(s, Step(s, events[0]), events[0]) && HostAloneThroughout(Step(s, events[0]), events[1..])
  }

  lemma GuestPhaseBoard(s: State, c: Cycle)
    ensures var s' := GuestPhase(s, c);
            && (s'.guest == s.guest || s'.guest == s.guest.Maybe(c.copyBeforeFetch))
            && (s'.log == s.log || (|s'.log| == |s.log| + 1 && s.log <= s'.log && s'.log[|s.log|].ToHost?))
  {
    hide Visible, AfterApply;
  }

  lemma NothingToSend(s: State, c: Cycle)
    requires NeverToGuest(InForce(s))
    ensures FirstHalf(s, c).0.guest == s.guest && FirstHalf(s, c).0.log == s.log
  {
    hide Visible, Push;
  }

  lemma StepGuestAlone(s: State, e: Event)
    requires NeverToGuest(InForce(s))
    ensures GuestAlone(s, Step(s, e), e)
  {
    hide NeverToGuest, FirstHalf, GuestPhase;
    if e.RunCycle? {
      NothingToSend(s, e.cycle);
      GuestPhaseBoard(FirstHalf(s, e.cycle).0, e.cycle);
    }
  }

  lemma StepHostAlone(s: State, e: Event)
    requires NeverToHost(InForce(s))
    ensures HostAlone(s, Step(s, e), e)
  {
    hide Visible;
    match e
    case HostCopy(z) => assert HostCopies(e, Some(z), None) && s.host.Maybe(Some(z)).Maybe(None) == s.host.Put(z);
    case RunCycle(c) =>
      CyclePolicy(s, c);
      HostPhaseBoard(Connect(ApplyPendingPolicy(s)), c);
      var s2 := HostPhase(Connect(ApplyPendingPolicy(s)), c).0;
      var x := if s2.host == s.host then None else c.copyBeforeCapture;
      assert HostCopies(e, x, c.copyOnHost) && HostCopies(e, None, None);
    case _ =>
  }

  lemma HostPhaseBoard(s: State, c: Cycle)
    ensures var s' := HostPhase(s, c).0;
            && (s'.host == s.host || s'.host == s.host.Maybe(c.copyBeforeCapture)) && s'.policy == s.policy
            && s.log <= s'.log && (s'.log == s.log || (|s'.log| == |s.log| + 1 && s'.log[|s.log|].ToGuest?))
  {
    hide Visible;
  }

  /** While no policy in force lets the host send, nothing is sent to the guest, whose board only its users change. */
  lemma {:induction false} RunLeavesGuestAlone(s: State, events: seq<Event>)
    requires Throughout(s, events, NeverToGuest)
    ensures GuestAloneThroughout(s, events)
    decreases |events|
  {
    hide Step, GuestAlone, NeverToGuest;
    if events != [] {
      StepGuestAlone(s, events[0]);
      StepThroughout(s, events, NeverToGuest);
      RunLeavesGuestAlone(Step(s, events[0]), events[1..]);
    }
  }

  /** While no policy in force lets the guest send, nothing is sent to the host, whose board only its users change. */
  lemma {:induction false} RunLeavesHostAlone(s: State, events: seq<Event>)
    requires Throughout(s, events, NeverToHost)
    ensures HostAloneThroughout(s, events)
    decreases |events|
  {
    hide Step, HostAlone, NeverToHost;
    if events != [] {
      StepHostAlone(s, events[0]);
      StepThroughout(s, events, NeverToHost);
      RunLeavesHostAlone(Step(s, events[0]), events[1..]);
    }
  }

  // ----- and the open way is open

  /** New contents: something to show that neither hash stands for. */
  predicate Fresh(s: State, x: Payload) {
    (x.items != [] || x.files != []) && s.hash(x) != s.lastHostHash && s.hash(x) != s.lastGuestHash
  }

  ghost predicate Sends(s: State) {
    && InForce(s).enabled && (InForce(s).direction == HostToGuest || InForce(s).direction == Bidirectional)
    && s.host.count != s.lastHostCount && Fresh(s, Visible(InForce(s), s.host.content))
  }

  ghost predicate Fetches(s: State) {
    && InForce(s).enabled && (InForce(s).direction == GuestToHost || InForce(s).direction == Bidirectional)
    && s.guest.count != s.lastGuestCount && Fresh(s, Visible(InForce(s), s.guest.content))
  }

  lemma QuietSendingHalf(s: State)
    ensures var (s3, more) := FirstHalf(s, QUIET);
            var x := Visible(InForce(s), s.host.content);
            && s3.host == s.host && s3.policy == InForce(s)
            && (Sends(s) ==> !more && s3.log == s.log + [ToGuest(x)] && s3.guest == Board(s.guest.count + 1, x))
            && (!Sends(s) ==> s3.log == s.log && s3.guest == s.guest && s3.lastGuestCount == s.lastGuestCount
                              && s3.hash == s.hash && s3.lastHostHash == s.lastHostHash && s3.lastGuestHash == s.lastGuestHash
                              && (more <==> InForce(s).enabled && (InForce(s).direction == GuestToHost || InForce(s).direction == Bidirectional)))
  {
    hide Visible;
  }

  lemma QuietFetchingHalf(s: State)
    ensures var s' := GuestPhase(s, QUIET);
            var y := Visible(s.policy, s.guest.content);
            && s'.guest == s.guest
            && if s.guest.count != s.lastGuestCount && Fresh(s, y)
               then s'.log == s.log + [ToHost(y)] && s'.host == Board(s.host.count + 1, y) else s'.log == s.log && s'.host == s.host
  {
    hide Visible;
  }

  /**
   * A quiet cycle sends what is new on the host, if the policy lets it; if not, it fetches what is new on the
   * guest, if the policy lets it; otherwise nothing moves.
   */
  lemma QuietCycleSends(s: State)
    ensures var s' := Sync(s, QUIET);
            var x, y := Visible(InForce(s), s.host.content), Visible(InForce(s), s.guest.content);
            if Sends(s) then s'.log == s.log + [ToGuest(x)] && s'.guest == Board(s.guest.count + 1, x) && s'.host == s.host
            else if Fetches(s) then s'.log == s.log + [ToHost(y)] && s'.host == Board(s.host.count + 1, y) && s'.guest == s.guest
            else s'.log == s.log && s'.host == s.host && s'.guest == s.guest
  {
    hide Visible, FirstHalf, GuestPhase, Sends;
    QuietSendingHalf(s);
    QuietFetchingHalf(FirstHalf(s, QUIET).0);
  }

  // ----- a lost link

  /** Without a connection, and with the agent out of reach, a cycle only takes note of the policy. */
  lemma UnreachedCycle(s: State, c: Cycle)
    requires !s.connected && !c.reachable
    ensures Sync(s, c) == s.(policy := InForce(s), pending := None)
  {
  }

  /** A push whose link drops ends the cycle, and the next one has to reach the agent again. */
  lemma DroppedPushEndsCycle(s: State, c: Cycle)
    requires (s.connected || c.reachable) && Sends(s) && c.copyBeforeCapture == None && c.push == Dropped
    ensures var s' := Sync(s, c);
            && !s'.connected && s'.log == s.log && s'.lastGuestCount == s.lastGuestCount && s'.lastHostCount == s.lastHostCount
            && s'.host == s.host.Maybe(c.copyOnHost) && s'.failures == (if s.connected then s.failures else 0) + 1
            && s'.guest == if c.lostPushApplied then Board(s.guest.count + 1, Visible(InForce(s), s.host.content)) else s.guest
  {
    hide Visible;
  }

  /** A push that is answered is remembered: counter, both hashes, and no failures. */
  lemma AnsweredPushRemembered(s: State, c: Cycle)
    requires (s.connected || c.reachable) && Sends(s) && c.copyBeforeCapture == None && c.push == Answered
    ensures var s', x := Sync(s, c), Visible(InForce(s), s.host.content);
            && s'.connected && s'.failures == 0 && s'.lastHostCount == s.host.count && s'.lastGuestCount == s.lastGuestCount
            && s'.lastHostHash == s'.lastGuestHash == s.hash(x)
            && s'.guest == Board(s.guest.count + 1, x) && s'.log == s.log + [ToGuest(x)]
  {
    hide Visible;
  }

  /** An engine starts without a connection and without failures, and what the host showed at the start is not sent. */
  lemma StartSendsNothing(hash: Payload -> string, policy: Policy, host: Board, guest: Board, race: Option<Payload>)
    ensures var s := Init(hash, policy, host, guest, race);
            && !s.connected && s.failures == 0 && s.log == [] && !Sends(s)
            && s.lastHostCount == host.count && s.lastGuestCount == 0 && s.pending == None
  {
    hide Visible;
  }

  // ----- what users and administrators do

  /** A requested policy is in force from the next cycle on, whatever else that cycle does. */
  lemma PolicyTakesEffect(s: State, p: Policy, c: Cycle)
    ensures InForce(Step(s, SetPolicy(p))) == p && Sync(Step(s, SetPolicy(p)), c).policy == p
  {
    hide Sync;
    CyclePolicy(Step(s, SetPolicy(p)), c);
  }

  /** What a user copies on the host reaches the guest in one cycle, if the policy in force lets it and it is new. */
  lemma HostCopyReaches(s: State, x: Payload)
    requires InForce(s).enabled && (InForce(s).direction == HostToGuest || InForce(s).direction == Bidirectional)
    requires Fresh(s, Visible(InForce(s), x)) && s.lastHostCount <= s.host.count
    ensures var s' := Sync(Step(s, HostCopy(x)), QUIET);
            s'.guest.content == Visible(InForce(s), x) && s'.host == Board(s.host.count + 1, x)
  {
    hide Visible, Sync;
    QuietCycleSends(Step(s, HostCopy(x)));
  }

  /** Likewise for the guest, if the host has nothing to send. */
  lemma GuestCopyReaches(s: State, x: Payload)
    requires InForce(s).enabled && (InForce(s).direction == GuestToHost || InForce(s).direction == Bidirectional)
    requires Fresh(s, Visible(InForce(s), x)) && s.lastGuestCount <= s.guest.count && !Sends(s)
    ensures var s' := Sync(Step(s, GuestCopy(x)), QUIET);
            s'.host.content == Visible(InForce(s), x) && s'.guest == Board(s.guest.count + 1, x)
  {
    hide Visible, Sync;
    QuietCycleSends(Step(s, GuestCopy(x)));
  }
}
