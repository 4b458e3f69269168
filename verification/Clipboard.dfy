/** The clipboard engine: one host, one guest, change counters, content hashes and a sync cycle that may fail anywhere. */
module Clipboard {
  import opened Bytes

  datatype Item = Item(format: string, data: ByteString)
  datatype File = File(name: string, data: ByteString)

  /** A clipboard snapshot. */
  datatype Payload = Payload(items: seq<Item>, files: seq<File>) {
    predicate Empty() { items == [] && files == [] }
  }

  datatype Direction = Disabled | Bidirectional | HostToGuest | GuestToHost

  /** What may cross, and how large a single item or file may be. */
  datatype Policy = Policy(enabled: bool, direction: Direction, formats: set<string>, files: bool, maxBytes: nat) {
    predicate AllowHostToGuest() { enabled && (direction == Bidirectional || direction == HostToGuest) }
    predicate AllowGuestToHost() { enabled && (direction == Bidirectional || direction == GuestToHost) }
  }

  /** The first item of each permitted format that is neither empty nor too large. */
  function FilterItems(p: Policy, items: seq<Item>): seq<Item>
    decreases |items|
  {
    if items == [] then []
    else if items[0].format in p.formats && 0 < |items[0].data| <= p.maxBytes then
      [items[0]] + FilterItems(p.(formats := p.formats - {items[0].format}), items[1..])
    else FilterItems(p, items[1..])
  }

  function FilterFiles(p: Policy, files: seq<File>): seq<File> {
    if files == [] then []
    else if p.files && |files[0].data| <= p.maxBytes then [files[0]] + FilterFiles(p, files[1..])
    else FilterFiles(p, files[1..])
  }

  /** What the policy lets through; a copy of files hides the incidental text and icon beside them. */
  function Visible(p: Policy, x: Payload): Payload {
    var files := FilterFiles(p, x.files);
    Payload(if files == [] then FilterItems(p, x.items) else [], files)
  }

  lemma {:induction false} FilterItemsTwice(p: Policy, items: seq<Item>)
    ensures FilterItems(p, FilterItems(p, items)) == FilterItems(p, items)
    decreases |items|
  {
    if items != [] {
      if items[0].format in p.formats && 0 < |items[0].data| <= p.maxBytes {
        var rest := p.(formats := p.formats - {items[0].format});
        FilterItemsTwice(rest, items[1..]);
        var r := FilterItems(p, items);
        assert r[0] == items[0] && r[1..] == FilterItems(rest, items[1..]);
      } else {
        FilterItemsTwice(p, items[1..]);
      }
    }
  }

  lemma {:induction false} FilterFilesTwice(p: Policy, files: seq<File>)
    ensures FilterFiles(p, FilterFiles(p, files)) == FilterFiles(p, files)
  {
    if files != [] {
      FilterFilesTwice(p, files[1..]);
      if p.files && |files[0].data| <= p.maxBytes {
        var r := FilterFiles(p, files);
        assert r[0] == files[0] && r[1..] == FilterFiles(p, files[1..]);
      }
    }
  }

  /** What one side was given is what it shows under the same policy. */
  lemma VisibleTwice(p: Policy, x: Payload)
    ensures Visible(p, Visible(p, x)) == Visible(p, x)
  {
    FilterItemsTwice(p, x.items);
    FilterFilesTwice(p, x.files);
  }

  /** A pasteboard: its contents and a counter that moves with every change. */
  datatype Board = Board(count: nat, content: Payload) {
    function Put(x: Payload): Board { Board(count + 1, x) }
    function Maybe(x: Option<Payload>): Board { match x case Some(y) => Put(y) case None => this }
  }

  datatype Transfer = ToGuest(payload: Payload) | ToHost(payload: Payload)

  datatype State = State(
    hash: Payload -> string,
    policy: Policy,
    pending: Option<Policy>,
    lastHostCount: nat,
    lastGuestCount: nat,
    lastHostHash: string,
    lastGuestHash: string,
    connected: bool,
    failures: nat,
    host: Board,
    guest: Board,
    log: seq<Transfer>)

  /** How a request to the guest agent ends: the agent may refuse, or the link may drop before the reply. */
  datatype Reply = Answered | Refused | Dropped

  /**
   * How writing to the host pasteboard ends: it is replaced, a file could not be staged and it was not
   * touched, or it was cleared and then not written. The engine drops the error and cannot tell.
   */
  datatype Apply = Written | NotStaged | Cleared

  /**
   * Everything outside the engine during one cycle: whether the agent can be reached, how its
   * requests end, whether a push whose reply was lost took effect, how a write to the host ends,
   * and copies users make meanwhile.
   */
  datatype Cycle = Cycle(
    reachable: bool,
    copyBeforeCapture: Option<Payload>,
    push: Reply,
    lostPushApplied: bool,
    copyOnHost: Option<Payload>,
    stat: Reply,
    copyBeforeFetch: Option<Payload>,
    fetch: Reply,
    apply: Apply,
    copyDuringApply: Option<Payload>)

  function Fail(s: State, r: Reply): State {
    s.(failures := s.failures + 1, connected := s.connected && r != Dropped)
  }

  function ApplyPendingPolicy(s: State): State {
    match s.pending
    case Some(p) => s.(policy := p, pending := None)
    case None => s
  }

  /** The push of a captured payload. The flag says that it was delivered. */
  function Push(s: State, c: Cycle, hostCC: nat, payload: Payload): (State, bool) {
    match c.push
    case Answered =>
      var h := s.hash(payload);
      (s.(guest := s.guest.Put(payload), lastHostCount := hostCC, lastHostHash := h, lastGuestHash := h,
          failures := 0, log := s.log + [ToGuest(payload)]), true)
    case Refused => (Fail(s, Refused), false)
    case Dropped => (Fail(if c.lostPushApplied then s.(guest := s.guest.Put(payload)) else s, Dropped), false)
  }

  /** Host to guest. The counter is read before the contents, so a copy in between is noticed next time. */
  function HostPhase(s: State, c: Cycle): (State, bool) {
    var hostCC := s.host.count;
    if !s.policy.AllowHostToGuest() || hostCC == s.lastHostCount then (s, false)
    else
      var s1 := s.(host := s.host.Maybe(c.copyBeforeCapture));
      var payload := Visible(s1.policy, s1.host.content);
      var h := s1.hash(payload);
      if payload.Empty() || h == s1.lastHostHash || h == s1.lastGuestHash then (s1.(lastHostCount := hostCC), false)
      else Push(s1, c, hostCC, payload)
  }

  /** A payload that would have to cross: it shows something, and neither side is known to hold it. */
  predicate IsNews(s: State, payload: Payload) {
    !payload.Empty() && s.hash(payload) != s.lastGuestHash && s.hash(payload) != s.lastHostHash
  }

  const NOTHING: Payload := Payload([], [])

  /** The host pasteboard once its counter is read again: a user may have copied after the write. */
  function AfterApply(b: Board, c: Cycle, payload: Payload): Board {
    (match c.apply
     case Written => b.Put(payload)
     case NotStaged => b
     case Cleared => b.Put(NOTHING)).Maybe(c.copyDuringApply)
  }

  /** A fetched payload that is new to both sides goes onto the host pasteboard; the counter is read after the write. */
  function Accept(s: State, c: Cycle, guestCC: nat, payload: Payload): State {
    var h := s.hash(payload);
    var s1 := if IsNews(s, payload) then
                var b := AfterApply(s.host, c, payload);
                s.(host := b, lastHostCount := b.count, lastGuestHash := h, lastHostHash := h,
                   log := if c.apply.Written? then s.log + [ToHost(payload)] else s.log)
              else s;
    s1.(lastGuestCount := guestCC, failures := 0)
  }

  /** Guest to host. */
  function GuestPhase(s: State, c: Cycle): State {
    if c.stat != Answered then Fail(s, c.stat)
    else
      var guestCC := s.guest.count;
      if guestCC == s.lastGuestCount then s.(failures := 0)
      else
        var s1 := s.(guest := s.guest.Maybe(c.copyBeforeFetch));
        if c.fetch != Answered then Fail(s1, c.fetch)
        else Accept(s1, c, guestCC, Visible(s1.policy, s1.guest.content))
  }

  /** An agent newly reached starts with no failures. */
  function Connect(s: State): State {
    s.(connected := true, failures := if s.connected then s.failures else 0)
  }

  /** A cycle up to its guest phase; the flag says whether that phase comes. */
  function FirstHalf(s: State, c: Cycle): (State, bool) {
    var s1 := ApplyPendingPolicy(s);
    if !s1.connected && !c.reachable then (s1, false)
    else
      var (s2, pushed) := HostPhase(Connect(s1), c);
      var s3 := s2.(host := s2.host.Maybe(c.copyOnHost));
      (s3, !pushed && s3.policy.AllowGuestToHost() && s3.connected)
  }

  function Sync(s: State, c: Cycle): State {
    var (s3, more) := FirstHalf(s, c);
    if more then GuestPhase(s3, c) else s3
  }

  /** What a guest phase writes to the host, if it writes, and what the host shows when its counter is read. */
  datatype Attempt = Attempt(payload: Payload, shown: Payload)

  function GuestAttempt(s: State, c: Cycle): Option<Attempt> {
    if c.stat != Answered || s.guest.count == s.lastGuestCount || c.fetch != Answered then None
    else
      var payload := Visible(s.policy, s.guest.Maybe(c.copyBeforeFetch).content);
      if IsNews(s, payload) then Some(Attempt(payload, AfterApply(s.host, c, payload).content)) else None
  }

  function CycleAttempt(s: State, c: Cycle): Option<Attempt> {
    var (s3, more) := FirstHalf(s, c);
    if more then GuestAttempt(s3, c) else None
  }

  /** The engine's first look at the host; a copy between reading the counter and the contents is `race`. */
  function Init(hash: Payload -> string, policy: Policy, host: Board, guest: Board, race: Option<Payload>): State {
    var h := hash(Visible(policy, host.Maybe(race).content));
    State(hash, policy, None, host.count, 0, h, h, false, 0, host.Maybe(race), guest, [])
  }

  datatype Event = HostCopy(payload: Payload) | GuestCopy(payload: Payload) | SetPolicy(policy: Policy) | RunCycle(cycle: Cycle)

  function Step(s: State, e: Event): State {
    match e
    case HostCopy(x) => s.(host := s.host.Put(x))
    case GuestCopy(x) => s.(guest := s.guest.Put(x))
    case SetPolicy(p) => s.(pending := Some(p))
    case RunCycle(c) => Sync(s, c)
  }

  function Run(s: State, events: seq<Event>): State
    decreases |events|
  {
    if events == [] then s else Run(Step(s, events[0]), events[1..])
  }

  // ----- safety

  /** Under this policy the content shows nothing, or exactly what the hash stands for. */
  ghost predicate Acknowledged(hash: Payload -> string, p: Policy, content: Payload, h: string) {
    Visible(p, content).Empty() || hash(Visible(p, content)) == h
  }

  /** Both hashes agree, and no counter is ahead of its pasteboard. */
  ghost predicate InOrder(s: State) {
    && s.lastHostHash == s.lastGuestHash
    && s.lastHostCount <= s.host.count && s.lastGuestCount <= s.guest.count
  }

  /** For each side, the policy that was in force when its counter was last accepted. */
  datatype Seen = Seen(host: Policy, guest: Policy)

  /**
   * A side whose counter is up to date holds nothing that was not transferred, empty or already known under
   * the policy in force when that counter was accepted.
   */
  ghost predicate Safe(s: State, seen: Seen) {
    && InOrder(s)
    && (s.lastHostCount == s.host.count ==> Acknowledged(s.hash, seen.host, s.host.content, s.lastHostHash))
    && (s.lastGuestCount == s.guest.count ==> Acknowledged(s.hash, seen.guest, s.guest.content, s.lastGuestHash))
  }

  /** What is seen after a step from `s` to `s'` under policy `p`: a counter that moved, or was set with a new hash, was accepted under `p`. */
  function Noted(s: State, s': State, p: Policy, seen: Seen): Seen {
    Seen(if s'.lastHostCount != s.lastHostCount || s'.lastHostHash != s.lastHostHash then p else seen.host,
         if s'.lastGuestCount != s.lastGuestCount then p else seen.guest)
  }

  lemma InitSafe(hash: Payload -> string, policy: Policy, host: Board, guest: Board, race: Option<Payload>)
    requires guest.count > 0
    ensures Safe(Init(hash, policy, host, guest, race), Seen(policy, policy))
  {
    hide Visible;
  }

  lemma HostPhaseSafe(s: State, c: Cycle, seen: Seen)
    requires Safe(s, seen)
    ensures var s' := HostPhase(s, c).0; Safe(s', Noted(s, s', s.policy, seen)) && Later(s, s')
  {
    hide Visible;
  }

  /** The counters only go up, under the same policy. */
  ghost predicate Later(s: State, s': State) {
    s'.lastHostCount >= s.lastHostCount && s'.lastGuestCount >= s.lastGuestCount && s'.policy == s.policy
  }

  /** What the host shows when its counter is accepted is nothing, or what was written. */
  ghost predicate AttemptHeld(s: State, p: Policy, a: Option<Attempt>) {
    a.Some? ==> Acknowledged(s.hash, p, a.value.shown, s.hash(a.value.payload))
  }

  /** Applying is where safety can be lost: it is kept exactly if the host shows what was written, or nothing. */
  lemma AcceptSafe(s: State, c: Cycle, guestCC: nat, seen: Seen)
    requires Safe(s, seen) && s.lastGuestCount < guestCC <= s.guest.count
    ensures var payload := Visible(s.policy, s.guest.content);
            var s' := Accept(s, c, guestCC, payload);
            && (Safe(s', Noted(s, s', s.policy, seen)) <==>
                  (IsNews(s, payload) ==> Acknowledged(s.hash, s.policy, AfterApply(s.host, c, payload).content, s.hash(payload))))
            && Later(s, s')
  {
    hide Visible;
    VisibleTwice(s.policy, s.guest.content);
  }

  lemma GuestPhaseSafe(s: State, c: Cycle, seen: Seen)
    requires Safe(s, seen)
    ensures var s' := GuestPhase(s, c);
            && (Safe(s', Noted(s, s', s.policy, seen)) <==> AttemptHeld(s, s.policy, GuestAttempt(s, c)))
            && Later(s, s')
  {
    hide Visible, Accept, AfterApply, Acknowledged;
    var s1 := s.(guest := s.guest.Maybe(c.copyBeforeFetch));
    if s.guest.count != s.lastGuestCount {
      assert Safe(s1, seen);
      AcceptSafe(s1, c, s.guest.count, seen);
    }
  }

  /** A user's copy only makes a counter lag behind. */
  lemma CopySafe(s: State, x: Option<Payload>, seen: Seen)
    requires Safe(s, seen)
    ensures Safe(s.(host := s.host.Maybe(x)), seen) && Safe(s.(guest := s.guest.Maybe(x)), seen)
  {
    hide Acknowledged;
  }

  /** Noting twice under one policy is noting once. */
  lemma NotedTwice(s: State, s1: State, s2: State, p: Policy, seen: Seen)
    requires s.lastHostCount <= s1.lastHostCount <= s2.lastHostCount && s.lastGuestCount <= s1.lastGuestCount <= s2.lastGuestCount
    requires s1.lastHostCount == s.lastHostCount ==> s1.lastHostHash == s.lastHostHash
    ensures Noted(s1, s2, p, Noted(s, s1, p, seen)) == Noted(s, s2, p, seen)
  {
  }

  /** The host phase sets its hash only together with a higher counter. */
  lemma HostPhaseMoves(s: State, c: Cycle)
    requires InOrder(s)
    ensures var s' := HostPhase(s, c).0; s'.lastHostCount == s.lastHostCount ==> s'.lastHostHash == s.lastHostHash
  {
    hide Visible;
  }

  lemma FirstHalfSafe(s: State, c: Cycle, seen: Seen)
    requires Safe(s, seen)
    ensures var s3 := FirstHalf(s, c).0; var p := ApplyPendingPolicy(s).policy;
            && Safe(s3, Noted(s, s3, p, seen)) && s3.policy == p && s3.hash == s.hash
            && s.lastHostCount <= s3.lastHostCount && s.lastGuestCount <= s3.lastGuestCount
            && (s3.lastHostCount == s.lastHostCount ==> s3.lastHostHash == s.lastHostHash)
  {
    hide Safe, HostPhase;
    var s1 := ApplyPendingPolicy(s);
    SafeHere(s, s1, seen);
    SafeInOrder(s, seen);
    if s1.connected || c.reachable {
      var s1' := Connect(s1);
      SafeHere(s, s1', seen);
      HostPhaseSafe(s1', c, seen);
      HostPhaseMoves(s1', c);
      HostPhaseKeeps(s1', c);
      var s2 := HostPhase(s1', c).0;
      CopySafe(s2, c.copyOnHost, Noted(s1', s2, s1.policy, seen));
    }
  }

  lemma SafeInOrder(s: State, seen: Seen)
    requires Safe(s, seen)
    ensures InOrder(s)
  {
  }

  lemma HostPhaseKeeps(s: State, c: Cycle)
    ensures var s' := HostPhase(s, c).0; s'.pending == s.pending && s'.policy == s.policy && s'.hash == s.hash
  {
    hide Visible;
  }

  /** A cycle held up: it wrote nothing to the host, or the host then showed what was written, or nothing. */
  ghost predicate CycleHeld(s: State, c: Cycle) {
    AttemptHeld(s, ApplyPendingPolicy(s).policy, CycleAttempt(s, c))
  }

  /** From a safe state, a cycle ends safe exactly if it held up. */
  lemma SyncSafe(s: State, c: Cycle, seen: Seen)
    requires Safe(s, seen)
    ensures Safe(Sync(s, c), Noted(s, Sync(s, c), ApplyPendingPolicy(s).policy, seen)) <==> CycleHeld(s, c)
  {
    hide Safe, FirstHalf, GuestPhase, GuestAttempt, Acknowledged, Noted;
    FirstHalfSafe(s, c, seen);
    var (s3, more) := FirstHalf(s, c);
    var p := ApplyPendingPolicy(s).policy;
    if more {
      GuestPhaseSafe(s3, c, Noted(s, s3, p, seen));
      NotedTwice(s, s3, GuestPhase(s3, c), p, seen);
    }
  }

  /** Safety looks at boards, counters and hashes only. */
  lemma SafeHere(s: State, s': State, seen: Seen)
    requires Safe(s, seen)
    requires s' == s.(policy := s'.policy, pending := s'.pending, connected := s'.connected, failures := s'.failures)
    ensures Safe(s', seen)
  {
    hide Acknowledged;
  }

  function SeenAfter(s: State, e: Event, seen: Seen): Seen {
    if e.RunCycle? then Noted(s, Step(s, e), ApplyPendingPolicy(s).policy, seen) else seen
  }

  ghost predicate StepHeld(s: State, e: Event) {
    e.RunCycle? ==> CycleHeld(s, e.cycle)
  }

  /** From a safe state, any step, whatever fails and whoever copies meanwhile, ends safe exactly if it held up. */
  lemma StepSafe(s: State, e: Event, seen: Seen)
    requires Safe(s, seen)
    ensures Safe(Step(s, e), SeenAfter(s, e, seen)) <==> StepHeld(s, e)
  {
    hide Sync, Safe, Noted, CycleHeld;
    match e
    case RunCycle(c) => SyncSafe(s, c, seen);
    case HostCopy(x) => CopySafe(s, Some(x), seen);
    case GuestCopy(x) => CopySafe(s, Some(x), seen);
    case SetPolicy(p) => SafeHere(s, Step(s, e), seen);
  }

  function RunSeen(s: State, events: seq<Event>, seen: Seen): Seen
    decreases |events|
  {
    if events == [] then seen else RunSeen(Step(s, events[0]), events[1..], SeenAfter(s, events[0], seen))
  }

  /** Safe now and after every step. */
  ghost predicate SafeThroughout(s: State, events: seq<Event>, seen: Seen)
    decreases |events|
  {
    Safe(s, seen) && (events != [] ==> SafeThroughout(Step(s, events[0]), events[1..], SeenAfter(s, events[0], seen)))
  }

  ghost predicate AllHeld(s: State, events: seq<Event>)
    decreases |events|
  {
    events != [] ==> StepHeld(s, events[0]) && AllHeld(Step(s, events[0]), events[1..])
  }

  /**
   * Over any run, with failures, racing copies and live policy changes, the engine is safe after every step
   * exactly if every cycle held up: whenever it wrote to the host, the host then showed what was written, or
   * nothing. Safe means that the hashes are equal, and that a side whose counter is up to date was acknowledged
   * under the policy in force when its counter was accepted.
   */
  lemma {:induction false} RunSafe(s: State, events: seq<Event>, seen: Seen)
    requires Safe(s, seen)
    ensures SafeThroughout(s, events, seen) <==> AllHeld(s, events)
    ensures AllHeld(s, events) ==> Safe(Run(s, events), RunSeen(s, events, seen))
    decreases |events|
  {
    hide Safe, Step, SeenAfter, StepHeld;
    if events != [] {
      StepSafe(s, events[0], seen);
      if StepHeld(s, events[0]) {
        RunSafe(Step(s, events[0]), events[1..], SeenAfter(s, events[0], seen));
      } else {
        NotSafe(Step(s, events[0]), events[1..], SeenAfter(s, events[0], seen));
      }
    }
  }

  lemma NotSafe(s: State, events: seq<Event>, seen: Seen)
    requires !Safe(s, seen)
    ensures !SafeThroughout(s, events, seen)
  {
    hide Safe, Step;
  }

  /** A cycle whose write succeeds, with no copy before the counter is read, holds up. */
  lemma CleanCycleHolds(s: State, c: Cycle)
    requires c.apply.Written? && c.copyDuringApply.None?
    ensures CycleHeld(s, c)
  {
    hide HostPhase, Visible;
    var s3 := FirstHalf(s, c).0;
    FirstHalfPolicy(s, c);
    VisibleTwice(s3.policy, s3.guest.Maybe(c.copyBeforeFetch).content);
  }

  lemma FirstHalfPolicy(s: State, c: Cycle)
    ensures FirstHalf(s, c).0.policy == ApplyPendingPolicy(s).policy && FirstHalf(s, c).0.hash == s.hash
  {
    hide HostPhase, Visible;
    HostPhaseKeeps(Connect(ApplyPendingPolicy(s)), c);
  }

  // ----- when a counter may advance

  /** The host contents a cycle would capture, under the policy it applies. */
  function Captured(s: State, c: Cycle): Payload {
    Visible(ApplyPendingPolicy(s).policy, s.host.Maybe(c.copyBeforeCapture).content)
  }

  predicate Known(s: State, x: Payload) {
    x.Empty() || s.hash(x) == s.lastHostHash || s.hash(x) == s.lastGuestHash
  }

  /** The cycle tried to put a payload onto the host, and took note of its hash and of the counter, whatever the host shows. */
  ghost predicate Applied(s: State, s': State, c: Cycle, a: Attempt) {
    && IsNews(s, a.payload) && s'.host.content == a.shown && s'.lastHostCount == s'.host.count
    && s'.lastHostHash == s'.lastGuestHash == s.hash(a.payload)
    && s'.log == (if c.apply.Written? then s.log + [ToHost(a.payload)] else s.log)
  }

  /** The host phase: nothing pending, known, delivered, or failed with the engine's memory unchanged. */
  lemma HostPhaseOutcome(s: State, c: Cycle)
    ensures var (s2, pushed) := HostPhase(s, c);
            var x := Visible(s.policy, s.host.Maybe(c.copyBeforeCapture).content);
            && (pushed <==> s2.log == s.log + [ToGuest(x)]) && (!pushed ==> s2.log == s.log)
            && (s2.lastHostCount != s.lastHostCount ==> Known(s, x) || pushed)
            && (!pushed ==> s2.lastHostHash == s.lastHostHash && s2.lastGuestHash == s.lastGuestHash)
            && s2.lastGuestCount == s.lastGuestCount && s2.policy == s.policy && s2.hash == s.hash
            && (pushed ==> c.push == Answered && !Known(s, x))
  {
    hide Visible;
  }

  /** The guest phase: it touches the host, its counter and the hashes only by applying the guest's contents. */
  lemma GuestPhaseOutcome(s: State, c: Cycle)
    ensures var s' := GuestPhase(s, c);
            var x := Visible(s.policy, s'.guest.content);
            && s'.policy == s.policy && s'.hash == s.hash
            && (match GuestAttempt(s, c)
                case Some(a) => a.payload == x && Applied(s, s', c, a)
                case None =>
                  && s'.host == s.host && s'.lastHostCount == s.lastHostCount && s'.log == s.log
                  && s'.lastHostHash == s.lastHostHash && s'.lastGuestHash == s.lastGuestHash
                  && (s'.lastGuestCount != s.lastGuestCount ==> Known(s, x)))
  {
    hide Visible, AfterApply;
  }

  /** What the first half of a cycle does to counters, hashes and the log. */
  lemma FirstHalfOutcome(s: State, c: Cycle)
    ensures var (s3, more) := FirstHalf(s, c);
            && s3.policy == ApplyPendingPolicy(s).policy && s3.hash == s.hash && s3.lastGuestCount == s.lastGuestCount
            && (s3.log == s.log || (!more && s3.log == s.log + [ToGuest(Captured(s, c))] && c.push == Answered && !Known(s, Captured(s, c))))
            && (s3.lastHostCount != s.lastHostCount ==> Known(s, Captured(s, c)) || s3.log == s.log + [ToGuest(Captured(s, c))])
            && (s3.log == s.log ==> s3.lastHostHash == s.lastHostHash && s3.lastGuestHash == s.lastGuestHash)
  {
    hide Visible, HostPhase;
    HostPhaseOutcome(Connect(ApplyPendingPolicy(s)), c);
  }

  /**
   * The host counter advances only when its contents were delivered, empty or known, or when the guest's
   * contents were written to it; then what it shows was acknowledged exactly if the cycle held up.
   */
  lemma HostCountAdvances(s: State, c: Cycle)
    requires Sync(s, c).lastHostCount != s.lastHostCount
    ensures var s' := Sync(s, c);
            || Known(s, Captured(s, c))
            || s'.log == s.log + [ToGuest(Captured(s, c))]
            || (CycleAttempt(s, c).Some? && Applied(s, s', c, CycleAttempt(s, c).value)
                && (CycleHeld(s, c) <==> Acknowledged(s.hash, s'.policy, s'.host.content, s'.lastHostHash)))
  {
    hide Visible, FirstHalf, GuestPhase, GuestAttempt, Acknowledged;
    FirstHalfOutcome(s, c);
    var (s3, more) := FirstHalf(s, c);
    GuestPhaseOutcome(s3, c);
  }

  /** The guest counter advances only when its contents were empty or known, or a write of them was tried; they crossed exactly if it succeeded. */
  lemma GuestCountAdvances(s: State, c: Cycle)
    requires Sync(s, c).lastGuestCount != s.lastGuestCount
    ensures var s' := Sync(s, c);
            var x := Visible(s'.policy, s'.guest.content);
            Known(s, x) || (s'.log == s.log + [ToHost(x)] <==> c.apply.Written?)
    ensures var s' := Sync(s, c);
            var x := Visible(s'.policy, s'.guest.content);
            Known(s, x) || (CycleAttempt(s, c).Some? && CycleAttempt(s, c).value.payload == x && Applied(s, s', c, CycleAttempt(s, c).value))
  {
    hide Visible, FirstHalf, GuestPhase, GuestAttempt;
    FirstHalfOutcome(s, c);
    var (s3, more) := FirstHalf(s, c);
    GuestPhaseOutcome(s3, c);
  }

  /**
   * A push that was not delivered leaves counter and hashes alone, so it is tried again, exactly if the same
   * cycle does not try to write the guest's contents to the host.
   */
  lemma FailedPushStaysPending(s: State, c: Cycle)
    requires ApplyPendingPolicy(s).policy.AllowHostToGuest() && s.host.count != s.lastHostCount
    requires !Known(s, Captured(s, c)) && c.push != Answered
    ensures var s' := Sync(s, c);
            (s'.lastHostCount == s.lastHostCount && s'.lastHostHash == s.lastHostHash && s'.lastGuestHash == s.lastGuestHash)
            <==> CycleAttempt(s, c).None?
  {
    hide Visible, FirstHalf, GuestPhase, GuestAttempt;
    FirstHalfOutcome(s, c);
    var (s3, more) := FirstHalf(s, c);
    GuestPhaseOutcome(s3, c);
  }

  // ----- convergence under a fixed policy

  ghost predicate Injective(hash: Payload -> string) {
    forall x, y :: hash(x) == hash(y) ==> x == y
  }

  /** A payload that this policy lets through whole. */
  predicate Plain(p: Policy, x: Payload) {
    !x.Empty() && Visible(p, x) == x
  }

  predicate PlainOption(p: Policy, x: Option<Payload>) {
    x.Some? ==> Plain(p, x.value)
  }

  predicate PlainEvent(p: Policy, e: Event) {
    match e
    case HostCopy(x) => Plain(p, x)
    case GuestCopy(x) => Plain(p, x)
    case SetPolicy(_) => false
    case RunCycle(c) =>
      && PlainOption(p, c.copyBeforeCapture) && PlainOption(p, c.copyOnHost)
      && PlainOption(p, c.copyBeforeFetch) && PlainOption(p, c.copyDuringApply)
  }

  /** What holds throughout a run under one bidirectional policy when everything copied passes it whole. */
  ghost predicate Steady(s: State, p: Policy) {
    && Injective(s.hash)
    && s.policy == p && s.pending == None && p.enabled && p.direction == Bidirectional
    && Plain(p, s.host.content) && Plain(p, s.guest.content)
    && InOrder(s)
    && (s.lastHostCount == s.host.count ==> s.hash(s.host.content) == s.lastHostHash)
    && (s.lastGuestCount == s.guest.count ==> s.hash(s.guest.content) == s.lastGuestHash)
  }

  lemma InitSteady(hash: Payload -> string, p: Policy, host: Board, guest: Board, race: Option<Payload>)
    requires Injective(hash) && p.enabled && p.direction == Bidirectional && guest.count > 0
    requires Plain(p, host.content) && Plain(p, guest.content) && PlainOption(p, race)
    ensures Steady(Init(hash, p, host, guest, race), p)
  {
    hide Visible, Injective;
  }

  lemma HostPhaseSteady(s: State, c: Cycle, p: Policy)
    requires Steady(s, p) && PlainEvent(p, RunCycle(c))
    ensures Steady(HostPhase(s, c).0, p)
  {
    hide Visible, Injective;
  }

  /** What the host shows when its counter is accepted is what was written. */
  predicate AttemptLands(a: Option<Attempt>) {
    a.Some? ==> a.value.shown == a.value.payload
  }

  predicate CycleLands(s: State, c: Cycle) {
    AttemptLands(CycleAttempt(s, c))
  }

  predicate StepLands(s: State, e: Event) {
    e.RunCycle? ==> CycleLands(s, e.cycle)
  }

  lemma GuestPhaseSteady(s: State, c: Cycle, p: Policy)
    requires Steady(s, p) && PlainEvent(p, RunCycle(c))
    ensures Steady(GuestPhase(s, c), p) <==> AttemptLands(GuestAttempt(s, c))
  {
    hide Visible;
    if GuestAttempt(s, c).Some? {
      AttemptSteady(s, c, p);
    }
  }

  lemma NothingPlain(p: Policy)
    ensures !Plain(p, NOTHING)
  {
    hide Visible;
  }

  lemma AttemptSteady(s: State, c: Cycle, p: Policy)
    requires Steady(s, p) && PlainEvent(p, RunCycle(c)) && GuestAttempt(s, c).Some?
    ensures Steady(GuestPhase(s, c), p) <==> AttemptLands(GuestAttempt(s, c))
  {
    hide Visible;
    NothingPlain(p);
    var x, shown := GuestAttempt(s, c).value.payload, GuestAttempt(s, c).value.shown;
    assert s.hash(shown) == s.hash(x) ==> shown == x;
  }

  /** From a steady state, a step that users and link may spoil ends steady exactly if what was written landed. */
  lemma StepSteady(s: State, e: Event, p: Policy)
    requires Steady(s, p) && PlainEvent(p, e)
    ensures Steady(Step(s, e), p) <==> StepLands(s, e)
  {
    hide Visible, HostPhase, GuestPhase, GuestAttempt, Injective;
    match e
    case RunCycle(c) =>
      if s.connected || c.reachable {
        HostPhaseSteady(Connect(s), c, p);
        var s3 := HostPhase(Connect(s), c).0;
        GuestPhaseSteady(s3.(host := s3.host.Maybe(c.copyOnHost)), c, p);
      }
    case _ =>
  }

  ghost predicate SteadyThroughout(s: State, events: seq<Event>, p: Policy)
    decreases |events|
  {
    Steady(s, p) && (events != [] ==> SteadyThroughout(Step(s, events[0]), events[1..], p))
  }

  ghost predicate AllLand(s: State, events: seq<Event>)
    decreases |events|
  {
    events != [] ==> StepLands(s, events[0]) && AllLand(Step(s, events[0]), events[1..])
  }

  /** A run under one bidirectional policy stays steady exactly if everything it wrote to the host landed. */
  lemma {:induction false} RunSteady(s: State, events: seq<Event>, p: Policy)
    requires Steady(s, p) && forall i :: 0 <= i < |events| ==> PlainEvent(p, events[i])
    ensures SteadyThroughout(s, events, p) <==> AllLand(s, events)
    ensures AllLand(s, events) ==> Steady(Run(s, events), p)
    decreases |events|
  {
    hide Steady, Step, PlainEvent, StepLands;
    if events != [] {
      StepSteady(s, events[0], p);
      if StepLands(s, events[0]) {
        RunSteady(Step(s, events[0]), events[1..], p);
      } else {
        assert !SteadyThroughout(Step(s, events[0]), events[1..], p);
      }
    }
  }

  /** A cycle in which nobody copies and everything works. */
  const QUIET := Cycle(true, None, Answered, false, None, Answered, None, Answered, Written, None)

  function QuietCycles(s: State, n: nat): State
    decreases n
  {
    if n == 0 then s else QuietCycles(Sync(s, QUIET), n - 1)
  }

  ghost predicate Agreed(s: State) {
    && s.host.content == s.guest.content
    && s.hash(s.host.content) == s.lastHostHash
    && s.lastHostCount == s.host.count
  }

  /** One quiet cycle is enough to make both sides equal, and it transfers at most one payload. */
  lemma QuietCycleAgrees(s: State, p: Policy)
    requires Steady(s, p)
    ensures var s' := Sync(s, QUIET);
            Steady(s', p) && Agreed(s') && |s'.log| <= |s.log| + 1
  {
    hide Visible;
    StepSteady(s, RunCycle(QUIET), p);
  }

  /** Once both sides agree, a quiet cycle only takes note of the guest's counter: there is no echo. */
  lemma AgreedStaysPut(s: State, p: Policy)
    requires Steady(s, p) && Agreed(s)
    ensures Sync(s, QUIET) == s.(connected := true, failures := 0, lastGuestCount := s.guest.count)
    ensures Steady(Sync(s, QUIET), p) && Agreed(Sync(s, QUIET))
  {
    hide Visible;
    StepSteady(s, RunCycle(QUIET), p);
  }

  lemma {:induction false} AgreedForever(s: State, p: Policy, n: nat)
    requires Steady(s, p) && Agreed(s)
    ensures var s' := QuietCycles(s, n);
            Steady(s', p) && Agreed(s') && s'.log == s.log && s'.host == s.host && s'.guest == s.guest
    decreases n
  {
    hide Steady, Agreed, Sync;
    if n > 0 {
      AgreedStaysPut(s, p);
      AgreedForever(Sync(s, QUIET), p, n - 1);
    }
  }

  /**
   * Wherever a run under a fixed policy stands, after user copies stop and the link works: from the
   * first cycle on both sides are equal, at most one payload has crossed, and from the second cycle
   * on the engine does not change at all.
   */
  lemma QuietRunConverges(s: State, p: Policy, n: nat)
    requires Steady(s, p) && n >= 1
    ensures var s' := QuietCycles(s, n);
            && s'.host.content == s'.guest.content
            && s'.log == Sync(s, QUIET).log && |s'.log| <= |s.log| + 1
            && (n >= 2 ==> Sync(s', QUIET) == s')
  {
    hide Steady, Sync;
    QuietCycleAgrees(s, p);
    var s1 := Sync(s, QUIET);
    AgreedForever(s1, p, n - 1);
    if n >= 2 {
      AgreedStaysPut(s1, p);
      QuietFixpoint(Sync(s1, QUIET), p, n - 2);
    }
  }

  lemma {:induction false} QuietFixpoint(s: State, p: Policy, n: nat)
    requires Steady(s, p) && Agreed(s) && s.connected && s.failures == 0 && s.lastGuestCount == s.guest.count
    ensures QuietCycles(s, n) == s && Sync(s, QUIET) == s
    decreases n
  {
    hide Steady, Agreed, Sync;
    AgreedStaysPut(s, p);
    if n > 0 {
      QuietFixpoint(s, p, n - 1);
    }
  }

  // ----- when quiet cycles make both sides equal

  /** A payload that the policy lets through as it is: nothing, or all of it. */
  predicate Whole(p: Policy, x: Payload) {
    Visible(p, x) == x
  }

  predicate WholeOption(p: Policy, x: Option<Payload>) {
    x.Some? ==> Whole(p, x.value)
  }

  predicate WholeEvent(p: Policy, e: Event) {
    match e
    case HostCopy(x) => Whole(p, x)
    case GuestCopy(x) => Whole(p, x)
    case SetPolicy(_) => false
    case RunCycle(c) =>
      && WholeOption(p, c.copyBeforeCapture) && WholeOption(p, c.copyOnHost)
      && WholeOption(p, c.copyBeforeFetch) && WholeOption(p, c.copyDuringApply)
  }

  /** What any run under one bidirectional policy keeps, whatever lands: nothing is said of what was acknowledged. */
  ghost predicate Open(s: State, p: Policy) {
    && Injective(s.hash)
    && s.policy == p && s.pending == None && p.enabled && p.direction == Bidirectional
    && Whole(p, s.host.content) && Whole(p, s.guest.content) && InOrder(s)
  }

  lemma NothingWhole(p: Policy)
    ensures Whole(p, NOTHING)
  {
  }

  lemma HostPhaseOpen(s: State, c: Cycle, p: Policy)
    requires Open(s, p) && WholeEvent(p, RunCycle(c))
    ensures Open(HostPhase(s, c).0, p)
  {
    hide Visible, Injective;
  }

  lemma GuestPhaseOpen(s: State, c: Cycle, p: Policy)
    requires Open(s, p) && WholeEvent(p, RunCycle(c))
    ensures Open(GuestPhase(s, c), p)
  {
    hide Visible, Injective;
    NothingWhole(p);
  }

  lemma StepOpen(s: State, e: Event, p: Policy)
    requires Open(s, p) && WholeEvent(p, e)
    ensures Open(Step(s, e), p)
  {
    hide Visible, HostPhase, GuestPhase, Injective;
    match e
    case RunCycle(c) =>
      if s.connected || c.reachable {
        HostPhaseOpen(Connect(s), c, p);
        var s3 := HostPhase(Connect(s), c).0;
        GuestPhaseOpen(s3.(host := s3.host.Maybe(c.copyOnHost)), c, p);
      }
    case _ =>
  }

  lemma {:induction false} RunOpen(s: State, events: seq<Event>, p: Policy)
    requires Open(s, p) && forall i :: 0 <= i < |events| ==> WholeEvent(p, events[i])
    ensures Open(Run(s, events), p)
    decreases |events|
  {
    hide Open, Step, WholeEvent;
    if events != [] {
      StepOpen(s, events[0], p);
      RunOpen(Step(s, events[0]), events[1..], p);
    }
  }

  /** A counter has moved over contents that are news. */
  predicate HostHasNews(s: State) { s.lastHostCount != s.host.count && IsNews(s, s.host.content) }
  predicate GuestHasNews(s: State) { s.lastGuestCount != s.guest.count && IsNews(s, s.guest.content) }
  predicate HasNews(s: State) { HostHasNews(s) || GuestHasNews(s) }

  predicate Equal(s: State) { s.host.content == s.guest.content }

  lemma QuietHalf(s: State, p: Policy)
    requires Open(s, p)
    ensures var (s3, more) := FirstHalf(s, QUIET);
            && Open(s3, p) && s3.host == s.host && s3.connected
            && (more <==> !HostHasNews(s))
            && (more ==> s3 == Connect(s).(lastHostCount := s.host.count))
            && (!more ==> s3.guest.content == s.host.content && s3.lastHostCount == s3.host.count && !GuestHasNews(s3))
  {
    hide Visible, Injective;
  }

  lemma QuietOtherHalf(s: State, p: Policy)
    requires Open(s, p) && s.lastHostCount == s.host.count
    ensures var s' := GuestPhase(s, QUIET);
            && Open(s', p) && !HasNews(s')
            && (GuestHasNews(s) ==> Equal(s')) && (!GuestHasNews(s) ==> s'.host == s.host && s'.guest == s.guest)
  {
    hide Visible, Injective;
  }

  lemma QuietCycleSettles(s: State, p: Policy)
    requires Open(s, p)
    ensures var s' := Sync(s, QUIET); Open(s', p) && !HasNews(s') && (Equal(s') <==> HasNews(s) || Equal(s))
  {
    hide Open, FirstHalf, GuestPhase, IsNews;
    QuietHalf(s, p);
    var (s3, more) := FirstHalf(s, QUIET);
    if more {
      QuietOtherHalf(s3, p);
      SameNews(s, s3);
    }
  }

  lemma SameNews(s: State, s': State)
    requires s' == Connect(s).(lastHostCount := s.host.count)
    ensures GuestHasNews(s') == GuestHasNews(s)
  {
  }

  /**
   * From any state a run under one bidirectional policy can reach, whatever was lost on the way: quiet cycles
   * make both sides equal exactly if some counter has moved over contents that are news, or they are equal.
   */
  lemma {:induction false} QuietCyclesAgreeExactly(s: State, p: Policy, n: nat)
    requires Open(s, p) && n >= 1
    ensures Equal(QuietCycles(s, n)) <==> HasNews(s) || Equal(s)
    decreases n
  {
    hide Open, Sync, HasNews, Equal;
    QuietCycleSettles(s, p);
    if n > 1 {
      QuietCyclesAgreeExactly(Sync(s, QUIET), p, n - 1);
    } else {
      assert QuietCycles(Sync(s, QUIET), 0) == Sync(s, QUIET);
    }
  }

  lemma IdleCycle(s: State)
    requires s.pending == None && s.connected && s.failures == 0
    requires s.lastHostCount == s.host.count && s.lastGuestCount == s.guest.count
    ensures Sync(s, QUIET) == s
  {
    hide Visible;
  }

  lemma {:induction false} IdleForever(s: State, n: nat)
    requires s.pending == None && s.connected && s.failures == 0
    requires s.lastHostCount == s.host.count && s.lastGuestCount == s.guest.count
    ensures QuietCycles(s, n) == s
    decreases n
  {
    hide Sync;
    if n > 0 {
      IdleCycle(s);
      IdleForever(s, n - 1);
    }
  }

  /** A quiet cycle, but for how its write to the host ends and who copies before the counter is read. */
  function Spoiled(a: Apply, x: Option<Payload>): Cycle {
    QUIET.(apply := a, copyDuringApply := x)
  }

  /** One cycle that writes the guest's contents to the host: all later quiet cycles change nothing, and the sides are equal exactly if it landed. */
  lemma WriteIsFinal(s: State, p: Policy, a: Apply, x: Option<Payload>, n: nat)
    requires Steady(s, p) && CycleAttempt(s, Spoiled(a, x)).Some?
    ensures var s' := Sync(s, Spoiled(a, x));
            && QuietCycles(s', n) == s'
            && (Equal(s') <==> CycleLands(s, Spoiled(a, x)))
            && s'.lastGuestCount == s'.guest.count != s.lastGuestCount
            && (s'.log == s.log <==> a != Written)
  {
    hide Visible, Injective, Sync;
    var c := Spoiled(a, x);
    SpoiledHalf(s, p, c);
    var s3 := FirstHalf(s, c).0;
    SpoiledOtherHalf(s3, p, a, x);
    assert Sync(s, c) == GuestPhase(s3, c) by { SyncIs(s, c); }
    IdleForever(Sync(s, c), n);
  }

  lemma SyncIs(s: State, c: Cycle)
    requires FirstHalf(s, c).1
    ensures Sync(s, c) == GuestPhase(FirstHalf(s, c).0, c)
  {
    hide FirstHalf, GuestPhase;
  }

  lemma SpoiledHalf(s: State, p: Policy, c: Cycle)
    requires Steady(s, p) && CycleAttempt(s, c).Some? && c == Spoiled(c.apply, c.copyDuringApply)
    ensures var (s3, more) := FirstHalf(s, c);
            && more && s3.connected && s3.pending == None && s3.policy == p && s3.guest == s.guest && s3.log == s.log
            && s3.lastGuestCount == s.lastGuestCount && GuestAttempt(s3, c).Some? && CycleAttempt(s, c) == GuestAttempt(s3, c)
  {
    hide Visible, Injective;
  }

  lemma SpoiledOtherHalf(s: State, p: Policy, a: Apply, x: Option<Payload>)
    requires s.policy == p && s.pending == None && s.connected && Plain(p, s.guest.content)
    requires GuestAttempt(s, Spoiled(a, x)).Some?
    ensures var s' := GuestPhase(s, Spoiled(a, x));
            && s'.pending == None && s'.connected && s'.failures == 0
            && s'.lastHostCount == s'.host.count && s'.lastGuestCount == s'.guest.count != s.lastGuestCount
            && (Equal(s') <==> AttemptLands(GuestAttempt(s, Spoiled(a, x))))
            && (s'.log == s.log <==> a != Written)
  {
    hide Visible;
  }

  // ----- the two ways a write to the host is lost

  function Text(b: Byte): Payload {
    Payload([Item("text", [b])], [])
  }

  const TEXT_POLICY := Policy(true, Bidirectional, {"text"}, false, 100)

  lemma TextPlain(b: Byte)
    ensures Plain(TEXT_POLICY, Text(b))
  {
    var items := Text(b).items;
    assert items[1..] == [];
    assert FilterItems(TEXT_POLICY.(formats := TEXT_POLICY.formats - {items[0].format}), items[1..]) == [];
    assert FilterItems(TEXT_POLICY, items) == [items[0]];
  }

  /** Connected and steady: the host holds one text, the guest has just been given another. */
  function BeforeLoss(hash: Payload -> string): State {
    var h := hash(Text(1));
    State(hash, TEXT_POLICY, None, 1, 1, h, h, true, 0, Board(1, Text(1)), Board(2, Text(2)), [])
  }

  lemma BeforeLossSteady(hash: Payload -> string)
    requires Injective(hash)
    ensures var s := BeforeLoss(hash);
            Steady(s, TEXT_POLICY) && Safe(s, Seen(TEXT_POLICY, TEXT_POLICY)) && IsNews(s, Text(2))
  {
    hide Visible;
    TextPlain(1);
    TextPlain(2);
    assert Text(1) != Text(2) by { assert Text(1).items[0].data[0] != Text(2).items[0].data[0]; }
  }

  lemma LossAttempt(hash: Payload -> string, a: Apply, x: Option<Payload>)
    requires Injective(hash)
    ensures var s := BeforeLoss(hash);
            CycleAttempt(s, Spoiled(a, x)) == Some(Attempt(Text(2), AfterApply(s.host, Spoiled(a, x), Text(2)).content))
  {
    hide Visible, Injective;
    BeforeLossSteady(hash);
    TextPlain(2);
  }

  /**
   * A copy between the write and the reading of the counter is taken for what was written: it is never
   * transferred, and no number of quiet cycles makes the sides equal.
   */
  lemma RacedCopyIsLost(hash: Payload -> string, n: nat)
    requires Injective(hash)
    ensures var s, c := BeforeLoss(hash), Spoiled(Written, Some(Text(3)));
            var s' := Sync(s, c);
            && Steady(s, TEXT_POLICY) && Safe(s, Seen(TEXT_POLICY, TEXT_POLICY))
            && !Safe(s', SeenAfter(s, RunCycle(c), Seen(TEXT_POLICY, TEXT_POLICY)))
            && QuietCycles(s', n) == s' && s'.host.content == Text(3) && s'.guest.content == Text(2)
  {
    hide Visible, Injective, Sync, SeenAfter, Safe, Steady, CycleAttempt, GuestPhase;
    var s, c := BeforeLoss(hash), Spoiled(Written, Some(Text(3)));
    LossShows(hash, Written, Some(Text(3)), n);
    assert Text(3) != Text(2) by { assert Text(3).items[0].data[0] != Text(2).items[0].data[0]; }
    TextPlain(3);
    assert hash(Text(3)) != hash(Text(2)) by { Differ(hash, Text(3), Text(2)); }
    StepSafe(s, RunCycle(c), Seen(TEXT_POLICY, TEXT_POLICY));
  }

  lemma Differ(hash: Payload -> string, x: Payload, y: Payload)
    requires Injective(hash) && x != y
    ensures hash(x) != hash(y)
  {
  }

  lemma LossShows(hash: Payload -> string, a: Apply, x: Option<Payload>, n: nat)
    requires Injective(hash)
    ensures var s, c := BeforeLoss(hash), Spoiled(a, x);
            var s' := Sync(s, c);
            var shown := AfterApply(s.host, c, Text(2)).content;
            && Steady(s, TEXT_POLICY) && Safe(s, Seen(TEXT_POLICY, TEXT_POLICY))
            && CycleAttempt(s, c) == Some(Attempt(Text(2), shown))
            && QuietCycles(s', n) == s' && s'.host.content == shown && s'.guest.content == Text(2)
            && s'.lastGuestCount == s'.guest.count && (s'.log == [] <==> a != Written)
  {
    hide Visible, Injective, Sync, Steady, Safe, CycleAttempt, GuestPhase, FirstHalf;
    var s, c := BeforeLoss(hash), Spoiled(a, x);
    BeforeLossSteady(hash);
    LossAttempt(hash, a, x);
    WriteIsFinal(s, TEXT_POLICY, a, x, n);
    assert Sync(s, c).host.content == AfterApply(s.host, c, Text(2)).content && Sync(s, c).guest.content == Text(2) by {
      LossContents(s, c, TEXT_POLICY);
    }
  }

  lemma LossContents(s: State, c: Cycle, p: Policy)
    requires CycleAttempt(s, c).Some? && c == Spoiled(c.apply, c.copyDuringApply)
    ensures Sync(s, c).host.content == CycleAttempt(s, c).value.shown && Sync(s, c).guest.content == s.guest.content
  {
    hide Visible;
  }

  /**
   * A write whose error is dropped counts as done: the guest's counter advances although nothing crossed, and
   * no number of quiet cycles makes the sides equal, whether the host kept its contents or was cleared.
   */
  lemma DroppedErrorIsLost(hash: Payload -> string, a: Apply, n: nat)
    requires Injective(hash) && a != Written
    ensures var s := BeforeLoss(hash);
            var s' := Sync(s, Spoiled(a, None));
            && Steady(s, TEXT_POLICY) && s.lastGuestCount != s.guest.count
            && s'.lastGuestCount == s'.guest.count && s'.log == s.log
            && QuietCycles(s', n) == s' && !Equal(s')
  {
    hide Visible, Injective, Sync, Steady, Safe, CycleAttempt, GuestPhase, QuietCycles;
    LossShows(hash, a, None, n);
    assert Text(1) != Text(2) by { assert Text(1).items[0].data[0] != Text(2).items[0].data[0]; }
    assert NOTHING != Text(2) by { assert |NOTHING.items| != |Text(2).items|; }
  }

  // ----- no echo: transfers are paid for by users

  function Differs(s: State, lastCount: nat, b: Board): nat {
    if lastCount != b.count && !Known(s, Visible(s.policy, b.content)) then 1 else 0
  }

  /** Payloads that may still have to cross, without anyone copying anything. */
  function Debt(s: State): nat {
    Differs(s, s.lastHostCount, s.host) + Differs(s, s.lastGuestCount, s.guest) + if s.pending.Some? then 2 else 0
  }

  function Copies(x: Option<Payload>): nat { if x.Some? then 1 else 0 }

  /** What an event may cost: one transfer a copy, one for a push that took effect unacknowledged, two for a new policy. */
  function Cost(e: Event): nat {
    match e
    case SetPolicy(_) => 2
    case RunCycle(c) => Copies(c.copyBeforeCapture) + Copies(c.copyOnHost) + Copies(c.copyBeforeFetch)
                        + if c.push == Dropped && c.lostPushApplied then 1 else 0
    case _ => 1
  }

  function TotalCost(events: seq<Event>): nat {
    if events == [] then 0 else Cost(events[0]) + TotalCost(events[1..])
  }

  ghost predicate Paid(s: State, s': State, cost: nat) {
    |s'.log| + Debt(s') <= |s.log| + Debt(s) + cost
  }

  lemma CopyPaid(s: State, x: Option<Payload>)
    ensures Paid(s, s.(host := s.host.Maybe(x)), Copies(x))
    ensures Paid(s, s.(guest := s.guest.Maybe(x)), Copies(x))
  {
    hide Visible;
  }

  lemma PushPaid(s: State, c: Cycle, hostCC: nat, payload: Payload)
    requires s.pending == None && s.lastHostHash == s.lastGuestHash
    requires payload == Visible(s.policy, s.host.content) && !Known(s, payload) && s.lastHostCount < hostCC <= s.host.count
    ensures Paid(s, Push(s, c, hostCC, payload).0, if c.push == Dropped && c.lostPushApplied then 1 else 0)
  {
    hide Visible;
    VisibleTwice(s.policy, s.host.content);
  }

  lemma AcceptPaid(s: State, c: Cycle, guestCC: nat)
    requires s.pending == None && s.lastHostHash == s.lastGuestHash && s.lastGuestCount < guestCC <= s.guest.count
    ensures Paid(s, Accept(s, c, guestCC, Visible(s.policy, s.guest.content)), 0)
  {
    hide Visible;
    VisibleTwice(s.policy, s.guest.content);
  }

  lemma HostPhasePaid(s: State, c: Cycle)
    requires s.pending == None && s.lastHostHash == s.lastGuestHash && s.lastHostCount <= s.host.count
    ensures Paid(s, HostPhase(s, c).0, Copies(c.copyBeforeCapture) + if c.push == Dropped && c.lostPushApplied then 1 else 0)
  {
    hide Visible, Push;
    var s1 := s.(host := s.host.Maybe(c.copyBeforeCapture));
    CopyPaid(s, c.copyBeforeCapture);
    var payload := Visible(s1.policy, s1.host.content);
    if s.host.count != s.lastHostCount && !Known(s1, payload) {
      PushPaid(s1, c, s.host.count, payload);
    }
  }

  lemma GuestPhasePaid(s: State, c: Cycle)
    requires s.pending == None && s.lastHostHash == s.lastGuestHash && s.lastGuestCount <= s.guest.count
    ensures Paid(s, GuestPhase(s, c), Copies(c.copyBeforeFetch))
  {
    hide Visible, Accept;
    CopyPaid(s, c.copyBeforeFetch);
    var s1 := s.(guest := s.guest.Maybe(c.copyBeforeFetch));
    if s.guest.count != s.lastGuestCount {
      AcceptPaid(s1, c, s.guest.count);
    }
  }

  lemma HostPhaseInOrder(s: State, c: Cycle)
    requires InOrder(s)
    ensures InOrder(HostPhase(s, c).0)
  {
    hide Visible;
  }

  lemma GuestPhaseInOrder(s: State, c: Cycle)
    requires InOrder(s)
    ensures InOrder(GuestPhase(s, c))
  {
    hide Visible;
  }

  /** Applying a policy makes up to both sides' contents news again, and settles the request. */
  lemma PendingPaid(s: State)
    ensures var s1 := ApplyPendingPolicy(s); Paid(s, s1, 0) && Paid(s, Connect(s1), 0)
  {
    hide Visible;
  }

  lemma PaidInTurn(s: State, s1: State, s2: State, a: nat, b: nat)
    requires Paid(s, s1, a) && Paid(s1, s2, b)
    ensures Paid(s, s2, a + b)
  {
    hide Debt;
  }

  lemma PaidMore(s: State, s': State, a: nat, b: nat)
    requires Paid(s, s', a) && a <= b
    ensures Paid(s, s', b)
  {
    hide Debt;
  }

  lemma CyclePaid(s: State, c: Cycle)
    requires InOrder(s)
    ensures Paid(s, Sync(s, c), Cost(RunCycle(c))) && InOrder(Sync(s, c))
  {
    hide Visible, HostPhase, GuestPhase, Paid;
    var s1 := ApplyPendingPolicy(s);
    PendingPaid(s);
    if s1.connected || c.reachable {
      var s1' := Connect(s1);
      HostPhaseInOrder(s1', c);
      HostPhasePaid(s1', c);
      var (s2, pushed) := HostPhase(s1', c);
      HostPhaseKeepsPolicy(s1', c);
      CopyPaid(s2, c.copyOnHost);
      var s3 := s2.(host := s2.host.Maybe(c.copyOnHost));
      GuestPhasePaid(s3, c);
      GuestPhaseInOrder(s3, c);
      var lost := if c.push == Dropped && c.lostPushApplied then 1 else 0;
      PaidInTurn(s, s1', s2, 0, Copies(c.copyBeforeCapture) + lost);
      PaidInTurn(s, s2, s3, Copies(c.copyBeforeCapture) + lost, Copies(c.copyOnHost));
      var soFar := Copies(c.copyBeforeCapture) + lost + Copies(c.copyOnHost);
      PaidInTurn(s, s3, GuestPhase(s3, c), soFar, Copies(c.copyBeforeFetch));
      PaidMore(s, s3, soFar, Cost(RunCycle(c)));
    } else {
      PaidMore(s, s1, 0, Cost(RunCycle(c)));
    }
  }

  lemma HostPhaseKeepsPolicy(s: State, c: Cycle)
    ensures HostPhase(s, c).0.pending == s.pending && HostPhase(s, c).0.policy == s.policy
  {
    hide Visible;
  }

  /**
   * Over every run, the payloads that crossed are at most those owed at the start plus one for each
   * copy a user made, one for each push that took effect although its reply was lost, and two for
   * each policy change: the engine never feeds on its own transfers.
   */
  lemma {:induction false} TransfersArePaidFor(s: State, events: seq<Event>)
    requires InOrder(s)
    ensures |Run(s, events).log| + Debt(Run(s, events)) <= |s.log| + Debt(s) + TotalCost(events)
    decreases |events|
  {
    hide InOrder, Step, Debt, Cost;
    if events != [] {
      StepPaid(s, events[0]);
      TransfersArePaidFor(Step(s, events[0]), events[1..]);
    }
  }

  lemma StepPaid(s: State, e: Event)
    requires InOrder(s)
    ensures Paid(s, Step(s, e), Cost(e)) && InOrder(Step(s, e))
  {
    hide Visible, Sync;
    match e
    case RunCycle(c) => CyclePaid(s, c);
    case HostCopy(x) => CopyPaid(s, Some(x));
    case GuestCopy(x) => CopyPaid(s, Some(x));
    case SetPolicy(_) =>
  }

  /** At the start at most the guest's contents are owed. */
  lemma InitialDebt(hash: Payload -> string, policy: Policy, host: Board, guest: Board, race: Option<Payload>)
    ensures Debt(Init(hash, policy, host, guest, race)) <= 1 && InOrder(Init(hash, policy, host, guest, race))
  {
    hide Visible;
  }

  /**
   * From the engine's start, over every run: it is safe after every step exactly if every cycle held up, and
   * the payloads that crossed are at most one more than what users, lost replies and policy changes pay for.
   */
  lemma StartedRun(hash: Payload -> string, policy: Policy, host: Board, guest: Board, race: Option<Payload>, events: seq<Event>)
    requires guest.count > 0
    ensures var s := Init(hash, policy, host, guest, race);
            && (SafeThroughout(s, events, Seen(policy, policy)) <==> AllHeld(s, events))
            && |Run(s, events).log| <= 1 + TotalCost(events)
  {
    hide Safe, InOrder, Run, AllHeld, SafeThroughout, Debt, TotalCost;
    var s := Init(hash, policy, host, guest, race);
    InitSafe(hash, policy, host, guest, race);
    RunSafe(s, events, Seen(policy, policy));
    InitialDebt(hash, policy, host, guest, race);
    TransfersArePaidFor(s, events);
  }

  /** From the engine's start, over every run in which every write landed, quiet cycles make both sides equal. */
  lemma StartedRunConverges(hash: Payload -> string, p: Policy, host: Board, guest: Board, race: Option<Payload>, events: seq<Event>, n: nat)
    requires Injective(hash) && p.enabled && p.direction == Bidirectional && guest.count > 0 && n >= 1
    requires Plain(p, host.content) && Plain(p, guest.content) && PlainOption(p, race)
    requires forall i :: 0 <= i < |events| ==> PlainEvent(p, events[i])
    requires AllLand(Init(hash, p, host, guest, race), events)
    ensures Equal(QuietCycles(Run(Init(hash, p, host, guest, race), events), n))
  {
    hide Injective, Plain, PlainEvent, Steady, Run, AllLand, QuietCycles, Init;
    InitSteady(hash, p, host, guest, race);
    RunSteady(Init(hash, p, host, guest, race), events, p);
    QuietRunConverges(Run(Init(hash, p, host, guest, race), events), p, n);
  }
}
