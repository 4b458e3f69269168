/** The clipboard engine as the program has it: an object whose sync cycle updates its fields step by step. */
module ClipboardEngine {
  import opened Bytes
  import opened Clipboard

  class Pasteboard {
    var count: nat
    var content: Payload

    ghost function Abs(): Board
      reads this
    {
      Board(count, content)
    }

    constructor (initial: Board)
      ensures Abs() == initial
    {
      count, content := initial.count, initial.content;
    }

    method Write(x: Payload)
      modifies this
      ensures Abs() == old(Abs()).Put(x)
    {
      count, content := count + 1, x;
    }

    /** Emptying the pasteboard is a change of its own. */
    method Clear()
      modifies this
      ensures Abs() == old(Abs()).Put(NOTHING)
    {
      count, content := count + 1, NOTHING;
    }

    /** Replaces the contents: files are staged first, then the pasteboard is cleared and written; any step may fail. */
    method Replace(x: Payload, outcome: Apply) returns (ok: bool)
      modifies this
      ensures ok == outcome.Written?
      ensures Abs() == match outcome case Written => old(Abs()).Put(x) case NotStaged => old(Abs()) case Cleared => old(Abs()).Put(NOTHING)
    {
      match outcome
      case NotStaged => return false;
      case Cleared =>
        Clear();
        return false;
      case Written =>
        Write(x);
        return true;
    }

    /** A user copies something, or does not. */
    method UserCopies(x: Option<Payload>)
      modifies this
      ensures Abs() == old(Abs()).Maybe(x)
    {
      if x.Some? {
        Write(x.value);
      }
    }
  }

  class Engine {
    const hash: Payload -> string
    const host: Pasteboard
    const guest: Pasteboard
    var policy: Policy
    var pendingPolicy: Option<Policy>
    var lastHostChangeCount: nat
    var lastGuestChangeCount: nat
    var lastHostHash: string
    var lastGuestHash: string
    var connected: bool
    var consecutiveFailures: nat
    ghost var log: seq<Transfer>

    ghost function Abs(): State
      reads this, host, guest
    {
      State(hash, policy, pendingPolicy, lastHostChangeCount, lastGuestChangeCount, lastHostHash, lastGuestHash,
            connected, consecutiveFailures, host.Abs(), guest.Abs(), log)
    }

    ghost predicate Valid() { host != guest }

    /** Starts without syncing anything: the guest is assumed to match the host. */
    constructor (hash: Payload -> string, policy: Policy, host: Pasteboard, guest: Pasteboard, race: Option<Payload>)
      requires host != guest
      modifies host
      ensures Valid() && this.host == host && this.guest == guest
      ensures Abs() == Init(hash, policy, old(host.Abs()), old(guest.Abs()), race)
    {
      this.hash, this.policy, this.host, this.guest := hash, policy, host, guest;
      pendingPolicy, lastGuestChangeCount, connected, consecutiveFailures, log := None, 0, false, 0, [];
      lastHostChangeCount := host.count;
      new;
      host.UserCopies(race);
      var h := hash(Visible(policy, host.content));
      lastHostHash, lastGuestHash := h, h;
    }

    /** Queues a live policy change; the next cycle applies it. */
    method RequestPolicy(p: Policy)
      modifies this`pendingPolicy
      ensures Abs() == Step(old(Abs()), SetPolicy(p))
    {
      pendingPolicy := Some(p);
    }

    method ApplyPending()
      modifies this`policy, this`pendingPolicy
      ensures Abs() == ApplyPendingPolicy(old(Abs()))
    {
      var pending := pendingPolicy;
      pendingPolicy := None;
      if pending.Some? {
        policy := pending.value;
      }
    }

    method HandleError(r: Reply)
      modifies this`consecutiveFailures, this`connected
      ensures Abs() == Fail(old(Abs()), r)
    {
      consecutiveFailures := consecutiveFailures + 1;
      if r == Dropped {
        connected := false;
      }
    }

    /** Sends a payload to the guest; a lost reply leaves open whether the guest took it. */
    method SetGuest(payload: Payload, reply: Reply, applied: bool)
      modifies guest
      ensures guest.Abs() == if reply == Answered || (reply == Dropped && applied) then old(guest.Abs()).Put(payload) else old(guest.Abs())
    {
      if reply == Answered || (reply == Dropped && applied) {
        guest.Write(payload);
      }
    }

    method SyncHostToGuest(c: Cycle) returns (pushed: bool)
      requires Valid()
      modifies this, host, guest
      ensures (Abs(), pushed) == HostPhase(old(Abs()), c)
    {
      hide Visible;
      pushed := false;
      if !policy.AllowHostToGuest() {
        return;
      }
      var hostCC := host.count;
      if hostCC == lastHostChangeCount {
        return;
      }
      host.UserCopies(c.copyBeforeCapture);
      var payload := Visible(policy, host.content);
      var h := hash(payload);
      if payload.Empty() || h == lastHostHash || h == lastGuestHash {
        lastHostChangeCount := hostCC;
        return;
      }
      SetGuest(payload, c.push, c.lostPushApplied);
      if c.push != Answered {
        HandleError(c.push);
        return;
      }
      lastHostChangeCount := hostCC;
      lastHostHash := h;
      lastGuestHash := h;
      consecutiveFailures := 0;
      log := log + [ToGuest(payload)];
      pushed := true;
    }

    /** Writes the guest's contents to the host, drops the error, and takes whatever counter the host has by then. */
    method ApplyHost(payload: Payload, c: Cycle) returns (ghost written: bool)
      modifies host, this`lastHostChangeCount
      ensures host.Abs() == AfterApply(old(host.Abs()), c, payload) && lastHostChangeCount == host.count
      ensures written == c.apply.Written?
    {
      var ok := host.Replace(payload, c.apply);
      written := ok;
      host.UserCopies(c.copyDuringApply);
      lastHostChangeCount := host.count;
    }

    method SyncGuestToHost(c: Cycle)
      requires Valid()
      modifies this, host, guest
      ensures Abs() == GuestPhase(old(Abs()), c)
    {
      hide Visible;
      if c.stat != Answered {
        HandleError(c.stat);
        return;
      }
      var guestCC := guest.count;
      if guestCC == lastGuestChangeCount {
        consecutiveFailures := 0;
        return;
      }
      guest.UserCopies(c.copyBeforeFetch);
      if c.fetch != Answered {
        HandleError(c.fetch);
        return;
      }
      var payload := Visible(policy, guest.content);
      var h := hash(payload);
      if !payload.Empty() && h != lastGuestHash && h != lastHostHash {
        ghost var written := ApplyHost(payload, c);
        lastGuestHash := h;
        lastHostHash := h;
        log := if written then log + [ToHost(payload)] else log;
      }
      lastGuestChangeCount := guestCC;
      consecutiveFailures := 0;
    }

    /** One cycle. It keeps the engine safe exactly if it held up. */
    method SyncOnce(c: Cycle)
      requires Valid()
      modifies this, host, guest
      ensures Abs() == Sync(old(Abs()), c)
      ensures forall seen :: old(Safe(Abs(), seen)) ==> (Safe(Abs(), SeenAfter(old(Abs()), RunCycle(c), seen)) <==> CycleHeld(old(Abs()), c))
    {
      hide Visible, HostPhase, GuestPhase, Safe, SeenAfter, CycleHeld;
      ghost var s := Abs();
      ApplyPending();
      if connected || c.reachable {
        if !connected {
          connected, consecutiveFailures := true, 0;
        }
        var pushed := SyncHostToGuest(c);
        host.UserCopies(c.copyOnHost);
        if !pushed && policy.AllowGuestToHost() && connected {
          SyncGuestToHost(c);
        }
      }
      assert Abs() == Sync(s, c);
      forall seen | Safe(s, seen) ensures Safe(Abs(), SeenAfter(s, RunCycle(c), seen)) <==> CycleHeld(s, c) {
        StepSafe(s, RunCycle(c), seen);
      }
    }
  }
}
