/** The clipboard throttle: a token bucket over real-valued time, shared by any number of competing transfers. */
module TokenBucket {
  import opened Bytes

  const NANO: real := 0.000000001
  const MILLISECOND: nat := 1_000_000

  datatype Bucket = Bucket(rate: real, burst: real, tokens: real, last: real)

  /** None means unlimited. */
  function NewLimiter(bytesPerSec: int, now: real): Option<Bucket> {
    if bytesPerSec <= 0 then None
    else Some(Bucket(bytesPerSec as real, bytesPerSec as real, bytesPerSec as real, now))
  }

  /** The bytes per second a session declares and grants to the clipboard: megabits, and a percentage of them. */
  function Budget(sessionMbps: int, bandwidthPct: int): int {
    if sessionMbps <= 0 || bandwidthPct <= 0 then 0
    else sessionMbps * 1_000_000 / 8 * (if bandwidthPct < 100 then bandwidthPct else 100) / 100
  }

  ghost predicate Sane(b: Bucket) {
    b.rate > 0.0 && b.tokens <= b.burst
  }

  // ----- one turn of the wait loop

  /** One try, by any transfer: a request for `n` bytes at instant `now`. */
  datatype Try = Try(now: real, n: nat)

  /** The bytes the budget gains over a stretch of time. */
  function Gain(elapsed: real, rate: real): real {
    elapsed * rate
  }

  function Refill(b: Bucket, now: real): Bucket {
    var t := b.tokens + Gain(now - b.last, b.rate);
    b.(tokens := if t > b.burst then b.burst else t, last := now)
  }

  /** Enough tokens, or a request that could never get enough. */
  predicate Grants(b: Bucket, e: Try) {
    var r := Refill(b, e.now);
    r.tokens >= e.n as real || e.n as real > b.burst
  }

  function Step(b: Bucket, e: Try): Bucket {
    var r := Refill(b, e.now);
    if Grants(b, e) then r.(tokens := r.tokens - e.n as real) else r
  }

  /** How long the budget takes to gain the bytes that are missing, in whole nanoseconds, rounded down. */
  function Nanos(deficit: real, rate: real): int
    requires rate > 0.0
  {
    (deficit / rate / NANO).Floor
  }

  /** Nanoseconds a refused request sleeps before it tries again. */
  function Wait(b: Bucket, e: Try): (w: int)
    requires b.rate > 0.0 && !Grants(b, e)
  {
    var ns := Nanos(e.n as real - Refill(b, e.now).tokens, b.rate);
    if ns <= 0 then MILLISECOND else ns
  }

  // ----- runs of any number of competing transfers

  function Run(b: Bucket, es: seq<Try>): Bucket
    decreases |es|
  {
    if es == [] then b else Run(Step(b, es[0]), es[1..])
  }

  /** The bytes granted over a run. */
  function Granted(b: Bucket, es: seq<Try>): real
    decreases |es|
  {
    if es == [] then 0.0
    else (if Grants(b, es[0]) then es[0].n as real else 0.0) + Granted(Step(b, es[0]), es[1..])
  }

  /** The clock does not run backwards. */
  predicate Ordered(since: real, es: seq<Try>)
    decreases |es|
  {
    es != [] ==> since <= es[0].now && Ordered(es[0].now, es[1..])
  }

  function End(since: real, es: seq<Try>): real {
    if es == [] then since else es[|es| - 1].now
  }

  lemma StepSane(b: Bucket, e: Try)
    requires Sane(b)
    ensures var b' := Step(b, e); Sane(b') && b'.rate == b.rate && b'.burst == b.burst && b'.last == e.now
  {
  }

  /** What the bucket would hold at an instant between two tries. */
  function Level(b: Bucket, at: real): real {
    Refill(b, at).tokens
  }

  lemma Elapsed(rate: real, a: real, b: real, c: real)
    requires rate > 0.0 && a <= b <= c
    ensures (b - a) * rate + (c - b) * rate == (c - a) * rate
    ensures (b - a) * rate >= 0.0 && (c - b) * rate >= 0.0
  {
    assert (b - a) * rate + (c - b) * rate == (c - a) * rate by {
      assert (b - a) + (c - b) == c - a;
    }
  }

  lemma LevelRises(b: Bucket, s: real, t: real)
    requires Sane(b) && b.last <= s <= t
    ensures Level(b, t) <= Level(b, s) + (t - s) * b.rate
  {
    Elapsed(b.rate, b.last, s, t);
  }

  /** Granted bytes are paid for by the level at the start, the refill, and the debt left at the end. */
  lemma {:induction false} RunIsPaidFor(b: Bucket, since: real, es: seq<Try>)
    requires Sane(b) && b.last <= since && Ordered(since, es)
    ensures Granted(b, es) + Level(Run(b, es), End(since, es)) <= Level(b, since) + (End(since, es) - since) * b.rate
    ensures Sane(Run(b, es)) && Run(b, es).burst == b.burst && since <= End(since, es)
    decreases |es|
  {
    hide Refill, Grants, Step, Level;
    if es != [] {
      var t, b' := es[0].now, Step(b, es[0]);
      StepSane(b, es[0]);
      LevelRises(b, since, t);
      StepPays(b, es[0]);
      RunIsPaidFor(b', t, es[1..]);
      assert End(since, es) == End(t, es[1..]);
      Elapsed(b.rate, since, t, End(since, es));
    } else {
      NoTime(b.rate, since);
    }
  }

  lemma NoTime(rate: real, t: real)
    ensures (t - t) * rate == 0.0
  {
  }

  lemma StepPays(b: Bucket, e: Try)
    requires Sane(b)
    ensures Level(Step(b, e), e.now) == Level(b, e.now) - if Grants(b, e) then e.n as real else 0.0
  {
    var b' := Step(b, e);
    NoTime(b'.rate, e.now);
    assert b'.last == e.now && b'.tokens <= b'.burst;
    assert Refill(b', e.now).tokens == b'.tokens;
  }

  lemma LevelBelowBurst(b: Bucket, t: real)
    ensures Level(b, t) <= b.burst
  {
  }

  /**
   * The bound: whenever a request no larger than the burst is granted, everything granted since any earlier
   * instant, oversized grants included, is at most the burst plus what the rate allows in between.
   */
  lemma GrantedIsBounded(b: Bucket, since: real, es: seq<Try>, e: Try)
    requires Sane(b) && b.last <= since && Ordered(since, es + [e])
    requires e.n as real <= b.burst && Grants(Run(b, es), e)
    ensures Granted(b, es + [e]) <= b.burst + (e.now - since) * b.rate
  {
    hide Refill, Step, Level, Granted;
    RunAppend(b, es, e);
    OrderedPrefix(since, es, e);
    RunIsPaidFor(b, since, es);
    RunIsPaidFor(b, since, es + [e]);
    GrantLeavesTokens(Run(b, es), e);
    LevelBelowBurst(b, since);
  }

  lemma GrantLeavesTokens(b: Bucket, e: Try)
    requires Sane(b) && e.n as real <= b.burst && Grants(b, e)
    ensures Level(Step(b, e), e.now) >= 0.0
  {
    StepPays(b, e);
  }

  lemma {:induction false} RunAppend(b: Bucket, es: seq<Try>, e: Try)
    ensures Run(b, es + [e]) == Step(Run(b, es), e)
    decreases |es|
  {
    hide Step;
    if es == [] {
      assert [e][1..] == [];
      assert es + [e] == [e];
      assert Run(Step(b, e), []) == Step(b, e);
    } else {
      assert (es + [e])[1..] == es[1..] + [e];
      RunAppend(Step(b, es[0]), es[1..], e);
    }
  }

  lemma {:induction false} OrderedPrefix(since: real, es: seq<Try>, e: Try)
    requires Ordered(since, es + [e])
    ensures Ordered(since, es)
    decreases |es|
  {
    if es != [] {
      assert (es + [e])[1..] == es[1..] + [e];
      OrderedPrefix(es[0].now, es[1..], e);
    }
  }

  /** The bytes granted at or after an instant. */
  function GrantedSince(b: Bucket, es: seq<Try>, since: real): real
    decreases |es|
  {
    if es == [] then 0.0
    else (if Grants(b, es[0]) && es[0].now >= since then es[0].n as real else 0.0) + GrantedSince(Step(b, es[0]), es[1..], since)
  }

  lemma {:induction false} GrantedAllSince(b: Bucket, es: seq<Try>, since: real)
    requires Ordered(since, es)
    ensures GrantedSince(b, es, since) == Granted(b, es)
    decreases |es|
  {
    hide Grants, Step;
    if es != [] {
      OrderedEarlier(since, es[0].now, es[1..]);
      GrantedAllSince(Step(b, es[0]), es[1..], since);
    }
  }

  lemma OrderedEarlier(s: real, t: real, es: seq<Try>)
    requires s <= t && Ordered(t, es)
    ensures Ordered(s, es)
  {
  }

  /** From any instant of the run on, granted bytes are paid for by a full bucket and the refill since. */
  lemma {:induction false} SinceIsPaidFor(b: Bucket, since: real, es: seq<Try>)
    requires Sane(b) && b.last <= since && Ordered(b.last, es) && since <= End(b.last, es)
    ensures var end := End(b.last, es);
            GrantedSince(b, es, since) + Level(Run(b, es), end) <= b.burst + Gain(end - since, b.rate)
    decreases |es|
  {
    hide Refill, Grants, Step, Level;
    if es == [] {
      assert since == b.last && End(b.last, es) == since && Run(b, es) == b;
      NoTime(b.rate, since);
      LevelBelowBurst(b, since);
    } else if es[0].now >= since {
      FromHere(b, since, es);
      GrantedAllSince(b, es, since);
      RunIsPaidFor(b, since, es);
      LevelBelowBurst(b, since);
      EndFrom(b.last, since, es);
    } else {
      StepSane(b, es[0]);
      EndFrom(b.last, es[0].now, es[1..]);
      SinceIsPaidFor(Step(b, es[0]), since, es[1..]);
    }
  }

  lemma FromHere(b: Bucket, since: real, es: seq<Try>)
    requires Ordered(b.last, es) && (es != [] ==> since <= es[0].now)
    ensures Ordered(since, es)
  {
  }

  lemma EndFrom(s: real, t: real, es: seq<Try>)
    ensures es != [] ==> End(s, es) == End(t, es)
  {
  }

  lemma {:induction false} GrantedNotNegative(b: Bucket, es: seq<Try>, since: real)
    ensures GrantedSince(b, es, since) >= 0.0
    decreases |es|
  {
    hide Grants, Step;
    if es != [] {
      GrantedNotNegative(Step(b, es[0]), es[1..], since);
    }
  }

  /** The last request counts in full at its own instant. */
  lemma {:induction false} LastCounts(b: Bucket, es: seq<Try>, e: Try)
    requires Grants(Run(b, es), e)
    ensures GrantedSince(b, es + [e], e.now) >= e.n as real
    decreases |es|
  {
    hide Grants, Step;
    if es == [] {
      assert (es + [e])[0] == e && (es + [e])[1..] == [];
    } else {
      assert (es + [e])[0] == es[0] && (es + [e])[1..] == es[1..] + [e];
      LastCounts(Step(b, es[0]), es[1..], e);
    }
  }

  /** From each instant of the run up to its end, what was granted since keeps to the burst and the rate. */
  ghost predicate KeepsTheBound(b: Bucket, es: seq<Try>, end: real) {
    forall since: real :: b.last <= since <= end ==> GrantedSince(b, es, since) <= b.burst + Gain(end - since, b.rate)
  }

  /**
   * Whenever a request is granted, at the end of any run of competing tries: what was granted since each
   * earlier instant is at most the burst plus the rate times the time passed if and only if the request was
   * no larger than the burst.
   */
  lemma BoundHoldsExactly(b: Bucket, es: seq<Try>, e: Try)
    requires Sane(b) && Ordered(b.last, es + [e]) && Grants(Run(b, es), e)
    ensures e.n as real <= b.burst <==> KeepsTheBound(b, es + [e], e.now)
  {
    hide Refill, Step, Level, GrantedSince, Grants, Gain;
    RunSane(b, es, e);
    RunAppend(b, es, e);
    LastIsEnd(b.last, es, e);
    if e.n as real <= b.burst {
      GrantLeavesTokens(Run(b, es), e);
      forall since: real | b.last <= since <= e.now
        ensures GrantedSince(b, es + [e], since) <= b.burst + Gain(e.now - since, b.rate)
      {
        SinceIsPaidFor(b, since, es + [e]);
      }
    } else {
      LastCounts(b, es, e);
      NoGain(b.rate, e.now);
      assert GrantedSince(b, es + [e], e.now) > b.burst + Gain(e.now - e.now, b.rate);
    }
  }

  lemma NoGain(rate: real, t: real)
    ensures Gain(t - t, rate) == 0.0
  {
  }

  lemma LastIsEnd(since: real, es: seq<Try>, e: Try)
    requires Ordered(since, es + [e])
    ensures End(since, es + [e]) == e.now && since <= e.now
  {
    OrderedEnd(since, es + [e]);
  }

  lemma {:induction false} OrderedEnd(since: real, es: seq<Try>)
    requires Ordered(since, es)
    ensures since <= End(since, es)
    decreases |es|
  {
    if es != [] {
      OrderedEnd(es[0].now, es[1..]);
      assert End(since, es) == End(es[0].now, es[1..]);
    }
  }

  lemma RunSane(b: Bucket, es: seq<Try>, e: Try)
    requires Sane(b) && Ordered(b.last, es + [e])
    ensures Sane(Run(b, es)) && Run(b, es).burst == b.burst
  {
    hide Refill, Grants, Step, Level;
    OrderedPrefix(b.last, es, e);
    RunIsPaidFor(b, b.last, es);
  }

  // ----- a request without competitors

  lemma WakeRefill(b: Bucket, e: Try, d: real)
    requires Sane(b) && d >= 0.0 && !Grants(b, e)
    ensures Grants(Step(b, e), Try(e.now + d, e.n)) <==> Refill(b, e.now).tokens + d * b.rate >= e.n as real
  {
    assert (e.now + d) - e.now == d;
  }

  lemma Floors(x: real)
    ensures x.Floor as real <= x < x.Floor as real + 1.0
  {
  }

  /** Refused, then woken after `d` seconds with no one in between: granted exactly if the refill covers what was missing. */
  lemma WokenIsGrantedIff(b: Bucket, e: Try, d: real)
    requires Sane(b) && d >= 0.0 && !Grants(b, e)
    ensures Grants(Step(b, e), Try(e.now + d, e.n)) <==> d * b.rate >= e.n as real - Refill(b, e.now).tokens
  {
    WakeRefill(b, e, d);
  }

  lemma Scaled(x: real, rate: real)
    requires rate > 0.0
    ensures x / rate * rate == x
  {
  }

  lemma TimesMono(a: real, b: real, rate: real)
    requires rate > 0.0 && a <= b
    ensures a * rate <= b * rate
  {
    assert (b - a) * rate >= 0.0;
  }

  /** A wake-up one nanosecond after the computed wait is always late enough. */
  lemma OneWaitSuffices(b: Bucket, e: Try, d: real)
    requires Sane(b) && !Grants(b, e)
    requires d >= (Wait(b, e) + 1) as real * 0.000000001
    ensures Grants(Step(b, e), Try(e.now + d, e.n))
  {
    hide Grants, Refill, Step;
    var deficit := Missing(b, e);
    var x := deficit / b.rate / NANO;
    Floors(x);
    assert deficit / b.rate <= d;
    TimesMono(deficit / b.rate, d, b.rate);
    Scaled(deficit, b.rate);
    WokenIsGrantedIff(b, e, d);
  }

  /** What a refused request lacks is positive. */
  function Missing(b: Bucket, e: Try): (r: real)
    ensures !Grants(b, e) ==> r > 0.0
  {
    e.n as real - Refill(b, e.now).tokens
  }

  lemma FloorIs(x: real, k: int)
    requires k as real <= x < k as real + 1.0
    ensures x.Floor == k
  {
  }

  lemma SomeGains()
    ensures Gain(0.0, 400_000_000.0) == 0.0
    ensures Gain(0.000000002, 400_000_000.0) == 0.8
  {
  }

  /** One byte at 400 MB/s takes two and a half nanoseconds. */
  lemma OneByte()
    ensures Nanos(1.0, 400_000_000.0) == 2
  {
    assert 1.0 / 400_000_000.0 == 0.0000000025;
    assert 0.0000000025 / NANO == 2.5;
    FloorIs(2.5, 2);
  }

  lemma RefusedWhen(b: Bucket, e: Try)
    requires b.rate > 0.0 && Refill(b, e.now).tokens < e.n as real <= b.burst
    ensures !Grants(b, e) && Step(b, e) == Refill(b, e.now)
    ensures var ns := Nanos(e.n as real - Refill(b, e.now).tokens, b.rate); ns > 0 ==> Wait(b, e) == ns
  {
    hide Nanos, Refill;
  }

  lemma RefillIs(b: Bucket, now: real, gain: real)
    requires Gain(now - b.last, b.rate) == gain && b.tokens + gain <= b.burst
    ensures Refill(b, now) == b.(tokens := b.tokens + gain, last := now)
  {
    hide Gain;
  }

  /** The wait is rounded down to whole nanoseconds, so a prompt wake-up can find the bucket just short. */
  lemma PromptWakeCanFail()
    ensures var b := Bucket(400_000_000.0, 400_000_000.0, 0.0, 0.0);
            var e := Try(0.0, 1);
            && Sane(b) && !Grants(b, e) && Wait(b, e) == 2
            && !Grants(Step(b, e), Try(0.000000002, 1))
  {
    hide Gain, Nanos, Refill, Grants, Step, Wait;
    SomeGains();
    OneByte();
    var b := Bucket(400_000_000.0, 400_000_000.0, 0.0, 0.0);
    RefillIs(b, 0.0, 0.0);
    RefusedWhen(b, Try(0.0, 1));
    RefillIs(b, 0.000000002, 0.8);
    RefusedWhen(b, Try(0.000000002, 1));
  }

  /**
   * A request without competitors waits at most twice: if the first wake-up, not before the computed wait,
   * is still refused, then less than a nanosecond's worth is missing, the second wait is a millisecond, and
   * any wake-up after it is granted.
   */
  lemma TwoWaitsSuffice(b: Bucket, e: Try, d1: real, d2: real)
    requires Sane(b) && !Grants(b, e) && d1 >= Wait(b, e) as real * 0.000000001
    ensures var b1, e1 := Step(b, e), Try(e.now + d1, e.n);
            !Grants(b1, e1) ==>
              && Wait(b1, e1) == 1_000_000
              && (d2 >= 1_000_000.0 * 0.000000001 ==> Grants(Step(b1, e1), Try(e1.now + d2, e.n)))
  {
    hide Grants, Refill, Step, Missing, Wait;
    var b1, e1 := Step(b, e), Try(e.now + d1, e.n);
    if !Grants(b1, e1) {
      StepSane(b, e);
      LittleIsMissing(b, e, d1);
      SmallMissingWaitsAMillisecond(b1, e1);
      if d2 >= MILLISECOND as real * NANO {
        TimesMono(NANO, d2, b1.rate);
        WokenIsGranted(b1, e1, d2);
      }
    }
  }

  lemma WokenIsGranted(b: Bucket, e: Try, d: real)
    requires Sane(b) && d >= 0.0 && !Grants(b, e) && d * b.rate >= Missing(b, e)
    ensures Grants(Step(b, e), Try(e.now + d, e.n))
  {
    hide Grants, Refill, Step;
    WokenIsGrantedIff(b, e, d);
  }

  lemma LittleIsMissing(b: Bucket, e: Try, d: real)
    requires Sane(b) && !Grants(b, e) && d >= Wait(b, e) as real * 0.000000001
    requires !Grants(Step(b, e), Try(e.now + d, e.n))
    ensures Missing(Step(b, e), Try(e.now + d, e.n)) < 0.000000001 * b.rate
  {
    hide Grants, Refill, Step;
    var deficit := Missing(b, e);
    var x := deficit / b.rate / NANO;
    Floors(x);
    assert deficit / b.rate - d < NANO;
    Scaled(deficit, b.rate);
    var y := deficit / b.rate;
    LessTimes(y - d, NANO, b.rate);
    assert (y - d) * b.rate == deficit - d * b.rate;
    RefillMissing(b, e, d);
  }

  lemma LessTimes(a: real, b: real, rate: real)
    requires rate > 0.0 && a < b
    ensures a * rate < b * rate
  {
    assert (b - a) * rate > 0.0;
  }

  lemma RefillMissing(b: Bucket, e: Try, d: real)
    requires Sane(b) && !Grants(b, e) && d >= 0.0 && !Grants(Step(b, e), Try(e.now + d, e.n))
    ensures Missing(Step(b, e), Try(e.now + d, e.n)) == Missing(b, e) - d * b.rate
  {
    assert (e.now + d) - e.now == d;
  }

  lemma SmallMissingWaitsAMillisecond(b: Bucket, e: Try)
    requires Sane(b) && !Grants(b, e) && Missing(b, e) < 0.000000001 * b.rate
    ensures Wait(b, e) == 1_000_000
  {
    hide Grants, Refill;
    var m := Missing(b, e);
    LessDivides(m, NANO, b.rate);
    assert m / b.rate / NANO < 1.0;
    Floors(m / b.rate / NANO);
  }

  lemma LessDivides(a: real, b: real, rate: real)
    requires rate > 0.0 && a < b * rate
    ensures a / rate < b
  {
    if a / rate >= b {
      TimesMono(b, a / rate, rate);
      Scaled(a, rate);
    }
  }

  // ----- the limiter as an object

  datatype Outcome = Granted(at: real) | Cancelled

  /** The loop of one request over the instants at which it wakes; running out of them is a cancelled context. */
  function WaitLoop(b: Bucket, n: nat, wakes: seq<real>): (Bucket, Outcome)
    decreases |wakes|
  {
    if wakes == [] then (b, Cancelled)
    else if Grants(b, Try(wakes[0], n)) then (Step(b, Try(wakes[0], n)), Outcome.Granted(wakes[0]))
    else WaitLoop(Step(b, Try(wakes[0], n)), n, wakes[1..])
  }

  /** Each wake-up comes no earlier than the timer the refusal before it set. */
  ghost predicate Timely(b: Bucket, n: nat, wakes: seq<real>)
    requires b.rate > 0.0
    decreases |wakes|
  {
    |wakes| >= 2 && !Grants(b, Try(wakes[0], n)) ==>
      && wakes[1] >= wakes[0] + Wait(b, Try(wakes[0], n)) as real * 0.000000001
      && Timely(Step(b, Try(wakes[0], n)), n, wakes[1..])
  }

  /** With no one in between, a request that sleeps as long as it computed is granted by its third wake-up. */
  lemma ThirdWakeGrants(b: Bucket, n: nat, wakes: seq<real>)
    requires Sane(b) && |wakes| >= 3 && Timely(b, n, wakes)
    ensures var r := WaitLoop(b, n, wakes).1; r.Granted? && r.at in wakes[..3]
  {
    hide Grants, Refill, Step, Wait;
    var e := Try(wakes[0], n);
    LoopStep(b, n, wakes);
    if !Grants(b, e) {
      var b1, e1 := Step(b, e), Try(wakes[1], n);
      StepSane(b, e);
      LoopStep(b1, n, wakes[1..]);
      assert wakes[1..][0] == wakes[1] && wakes[1..][1..] == wakes[2..];
      TwoWaitsSuffice(b, e, wakes[1] - wakes[0], wakes[2] - wakes[1]);
      assert Try(e.now + (wakes[1] - wakes[0]), n) == e1;
      if !Grants(b1, e1) {
        assert wakes[1..][1] == wakes[2];
        assert Try(e1.now + (wakes[2] - wakes[1]), n) == Try(wakes[2], n);
        LoopStep(Step(b1, e1), n, wakes[2..]);
      }
    }
  }

  lemma LoopStep(b: Bucket, n: nat, wakes: seq<real>)
    requires wakes != []
    ensures WaitLoop(b, n, wakes) ==
              if Grants(b, Try(wakes[0], n)) then (Step(b, Try(wakes[0], n)), Outcome.Granted(wakes[0]))
              else WaitLoop(Step(b, Try(wakes[0], n)), n, wakes[1..])
  {
    hide Grants, Step;
  }

  // ----- a fresh limiter

  /** No budget is no limit; a budget is the declared percentage, at most all, of the session, rounded down to whole bytes. */
  lemma BudgetIsShare(sessionMbps: int, bandwidthPct: int, now: real)
    ensures NewLimiter(Budget(sessionMbps, bandwidthPct), now) == None <==> sessionMbps <= 0 || bandwidthPct <= 0
    ensures sessionMbps > 0 && bandwidthPct > 0 ==>
              var share := sessionMbps * 125_000 * (if bandwidthPct < 100 then bandwidthPct else 100);
              Budget(sessionMbps, bandwidthPct) * 100 <= share < Budget(sessionMbps, bandwidthPct) * 100 + 100
  {
    if sessionMbps > 0 && bandwidthPct > 0 {
      assert sessionMbps * 1_000_000 / 8 == sessionMbps * 125_000;
      var pct := if bandwidthPct < 100 then bandwidthPct else 100;
      AtLeastOne(sessionMbps, pct);
    }
  }

  lemma AtLeastOne(sessionMbps: int, pct: int)
    requires sessionMbps >= 1 && pct >= 1
    ensures sessionMbps * 125_000 * pct >= 125_000
  {
  }

  /** A fresh limiter grants one second of budget at once; then `k` bytes more exactly when the budget has gained them. */
  lemma OneSecondAtOnce(bytesPerSec: nat, now: real, k: nat, t: real)
    requires 0 < k <= bytesPerSec && t >= 0.0
    ensures var b := NewLimiter(bytesPerSec, now).value;
            && Grants(b, Try(now, bytesPerSec))
            && (Grants(Step(b, Try(now, bytesPerSec)), Try(now + t, k)) <==> t * bytesPerSec as real >= k as real)
  {
    assert Gain(0.0, bytesPerSec as real) == 0.0;
    assert Gain(t, bytesPerSec as real) == t * bytesPerSec as real;
  }

  /** From a fresh limiter: whatever competes, when a fitting request is granted, no more has been granted than the budget of the time passed and one second. */
  lemma FreshIsBounded(bytesPerSec: nat, now: real, es: seq<Try>, e: Try)
    requires bytesPerSec > 0 && Ordered(now, es + [e]) && e.n <= bytesPerSec
    requires Grants(Run(NewLimiter(bytesPerSec, now).value, es), e)
    ensures Granted(NewLimiter(bytesPerSec, now).value, es + [e]) <= bytesPerSec as real * (1.0 + (e.now - now))
  {
    hide Grants, Run, Ordered, Granted;
    GrantedIsBounded(NewLimiter(bytesPerSec, now).value, now, es, e);
  }

  class Limiter {
    const ratePerSec: real
    const burst: real
    var tokens: real
    var last: real

    ghost function Abs(): Bucket
      reads this
    {
      Bucket(ratePerSec, burst, tokens, last)
    }

    constructor (bytesPerSec: int, now: real)
      requires bytesPerSec > 0
      ensures NewLimiter(bytesPerSec, now) == Some(Abs())
      ensures Sane(Abs())
    {
      ratePerSec, burst, tokens, last := bytesPerSec as real, bytesPerSec as real, bytesPerSec as real, now;
    }

    /** One turn under the lock; `wait` is meaningful when the request is refused. */
    method TryTake(now: real, n: nat) returns (granted: bool, wait: int)
      requires ratePerSec > 0.0
      modifies this
      ensures granted == Grants(old(Abs()), Try(now, n))
      ensures Abs() == Step(old(Abs()), Try(now, n))
      ensures !granted ==> wait == Wait(old(Abs()), Try(now, n))
    {
      hide Gain;
      ghost var b := Abs();
      tokens := tokens + Gain(now - last, ratePerSec);
      last := now;
      if tokens > burst {
        tokens := burst;
      }
      assert Abs() == Refill(b, now);
      hide Refill;
      if tokens >= n as real || n as real > burst {
        tokens := tokens - n as real;
        return true, 0;
      }
      var deficit := n as real - tokens;
      wait := Nanos(deficit, ratePerSec);
      if wait <= 0 {
        wait := MILLISECOND;
      }
      granted := false;
    }

    /** Blocks until the budget is there or the context is done; a request for nothing returns at once. */
    method WaitN(n: int, wakes: seq<real>) returns (r: Outcome)
      requires ratePerSec > 0.0
      modifies this
      ensures n <= 0 ==> Abs() == old(Abs()) && r == Outcome.Granted(last)
      ensures n > 0 ==> (Abs(), r) == WaitLoop(old(Abs()), n, wakes)
    {
      if n <= 0 {
        return Outcome.Granted(last);
      }
      hide Step, Grants;
      var i := 0;
      while i < |wakes|
        invariant i <= |wakes| && ratePerSec > 0.0
        invariant WaitLoop(old(Abs()), n, wakes) == WaitLoop(Abs(), n, wakes[i..])
      {
        assert wakes[i..][1..] == wakes[i + 1..];
        var granted, wait := TryTake(wakes[i], n);
        if granted {
          return Outcome.Granted(wakes[i]);
        }
        i := i + 1;
      }
      r := Cancelled;
    }
  }

  /** The gate of a transfer: without a limiter nothing waits. */
  method PassGate(l: Limiter?, now: real, n: int, wakes: seq<real>) returns (r: Outcome)
    requires l != null ==> l.ratePerSec > 0.0
    modifies l
    ensures l == null ==> r == Outcome.Granted(now)
    ensures l != null && n > 0 ==> (l.Abs(), r) == WaitLoop(old(l.Abs()), n, wakes)
  {
    if l == null {
      return Outcome.Granted(now);
    }
    r := l.WaitN(n, wakes);
  }
}
