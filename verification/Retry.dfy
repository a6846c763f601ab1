/** The retry loop (patroni/utils.py). Calls, clock readings and random jitter come from outside. */
module Retry {
  import opened Wrappers

  datatype Outcome<T> =
    | Success(value: T)
    | Retryable(sleeptime: Option<real>)  // a configured exception, perhaps with its own sleep time
    | Fatal                               // any other exception

  /** One call of the function: the clock before it, its outcome, the clock after it, and the
      jitter drawn in hundredths of a second. */
  datatype Attempt<T> = Attempt(start: real, outcome: Outcome<T>, end: real, jitter: nat)

  /** What successive calls would meet. */
  type World<!T> = nat -> Attempt<T>

  datatype Sleep = Sleep(start: real, duration: real)

  datatype Verdict<T> = Returns(value: T) | Raises | TooManyAttempts | DeadlineExceeded

  datatype Policy = Policy(maxTries: Option<int>, delay: real, backoff: real, maxDelay: real, deadline: Option<real>)

  function Min(x: real, y: real): real { if x < y then x else y }

  function NextDelay(p: Policy, d: real): real { Min(d * p.backoff, p.maxDelay) }

  /** The delay after the `i`-th call. */
  function DelayAt(p: Policy, i: nat): real {
    if i == 0 then p.delay else NextDelay(p, DelayAt(p, i - 1))
  }

  function SleepTime<T>(p: Policy, w: World<T>, i: nat): real
    requires w(i).outcome.Retryable?
  {
    match w(i).outcome.sleeptime
    case Some(s) => s
    case None => DelayAt(p, i) + w(i).jitter as real / 100.0
  }

  function StopTime<T>(p: Policy, w: World<T>): Option<real> {
    match p.deadline case None => None case Some(d) => Some(w(0).start + d)
  }

  predicate OutOfTries<T>(p: Policy, w: World<T>, i: nat) {
    w(i).outcome.Retryable? && p.maxTries == Some(i)
  }

  predicate OutOfTime<T>(p: Policy, w: World<T>, i: nat) {
    && w(i).outcome.Retryable? && !OutOfTries(p, w, i)
    && StopTime(p, w).Some? && w(i).end + SleepTime(p, w, i) >= StopTime(p, w).value
  }

  /** The `i`-th call is followed by another one. */
  predicate Continues<T>(p: Policy, w: World<T>, i: nat) {
    w(i).outcome.Retryable? && !OutOfTries(p, w, i) && !OutOfTime(p, w, i)
  }

  ghost predicate AllContinue<T>(p: Policy, w: World<T>, n: nat) {
    forall i: nat :: i < n ==> Continues(p, w, i)
  }

  /** The sleep after the `i`-th call: it ends before the stop time. */
  predicate Slept<T>(p: Policy, w: World<T>, i: nat, sleep: Sleep) {
    && w(i).outcome.Retryable? && sleep == Sleep(w(i).end, SleepTime(p, w, i))
    && (StopTime(p, w).Some? ==> sleep.start + sleep.duration < StopTime(p, w).value)
  }

  /** The clock does not run backwards, and a sleep lasts at least as long as asked. */
  ghost predicate RealClock<T>(p: Policy, w: World<T>) {
    && (forall i: nat :: w(i).start <= w(i).end)
    && (forall i: nat :: Continues(p, w, i) ==> w(i).end + SleepTime(p, w, i) <= w(i + 1).start)
  }

  ghost predicate NoOverride<T>(w: World<T>) {
    forall i: nat :: w(i).outcome.Retryable? ==> w(i).outcome.sleeptime.None?
  }

  ghost predicate CountBounds(p: Policy) { p.maxTries.Some? && p.maxTries.value >= 0 }

  ghost predicate DeadlineBounds<T>(p: Policy, w: World<T>) {
    && p.deadline.Some? && p.delay > 0.0 && p.backoff >= 1.0 && p.maxDelay >= p.delay
    && NoOverride(w) && RealClock(p, w)
  }

  lemma {:induction false} DelayBounds(p: Policy, i: nat)
    requires p.delay > 0.0 && p.backoff >= 1.0 && p.maxDelay >= p.delay
    ensures p.delay <= DelayAt(p, i) <= p.maxDelay
    ensures DelayAt(p, i) <= DelayAt(p, i + 1)
  {
    hide NextDelay;
    if i > 0 {
      DelayBounds(p, i - 1);
      NextDelayBounds(p, DelayAt(p, i - 1));
    }
    NextDelayBounds(p, DelayAt(p, i));
  }

  lemma NextDelayBounds(p: Policy, d: real)
    requires 0.0 < p.delay <= d <= p.maxDelay && p.backoff >= 1.0
    ensures d <= NextDelay(p, d) <= p.maxDelay
  {
    Grows(d, p.backoff);
  }

  lemma Grows(x: real, b: real)
    requires x > 0.0 && b >= 1.0
    ensures x * b >= x
  {
    assert x * b == x + x * (b - 1.0);
  }

  /** After `n` sleeps the clock has moved on by at least `n` delays. */
  lemma {:induction false} TimePasses<T>(p: Policy, w: World<T>, n: nat)
    requires DeadlineBounds(p, w) && AllContinue(p, w, n)
    ensures Times(n, p.delay) <= w(n).start - w(0).start
  {
    hide Times, DelayAt;
    if n > 0 {
      TimePasses(p, w, n - 1);
      assert Continues(p, w, n - 1);
      DelayBounds(p, n - 1);
      OneMore(n, p.delay);
    } else {
      NoTime(p.delay);
    }
  }

  lemma NoTime(d: real)
    ensures Times(0, d) == 0.0
  {}

  function Times(n: nat, d: real): real { n as real * d }

  lemma OneMore(n: nat, d: real)
    requires n > 0
    ensures Times(n, d) == Times(n - 1, d) + d
  {}

  lemma NoneContinues<T>(p: Policy, w: World<T>)
    ensures AllContinue(p, w, 0)
  {}

  lemma OneMoreContinues<T>(p: Policy, w: World<T>, n: nat)
    requires AllContinue(p, w, n) && Continues(p, w, n)
    ensures AllContinue(p, w, n + 1)
  {}

  /** Calls that are all followed by another one fit before the deadline. */
  lemma {:induction false} DeadlineLimits<T>(p: Policy, w: World<T>, n: nat)
    requires DeadlineBounds(p, w) && AllContinue(p, w, n) && n > 0
    ensures Times(n, p.delay) < p.deadline.value
  {
    hide Times, DelayAt;
    TimePasses(p, w, n - 1);
    assert Continues(p, w, n - 1);
    DelayBounds(p, n - 1);
    OneMore(n, p.delay);
  }

  /** A number of calls that is enough. */
  ghost function Limit<T>(p: Policy, w: World<T>): nat
    requires CountBounds(p) || DeadlineBounds(p, w)
  {
    if CountBounds(p) then p.maxTries.value
    else if p.deadline.value <= 0.0 then 0
    else (p.deadline.value / p.delay).Floor + 1
  }

  lemma WithinLimit<T>(p: Policy, w: World<T>, n: nat)
    requires CountBounds(p) || DeadlineBounds(p, w)
    requires AllContinue(p, w, n)
    ensures n <= Limit(p, w)
  {
    hide Times, NoOverride, RealClock;
    if CountBounds(p) {
      var last := p.maxTries.value;
      assert n > last ==> Continues(p, w, last);
    } else if n > 0 {
      DeadlineLimits(p, w, n);
      LessThanQuotient(n, p.delay, p.deadline.value);
    }
  }

  lemma LessThanQuotient(n: nat, d: real, limit: real)
    requires n > 0 && d > 0.0 && Times(n, d) < limit
    ensures limit > 0.0 && n < (limit / d).Floor + 1
  {
    var q := limit / d;
    assert q * d == limit;
    if q < n as real { Monotone(q, n as real, d); }
    Monotone(0.0, n as real, d);
  }

  lemma Monotone(x: real, y: real, d: real)
    requires x < y && d > 0.0
    ensures x * d < y * d
  {
    assert (y - x) * d > 0.0;
  }

  class Retry<!T> {
    const policy: Policy
    var attempts: nat
    var curDelay: real
    var curStoptime: Option<real>

    constructor (policy: Policy)
      ensures this.policy == policy
    {
      this.policy := policy;
      attempts, curDelay, curStoptime := 0, policy.delay, None;
    }

    method Reset()
      modifies this
      ensures attempts == 0 && curDelay == policy.delay && curStoptime == None
    {
      attempts, curDelay, curStoptime := 0, policy.delay, None;
    }

    method UpdateDelay()
      modifies this
      ensures curDelay == NextDelay(policy, old(curDelay))
      ensures attempts == old(attempts) && curStoptime == old(curStoptime)
    {
      curDelay := Min(curDelay * policy.backoff, policy.maxDelay);
    }

    /** `__call__`: it ends at the first call that is not followed by another one. */
    method Call(w: World<T>) returns (verdict: Verdict<T>, sleeps: seq<Sleep>)
      requires CountBounds(policy) || DeadlineBounds(policy, w)
      modifies this
      ensures var n := |sleeps|;
        && AllContinue(policy, w, n) && !Continues(policy, w, n) && n <= Limit(policy, w)
        && (verdict.Returns? <==> w(n).outcome.Success?)
        && (verdict.Returns? ==> w(n).outcome.value == verdict.value)
        && (verdict.Raises? <==> w(n).outcome.Fatal?)
        && (verdict.TooManyAttempts? <==> OutOfTries(policy, w, n))
        && (verdict.DeadlineExceeded? <==> OutOfTime(policy, w, n))
      ensures forall i :: 0 <= i < |sleeps| ==> Slept(policy, w, i, sleeps[i])
    {
      hide CountBounds, DeadlineBounds, Limit, AllContinue, NextDelay;
      assert AllContinue(policy, w, 0) by { NoneContinues(policy, w); }
      Reset();
      sleeps := [];
      while true
        invariant attempts == |sleeps| && curDelay == DelayAt(policy, attempts)
        invariant curStoptime == if attempts == 0 then None else StopTime(policy, w)
        invariant AllContinue(policy, w, attempts)
        invariant attempts <= Limit(policy, w)
        invariant forall i :: 0 <= i < |sleeps| ==> Slept(policy, w, i, sleeps[i])
        decreases Limit(policy, w) - attempts
      {
        var i := attempts;
        var attempt := w(i);
        if policy.deadline.Some? && curStoptime.None? {
          curStoptime := Some(attempt.start + policy.deadline.value);
        }
        match attempt.outcome
        case Success(value) => return Returns(value), sleeps;
        case Fatal => return Raises, sleeps;
        case Retryable(own) =>
          if policy.maxTries == Some(attempts) { return TooManyAttempts, sleeps; }
          attempts := attempts + 1;
          var sleeptime := if own.Some? then own.value else curDelay + attempt.jitter as real / 100.0;
          if curStoptime.Some? && attempt.end + sleeptime >= curStoptime.value { return DeadlineExceeded, sleeps; }
          sleeps := sleeps + [Sleep(attempt.end, sleeptime)];
          UpdateDelay();
          OneMoreContinues(policy, w, i);
          WithinLimit(policy, w, attempts);
      }
    }
  }

  /** The two bounds are needed: without a deadline and a count, a function that keeps failing is
      called forever. */
  lemma NoBoundNoEnd<T>(p: Policy, w: World<T>, n: nat)
    requires p.deadline.None? && !CountBounds(p)
    requires forall i: nat :: w(i).outcome.Retryable?
    ensures AllContinue(p, w, n)
  {}

  /** No sleep, of the jitter alone, would end at or after the stop time. */
  ghost predicate NeverReachesStop<T>(p: Policy, w: World<T>) {
    StopTime(p, w).Some? ==> forall i: nat :: w(i).end + w(i).jitter as real / 100.0 < StopTime(p, w).value
  }

  /** So is a positive delay: with none, a function that keeps failing is called forever exactly
      if the clock never gets to the stop time, as one that stands still does not. */
  lemma NoDelayNoEnd<T>(p: Policy, w: World<T>)
    requires p.delay == 0.0 && p.maxDelay >= 0.0 && !CountBounds(p)
    requires forall i: nat :: w(i).outcome == Retryable(None)
    ensures (forall n: nat :: AllContinue(p, w, n)) <==> NeverReachesStop(p, w)
  {
    if NeverReachesStop(p, w) {
      forall i: nat ensures Continues(p, w, i) { NoDelayStays(p, i); }
    }
    if forall n: nat :: AllContinue(p, w, n) {
      forall i: nat ensures StopTime(p, w).Some? ==> w(i).end + w(i).jitter as real / 100.0 < StopTime(p, w).value {
        assert AllContinue(p, w, i + 1);
        assert Continues(p, w, i);
        NoDelayStays(p, i);
      }
    }
  }

  lemma {:induction false} NoDelayStays(p: Policy, i: nat)
    requires p.delay == 0.0 && p.maxDelay >= 0.0
    ensures DelayAt(p, i) == 0.0
  {
    if i > 0 { NoDelayStays(p, i - 1); }
  }

  // ------------------------------------------------------------------ in plain numbers

  function Pow(b: real, i: nat): real { if i == 0 then 1.0 else b * Pow(b, i - 1) }

  function Uncut(p: Policy, i: nat): real { p.delay * Pow(p.backoff, i) }

  /** The delay grows by the factor each time until it is cut off. */
  lemma {:induction false} DelayIs(p: Policy, i: nat)
    requires p.delay > 0.0 && p.backoff >= 1.0 && p.maxDelay >= p.delay
    ensures DelayAt(p, i) == Min(Uncut(p, i), p.maxDelay)
  {
    hide Uncut, NextDelay, Min, Grown;
    if i == 0 {
      UncutAtFirst(p);
    } else {
      DelayIs(p, i - 1);
      UncutGrows(p, i);
      CutOffOnce(p, Uncut(p, i - 1));
    }
  }

  function Grown(x: real, b: real): real { x * b }

  lemma UncutAtFirst(p: Policy)
    requires p.maxDelay >= p.delay
    ensures p.delay == Min(Uncut(p, 0), p.maxDelay)
  {}

  lemma UncutGrows(p: Policy, i: nat)
    requires i > 0
    ensures Uncut(p, i) == Grown(Uncut(p, i - 1), p.backoff)
  {
    Reordered(p.delay, p.backoff, Pow(p.backoff, i - 1));
  }

  /** Cutting off before and after growing is cutting off after it. */
  lemma CutOffOnce(p: Policy, x: real)
    requires p.maxDelay > 0.0 && p.backoff >= 1.0
    ensures NextDelay(p, Min(x, p.maxDelay)) == Min(Grown(x, p.backoff), p.maxDelay)
  {
    hide Grown;
    assert forall d :: NextDelay(p, d) == Min(Grown(d, p.backoff), p.maxDelay) by { NextIsGrown(p); }
    hide NextDelay;
    if x >= p.maxDelay { GrownAbove(p.maxDelay, x, p.backoff); }
  }

  lemma NextIsGrown(p: Policy)
    ensures forall d :: NextDelay(p, d) == Min(Grown(d, p.backoff), p.maxDelay)
  {}

  lemma GrownAbove(limit: real, x: real, b: real)
    requires 0.0 < limit <= x && b >= 1.0
    ensures Grown(limit, b) >= limit && Grown(x, b) >= limit
  {
    Grows(limit, b);
    Grows(x, b);
  }

  lemma Reordered(a: real, b: real, c: real)
    ensures a * (b * c) == a * c * b
  {}

  /** The first call is followed by another one, and so on, exactly as long as the exception is
      one to retry after, tries are left, and the sleep (its own, or the delay and up to the
      jitter drawn in hundredths) would end before the time of the first call plus the deadline.
      When both tries and time are out it is the tries that count. */
  lemma ContinuesIff<T>(p: Policy, w: World<T>, i: nat)
    requires w(i).outcome.Retryable?
    ensures var sleep := if w(i).outcome.sleeptime.Some? then w(i).outcome.sleeptime.value
                         else DelayAt(p, i) + w(i).jitter as real / 100.0;
            var inTime := p.deadline.None? || w(i).end + sleep < w(0).start + p.deadline.value;
            && (Continues(p, w, i) <==> p.maxTries != Some(i) && inTime)
            && (OutOfTries(p, w, i) <==> p.maxTries == Some(i))
            && (OutOfTime(p, w, i) <==> p.maxTries != Some(i) && !inTime)
  {}

  /** Without a deadline a function that keeps failing is called once and then retried exactly as
      many times as allowed. */
  lemma AllTriesAreUsed<T>(p: Policy, w: World<T>, verdict: Verdict<T>, n: nat)
    requires CountBounds(p) && p.deadline.None? && forall i: nat :: w(i).outcome.Retryable?
    requires AllContinue(p, w, n) && !Continues(p, w, n)
    ensures n == p.maxTries.value && OutOfTries(p, w, n)
  {
    ContinuesIff(p, w, n);
  }
}
