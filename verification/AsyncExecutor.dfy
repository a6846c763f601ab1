/** The executor of long tasks (patroni/async_executor.py): three fields shared by the callers
    of `schedule` and `cancel` and by the threads that execute `run`, in every interleaving. */
module AsyncExecutor {
  import opened Wrappers

  /** `_scheduled_action`, `_is_cancelled`, and whether `_finish_event` is set. */
  datatype Shared = Shared(scheduled: Option<string>, cancelled: bool, finished: bool)

  /** The sections of the three operations, each executed under a lock. */
  class AsyncExecutor {
    var scheduledAction: Option<string>
    var isCancelled: bool
    var finishEvent: bool

    function View(): Shared reads this { Shared(scheduledAction, isCancelled, finishEvent) }

    constructor ()
      ensures View() == Shared(None, false, false)
    {
      scheduledAction, isCancelled, finishEvent := None, false, false;
    }

    method Schedule(action: string) returns (previous: Option<string>)
      modifies this
      ensures previous == old(View()).scheduled
      ensures View() == Scheduled(old(View()), action)
    {
      if scheduledAction.Some? { return scheduledAction; }
      scheduledAction := Some(action);
      isCancelled := false;
      finishEvent := true;
      previous := None;
    }

    /** The start of `run`. */
    method BeginRun() returns (proceeds: bool)
      modifies this
      ensures proceeds == !old(View()).cancelled
      ensures View() == Begun(old(View()))
    {
      if isCancelled { return false; }
      finishEvent := false;
      proceeds := true;
    }

    /** At the end of `run`, and at the end of `cancel`. */
    method ResetScheduledAction()
      modifies this
      ensures View() == old(View()).(scheduled := None)
    {
      scheduledAction := None;
    }

    /** The last step of `run`. */
    method SetFinished()
      modifies this
      ensures View() == old(View()).(finished := true)
    {
      finishEvent := true;
    }

    /** The test at the start of `cancel`. */
    method NeedsCancel() returns (busy: bool)
      ensures busy == View().scheduled.Some?
    {
      busy := scheduledAction.Some?;
    }

    method MarkCancelled()
      modifies this
      ensures View() == old(View()).(cancelled := true)
    {
      isCancelled := true;
    }
  }

  function Scheduled(x: Shared, action: string): Shared {
    if x.scheduled.Some? then x else Shared(Some(action), false, true)
  }

  function Begun(x: Shared): Shared { if x.cancelled then x else x.(finished := false) }

  // ------------------------------------------------------------------ interleavings

  /** Where an execution of `run` is: submitted, in its body, past a body it must not execute,
      holding the lock at its end, or over. */
  datatype RunPc = Pending | Running | Skipping | Leaving | Over

  /** Where an execution of `cancel` that found something to cancel is. */
  datatype CancelPc = Marking | Waiting | Woken | Returned

  /** Who holds the thread lock between two steps. */
  datatype Holder = Nobody | Run(i: nat) | Cancel(j: nat)

  datatype State = State(shared: Shared, lock: Holder, runs: seq<RunPc>, cancels: seq<CancelPc>)

  datatype Action =
    | Schedule(action: string)
    | Begin(i: nat) | Reset(i: nat) | Finish(i: nat)
    | Check | Mark(j: nat) | Wake(j: nat) | Clear(j: nat)

  predicate Enabled(s: State, a: Action) {
    match a
    case Schedule(_) => true
    case Begin(i) => s.lock == Nobody && i < |s.runs| && s.runs[i] == Pending
    case Reset(i) => s.lock == Nobody && i < |s.runs| && s.runs[i] in {Running, Skipping}
    case Finish(i) => i < |s.runs| && s.runs[i] == Leaving
    case Check => s.lock == Nobody
    case Mark(j) => j < |s.cancels| && s.cancels[j] == Marking
    case Wake(j) => j < |s.cancels| && s.cancels[j] == Waiting && s.shared.finished
    case Clear(j) => s.lock == Nobody && j < |s.cancels| && s.cancels[j] == Woken
  }

  function Next(s: State, a: Action): State
    requires Enabled(s, a)
  {
    match a
    case Schedule(action) =>
      s.(shared := Scheduled(s.shared, action), runs := if s.shared.scheduled.Some? then s.runs else s.runs + [Pending])
    case Begin(i) =>
      s.(shared := Begun(s.shared), runs := s.runs[i := if s.shared.cancelled then Skipping else Running])
    case Reset(i) =>
      s.(shared := s.shared.(scheduled := None), lock := Run(i), runs := s.runs[i := Leaving])
    case Finish(i) =>
      s.(shared := s.shared.(finished := true), lock := Nobody, runs := s.runs[i := Over])
    case Check =>
      if s.shared.scheduled.None? then s
      else s.(lock := Cancel(|s.cancels|), cancels := s.cancels + [Marking])
    case Mark(j) =>
      s.(shared := s.shared.(cancelled := true), lock := Nobody, cancels := s.cancels[j := Waiting])
    case Wake(j) => s.(cancels := s.cancels[j := Woken])
    case Clear(j) => s.(shared := s.shared.(scheduled := None), cancels := s.cancels[j := Returned])
  }

  const INITIAL := State(Shared(None, false, false), Nobody, [], [])

  ghost predicate Follows(s: State, trace: seq<Action>, t: State)
    decreases |trace|
  {
    if trace == [] then s == t
    else Enabled(s, trace[0]) && Follows(Next(s, trace[0]), trace[1..], t)
  }

  predicate Unfinished(pc: RunPc) { pc in {Pending, Running, Skipping} }
  predicate Active(pc: CancelPc) { pc != Returned }

  /** No run is on its way and no cancellation is in progress. */
  ghost predicate Quiet(s: State) {
    && (forall i :: 0 <= i < |s.runs| ==> !Unfinished(s.runs[i]))
    && (forall j :: 0 <= j < |s.cancels| ==> !Active(s.cancels[j]))
  }

  ghost predicate OneBody(s: State) {
    forall i, k :: 0 <= i < |s.runs| && 0 <= k < |s.runs| && s.runs[i] == Running && s.runs[k] == Running ==> i == k
  }

  ghost predicate NoBody(s: State) { Running !in s.runs }

  /** No body executes, and none will start unless something is scheduled. */
  ghost predicate Stopped(s: State) {
    NoBody(s) && (Pending in s.runs ==> s.shared.cancelled)
  }

  ghost predicate LockOrder(s: State) {
    && (forall i :: 0 <= i < |s.runs| ==> (s.runs[i] == Leaving <==> s.lock == Run(i)))
    && (forall j :: 0 <= j < |s.cancels| ==> (s.cancels[j] == Marking <==> s.lock == Cancel(j)))
    && (s.lock.Run? ==> s.lock.i < |s.runs| && NoBody(s))
    && (s.lock.Cancel? ==> s.lock.j < |s.cancels| && s.shared.scheduled.Some?)
  }

  ghost predicate Inv(s: State) {
    && LockOrder(s)
    && (forall i, k :: 0 <= i < |s.runs| && 0 <= k < |s.runs| && Unfinished(s.runs[i]) && Unfinished(s.runs[k]) ==>
         i == k)
    && (s.shared.scheduled.None? ==> Stopped(s))
    && (s.shared.finished ==> NoBody(s))
    && (Skipping in s.runs ==> s.shared.cancelled)
    && (Waiting in s.cancels ==> s.shared.cancelled)
    && (Woken in s.cancels ==> s.shared.cancelled && NoBody(s))
  }

  /** A new action is scheduled only when everything before it is over. */
  ghost predicate Orderly(s: State, a: Action) {
    a.Schedule? && s.shared.scheduled.None? ==> Quiet(s)
  }

  lemma ScheduleKeepsInv(s: State, action: string)
    requires Inv(s) && Orderly(s, Schedule(action))
    ensures Inv(Next(s, Schedule(action)))
  {}

  lemma RunKeepsInv(s: State, a: Action)
    requires Inv(s) && Enabled(s, a) && (a.Begin? || a.Reset? || a.Finish?)
    ensures Inv(Next(s, a))
  {
    var t := Next(s, a);
    var i := a.i;
    assert t.cancels == s.cancels;
    assert forall k :: 0 <= k < |s.runs| && k != i ==> t.runs[k] == s.runs[k];
  }

  lemma CancelKeepsInv(s: State, a: Action)
    requires Inv(s) && Enabled(s, a) && (a.Check? || a.Mark? || a.Wake? || a.Clear?)
    ensures Inv(Next(s, a))
  {
    assert Next(s, a).runs == s.runs;
  }

  lemma StepKeepsInv(s: State, a: Action)
    requires Inv(s) && Enabled(s, a) && Orderly(s, a)
    ensures Inv(Next(s, a)) && OneBody(Next(s, a))
  {
    hide LockOrder, Stopped;
    if a.Schedule? { ScheduleKeepsInv(s, a.action); }
    else if a.Begin? || a.Reset? || a.Finish? { RunKeepsInv(s, a); }
    else { CancelKeepsInv(s, a); }
  }

  ghost predicate AllOrderly(s: State, trace: seq<Action>, t: State)
    requires Follows(s, trace, t)
    decreases |trace|
  {
    trace == [] || (Orderly(s, trace[0]) && AllOrderly(Next(s, trace[0]), trace[1..], t))
  }

  /** In an orderly run at most one body executes at a time. */
  lemma {:induction false} OrderlyRunIsExclusive(s: State, trace: seq<Action>, t: State)
    requires Inv(s) && Follows(s, trace, t) && AllOrderly(s, trace, t)
    ensures Inv(t) && OneBody(t)
    decreases |trace|
  {
    if trace != [] {
      StepKeepsInv(s, trace[0]);
      OrderlyRunIsExclusive(Next(s, trace[0]), trace[1..], t);
    }
  }

  // ------------------------------------------------------------------ without cancellation

  ghost predicate NoCancel(trace: seq<Action>) { Check !in trace }

  /** Nothing is being cancelled, and what is on its way is what is scheduled. */
  ghost predicate Undisturbed(s: State) {
    && Inv(s)
    && (forall j :: 0 <= j < |s.cancels| ==> !Active(s.cancels[j]))
    && ((exists i :: 0 <= i < |s.runs| && Unfinished(s.runs[i])) ==> s.shared.scheduled.Some? && !s.shared.cancelled)
  }

  /** Without cancellation any run is exclusive, and an action stays scheduled while its body executes. */
  lemma {:induction false} UndisturbedRun(s: State, trace: seq<Action>, t: State)
    requires Undisturbed(s) && NoCancel(trace) && Follows(s, trace, t)
    ensures Undisturbed(t) && OneBody(t)
    ensures Running in t.runs || Pending in t.runs ==> t.shared.scheduled.Some?
    decreases |trace|
  {
    if trace != [] {
      var a := trace[0];
      StepKeepsInv(s, a);
      assert Undisturbed(Next(s, a));
      UndisturbedRun(Next(s, a), trace[1..], t);
    }
  }

  // ------------------------------------------------------------------ after a cancellation

  predicate NoNewRun(trace: seq<Action>) {
    forall i :: 0 <= i < |trace| ==> !trace[i].Schedule?
  }

  /** What the `j`-th cancellation has achieved so far. */
  ghost predicate Progress(s: State, j: nat) {
    && j < |s.cancels|
    && (s.cancels[j] == Waiting ==> s.shared.cancelled)
    && (s.cancels[j] in {Woken, Returned} ==> Stopped(s))
  }

  lemma ProgressKept(s: State, a: Action, j: nat)
    requires Inv(s) && Progress(s, j) && Enabled(s, a) && !a.Schedule?
    ensures Progress(Next(s, a), j)
  {}

  lemma StoppedKept(s: State, a: Action)
    requires Inv(s) && Stopped(s) && Enabled(s, a) && !a.Schedule?
    ensures Stopped(Next(s, a))
  {}

  lemma {:induction false} StaysStopped(s: State, trace: seq<Action>, t: State)
    requires Inv(s) && Stopped(s) && NoNewRun(trace) && Follows(s, trace, t)
    ensures Stopped(t)
    decreases |trace|
  {
    if trace != [] {
      StepKeepsInv(s, trace[0]);
      StoppedKept(s, trace[0]);
      StaysStopped(Next(s, trace[0]), trace[1..], t);
    }
  }

  lemma {:induction false} ProgressAlong(s: State, trace: seq<Action>, t: State, j: nat)
    requires Inv(s) && Progress(s, j) && NoNewRun(trace) && Follows(s, trace, t)
    ensures Progress(t, j)
    decreases |trace|
  {
    if trace != [] {
      StepKeepsInv(s, trace[0]);
      ProgressKept(s, trace[0], j);
      ProgressAlong(Next(s, trace[0]), trace[1..], t, j);
    }
  }

  /** A `cancel` called in state `s` has returned in state `t`. */
  predicate HasReturned(s: State, t: State) {
    s.shared.scheduled.Some? ==> |s.cancels| < |t.cancels| && t.cancels[|s.cancels|] == Returned
  }

  /** Unless something is scheduled after `cancel` was called, no body executes once it has
      returned: at once if it found nothing to cancel, otherwise after its last step. */
  lemma CancelStops(s: State, trace: seq<Action>, t: State)
    requires Inv(s) && Enabled(s, Check) && NoNewRun(trace) && Follows(Next(s, Check), trace, t)
    requires HasReturned(s, t)
    ensures Stopped(t)
  {
    StepKeepsInv(s, Check);
    if s.shared.scheduled.Some? {
      ProgressAlong(Next(s, Check), trace, t, |s.cancels|);
    } else {
      StaysStopped(s, trace, t);
    }
  }

  /** While a body executes or a run is at its end the event may be unset; otherwise, once
      anything was scheduled, it is set. */
  ghost predicate EventOrder(s: State) {
    && (s.cancels != [] || s.shared.scheduled.Some? ==> s.runs != [])
    && (s.runs != [] && !s.shared.finished ==> Running in s.runs || Leaving in s.runs)
  }

  lemma {:induction false} EventOrderAlong(s: State, trace: seq<Action>, t: State)
    requires EventOrder(s) && Inv(s) && Follows(s, trace, t) && AllOrderly(s, trace, t)
    ensures EventOrder(t)
    decreases |trace|
  {
    if trace != [] {
      StepKeepsInv(s, trace[0]);
      EventOrderKept(s, trace[0]);
      EventOrderAlong(Next(s, trace[0]), trace[1..], t);
    }
  }

  lemma EventOrderKept(s: State, a: Action)
    requires EventOrder(s) && Inv(s) && Enabled(s, a)
    ensures EventOrder(Next(s, a))
  {
    var t := Next(s, a);
    if a.Begin? && !s.shared.cancelled { assert t.runs[a.i] == Running; }
    if a.Reset? { assert t.runs[a.i] == Leaving; }
  }

  /** A cancellation never waits for nothing: unless a body executes or a run is at its end, the
      one that waits goes on. */
  lemma CancelWakesUp(trace: seq<Action>, t: State, j: nat)
    requires Follows(INITIAL, trace, t) && AllOrderly(INITIAL, trace, t)
    requires j < |t.cancels| && t.cancels[j] == Waiting && Running !in t.runs && Leaving !in t.runs
    ensures Enabled(t, Wake(j))
  {
    EventOrderAlong(INITIAL, trace, t);
  }

  // ------------------------------------------------------------------ scheduling too early

  ghost predicate TwoBodies(s: State) { !OneBody(s) }

  ghost predicate MayDouble(s: State) {
    exists trace: seq<Action>, t: State :: NoCancel(trace) && Follows(s, trace, t) && TwoBodies(t)
  }

  lemma Before(s: State, a: Action)
    requires Enabled(s, a) && a != Check && MayDouble(Next(s, a))
    ensures MayDouble(s)
  {
    var trace: seq<Action>, t: State :| NoCancel(trace) && Follows(Next(s, a), trace, t) && TwoBodies(t);
    assert ([a] + trace)[1..] == trace;
    assert Follows(s, [a] + trace, t);
  }

  /** Two submitted runs, none of them cancelled, with the lock free. */
  lemma TwoPendingDouble(s: State, i: nat, k: nat)
    requires s.lock == Nobody && !s.shared.cancelled && i < |s.runs| && k < |s.runs| && i != k
    requires s.runs[i] == Pending && s.runs[k] == Pending
    ensures MayDouble(s)
  {
    var s1 := Next(s, Begin(i));
    var s2 := Next(s1, Begin(k));
    assert s2.runs[i] == Running && s2.runs[k] == Running;
    assert TwoBodies(s2);
    assert Follows(s2, [], s2) && NoCancel([]);
    assert MayDouble(s2);
    Before(s1, Begin(k));
    Before(s, Begin(i));
  }

  /** A submitted run that has lost its place: the next one is scheduled beside it. */
  lemma UnscheduledDoubles(s: State, i: nat)
    requires s.lock == Nobody && s.shared.scheduled.None? && i < |s.runs| && s.runs[i] == Pending
    ensures MayDouble(s)
  {
    TwoPendingDouble(Next(s, Schedule("")), i, |s.runs|);
    Before(s, Schedule(""));
  }

  /** With the lock free, an early schedule doubles. */
  lemma EarlyDoubles(s: State, action: string)
    requires Inv(s) && s.lock == Nobody && s.shared.scheduled.None? && !Quiet(s)
    ensures MayDouble(Next(s, Schedule(action)))
  {
    var t := Next(s, Schedule(action));
    var k := |s.runs|;
    if i :| 0 <= i < |s.runs| && Unfinished(s.runs[i]) {
      if s.runs[i] == Pending {
        TwoPendingDouble(t, i, k);
      } else {
        var t1 := Next(t, Reset(i));
        UnscheduledDoubles(Next(t1, Finish(i)), k);
        Before(t1, Finish(i));
        Before(t, Reset(i));
      }
    } else {
      var j :| 0 <= j < |s.cancels| && Active(s.cancels[j]);
      if s.cancels[j] == Waiting {
        var t1 := Next(t, Wake(j));
        UnscheduledDoubles(Next(t1, Clear(j)), k);
        Before(t1, Clear(j));
        Before(t, Wake(j));
      } else {
        UnscheduledDoubles(Next(t, Clear(j)), k);
        Before(t, Clear(j));
      }
    }
  }

  /** What one `schedule` decides: exclusion holds from then on, as long as nothing more is
      cancelled, exactly if everything before it was over. */
  lemma ScheduleIff(s: State, action: string)
    requires Inv(s) && s.shared.scheduled.None?
    ensures MayDouble(Next(s, Schedule(action))) <==> !Quiet(s)
  {
    var t := Next(s, Schedule(action));
    if Quiet(s) {
      StepKeepsInv(s, Schedule(action));
      assert Undisturbed(t);
      forall trace: seq<Action>, u: State | NoCancel(trace) && Follows(t, trace, u) ensures OneBody(u) {
        UndisturbedRun(t, trace, u);
      }
    } else if s.lock == Nobody {
      EarlyDoubles(s, action);
    } else {
      var f := Finish(s.lock.i);
      var s1 := Next(s, f);
      StepKeepsInv(s, f);
      assert !Quiet(s1) by {
        if i :| 0 <= i < |s.runs| && Unfinished(s.runs[i]) { assert Unfinished(s1.runs[i]); }
      }
      EarlyDoubles(s1, action);
      assert Next(s1, Schedule(action)) == Next(t, f);
      Before(t, f);
    }
  }

  // ------------------------------------------------------------------ cancellations that miss

  /** A `cancel` called in `t` has returned in `u`, nothing was scheduled meanwhile, and a body
      executes. */
  ghost predicate Misses(t: State, more: seq<Action>, u: State) {
    && Enabled(t, Check) && NoNewRun(more) && Follows(Next(t, Check), more, u)
    && HasReturned(t, u) && Running in u.runs
  }

  /** The next `cancel` to be called may be such a one. */
  ghost predicate MayMiss(s: State) {
    exists trace, t, more, u :: NoCancel(trace) && Follows(s, trace, t) && Misses(t, more, u)
  }

  /** Between steps the lock is free, or held by a run at its end. */
  ghost predicate OnlyRunsHold(s: State) {
    && Marking !in s.cancels && !s.lock.Cancel?
    && (s.lock.Run? ==> s.lock.i < |s.runs| && s.runs[s.lock.i] == Leaving)
  }

  lemma {:induction false} OnlyRunsHoldAlong(s: State, trace: seq<Action>, t: State)
    requires OnlyRunsHold(s) && NoCancel(trace) && Follows(s, trace, t)
    ensures OnlyRunsHold(t)
    decreases |trace|
  {
    if trace != [] { OnlyRunsHoldAlong(Next(s, trace[0]), trace[1..], t); }
  }

  /** One of two bodies ends: the action is unscheduled, and `cancel` finds nothing to do. */
  lemma FirstOfTwoEnds(s: State, trace: seq<Action>, t: State, i: nat, k: nat)
    requires NoCancel(trace) && Follows(s, trace, t) && t.lock == Nobody
    requires i < |t.runs| && k < |t.runs| && i != k && t.runs[i] == Running && t.runs[k] == Running
    ensures MayMiss(s)
  {
    Extend(s, trace, t, Reset(i));
    var t1 := Next(t, Reset(i));
    Extend(s, trace + [Reset(i)], t1, Finish(i));
    var t2 := Next(t1, Finish(i));
    assert t2.runs[k] == Running;
    assert Follows(Next(t2, Check), [], t2);
    assert Misses(t2, [], t2);
  }

  lemma DoubleMayMiss(s: State)
    requires OnlyRunsHold(s) && MayDouble(s)
    ensures MayMiss(s)
  {
    var trace: seq<Action>, t: State :| NoCancel(trace) && Follows(s, trace, t) && TwoBodies(t);
    OnlyRunsHoldAlong(s, trace, t);
    var i, k :| 0 <= i < |t.runs| && 0 <= k < |t.runs| && t.runs[i] == Running && t.runs[k] == Running && i != k;
    if t.lock == Nobody {
      FirstOfTwoEnds(s, trace, t, i, k);
    } else {
      var f := Finish(t.lock.i);
      Extend(s, trace, t, f);
      FirstOfTwoEnds(s, trace + [f], Next(t, f), i, k);
    }
  }

  /** What one `schedule` decides for the next cancellation: it stops whatever executes, exactly
      if everything before the `schedule` was over. */
  lemma CancelMissesIff(s: State, action: string)
    requires Inv(s) && s.shared.scheduled.None?
    ensures MayMiss(Next(s, Schedule(action))) <==> !Quiet(s)
  {
    var t := Next(s, Schedule(action));
    if Quiet(s) {
      StepKeepsInv(s, Schedule(action));
      assert Undisturbed(t);
      forall trace, u, more, v | NoCancel(trace) && Follows(t, trace, u) && Misses(u, more, v) ensures false {
        UndisturbedRun(t, trace, u);
        CancelStops(u, more, v);
      }
    } else {
      ScheduleIff(s, action);
      DoubleMayMiss(t);
    }
  }

  ghost predicate Reachable(t: State) {
    exists trace: seq<Action> :: Follows(INITIAL, trace, t)
  }

  lemma {:induction false} Extend(s: State, trace: seq<Action>, t: State, a: Action)
    requires Follows(s, trace, t) && Enabled(t, a)
    ensures Follows(s, trace + [a], Next(t, a))
    decreases |trace|
  {
    if trace == [] {
      assert Follows(Next(s, a), [], Next(t, a));
    } else {
      assert (trace + [a])[1..] == trace[1..] + [a];
      Extend(Next(s, trace[0]), trace[1..], t, a);
    }
  }

  lemma Reach(t: State, a: Action)
    requires Reachable(t) && Enabled(t, a)
    ensures Reachable(Next(t, a))
  {
    var trace: seq<Action> :| Follows(INITIAL, trace, t);
    Extend(INITIAL, trace, t, a);
  }

  lemma InitialIsReachable()
    ensures Reachable(INITIAL) && Inv(INITIAL) && Undisturbed(INITIAL)
  {
    assert Follows(INITIAL, [], INITIAL);
  }

  /** Cancelling a run that has not begun, and scheduling again before it has noticed, leads to
      two bodies, and then to a `cancel` that finds nothing to do while a body executes. */
  lemma CancelMissesBody() returns (both: State, t: State)
    ensures Reachable(both) && TwoBodies(both)
    ensures Reachable(t) && Enabled(t, Check) && t.shared.scheduled.None? && Running in t.runs
  {
    var s := INITIAL;
    InitialIsReachable();
    s := Take(s, Schedule("restart"));
    s := Take(s, Check);
    s := Take(s, Mark(0));
    s := Take(s, Wake(0));
    s := Take(s, Clear(0));
    s := Take(s, Schedule("restart"));
    s := Take(s, Begin(0));
    both := Take(s, Begin(1));
    assert both.runs == [Running, Running];
    s := Take(both, Reset(0));
    t := Take(s, Finish(0));
    assert t.runs[1] == Running;
  }

  lemma Take(s: State, a: Action) returns (t: State)
    requires Reachable(s) && Enabled(s, a)
    ensures Reachable(t) && t == Next(s, a)
  {
    t := Next(s, a);
    Reach(s, a);
  }
}
