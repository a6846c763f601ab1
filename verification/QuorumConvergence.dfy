/** Runs of a leader that already holds `/sync`, from any state at all: exactly when they
    raise, where they arrive, and that three of them reach the optimal state and stay. */
module QuorumConvergence {
  import opened Names
  import opened Quorum
  import opened QuorumSteps
  import opened QuorumRuns

  /** What the `except` block makes of a state in which quorum and acknowledging sets may miss. */
  function Repaired(s: State): State {
    s.(voters := s.sync, quorum := |s.sync| - Min(s.numsync, s.confirmed))
  }

  /** The point from which a run sets out. */
  function Start(s: State): State {
    if Consistent(s) then AlignedState(EstimateConfirmed(s)) else EstimateConfirmed(Repaired(s))
  }

  /** Exactly the inputs on which a run raises an exception and so changes nothing. */
  predicate RunRaises(s: State) {
    || (if Consistent(s) then AlignFails(EstimateConfirmed(s)) else s.numsync < 1)
    || RaisesFromPoint(Start(s))
  }

  // ---------------------------------------------------------------- runs that raise

  /** An interrupted run: one of two voters is gone, and so is a synced node that does not vote. */
  lemma InterruptedRunRaises(leader: Name, a: Name, b: Name, c: Name)
    requires leader !in {a, b, c} && a != b && c !in {a, b}
    ensures var s := State(leader, 1, {a, b}, 2, {a, b, c}, 1, {a}, 2, leader, []);
            Own(s) && Consistent(s) && AlignFails(EstimateConfirmed(s)) && RunRaises(s)
  {
    var s := State(leader, 1, {a, b}, 2, {a, b, c}, 1, {a}, 2, leader, []);
    assert |{a, b, c}| == 3 && s.voters + s.sync == {a, b, c} && s.sync * s.active == {a};
    ConsistentWhenLed(s);
    assert b in s.voters && c in s.sync;
  }

  /** The factor shrinks from three nodes to one while two are confirmed. */
  lemma ShrinkingRunRaises(leader: Name, a: Name, b: Name, c: Name)
    requires leader !in {a, b, c} && a != b && c !in {a, b}
    ensures var nodes := {a, b, c}; var s := State(leader, 1, nodes, 3, nodes, 2, nodes, 1, leader, []);
            Own(s) && Consistent(s) && RaisesFromPoint(Start(s)) && RunRaises(s)
  {
    var nodes := {a, b, c};
    var s := State(leader, 1, nodes, 3, nodes, 2, nodes, 1, leader, []);
    assert |nodes| == 3 && nodes * nodes == nodes;
    PointIsConsistent(s);
    assert Start(s) == s;
  }

  /** The factor is to grow by more nodes than join. */
  lemma GrowingRunRaises(leader: Name, a: Name, b: Name, c: Name)
    requires leader !in {a, b, c} && a != b && c !in {a, b}
    ensures var nodes := {a, b}; var s := State(leader, 1, nodes, 1, nodes, 2, {a, b, c}, 3, leader, []);
            Own(s) && Consistent(s) && RaisesFromPoint(Start(s)) && RunRaises(s)
  {
    var nodes := {a, b};
    var s := State(leader, 1, nodes, 1, nodes, 2, {a, b, c}, 3, leader, []);
    assert |nodes| == 2 && |s.active| == 3 && nodes * s.active == nodes && c in s.active;
    PointIsConsistent(s);
    assert Start(s) == s;
  }

  /** A broken state is repaired by the very first transition: everybody synced votes, and
      the quorum leaves out no more nodes than are confirmed. */
  lemma BrokenStateIsRepaired(s: State)
    requires Own(s) && !Consistent(s) && s.numsync >= 1
    ensures Enter(s) == Raised(s, QuorumError)
    ensures UpToYields(Recover(Enter(s)), Repaired(s))
    ensures Recover(Enter(s)).state.emitted ==
        s.emitted + [Transition(QuorumKind, s.leader, Repaired(s).quorum, s.sync)]
    ensures Consistent(Repaired(s)) && Point(EstimateConfirmed(Repaired(s)))
  {
    hide Overlaps, Nested;
    ConsistentWhenLed(s);
    var t := Repaired(s);
    assert t.voters + t.sync == s.sync && s.voters != {};
    ConsistentWhenLed(t);
    if s.voters == s.sync { assert s.voters + s.sync == s.sync; }
    SubsetSize(s.sync * s.active, s.sync);
    ConsistentWhenLed(Emit(t, QuorumKind));
  }

  /** A broken state that asks for no node is not repaired. */
  lemma NoRepairWithoutNodes(s: State)
    requires Own(s) && !Consistent(s) && s.numsync < 1
    ensures Generate(s).Raised?
  {
    ConsistentWhenLed(s);
  }

  /** The estimate is one the handler can work with. */
  lemma EstimateIsSound(s: State)
    requires Own(s) && Consistent(s)
    ensures var e := EstimateConfirmed(s);
            && Led(e) && Consistent(e) && e.confirmed <= |e.sync * e.active|
            && (e.voters == {} ==> 0 <= e.confirmed)
  {
  }

  lemma StartIsPoint(s: State)
    requires Own(s)
    requires if Consistent(s) then !AlignFails(EstimateConfirmed(s)) else s.numsync >= 1
    ensures Point(Start(s)) && SameLeaders(s, Start(s))
    ensures Start(s).sync * s.active == {} ==> Start(s).confirmed == 0
  {
    hide Overlaps, Nested, AlignedState, Point, RaisesFromPoint;
    if Consistent(s) {
      EstimateIsSound(s);
      var e := EstimateConfirmed(s);
      OwnEstimate(s);
      AlignRepairs(e);
      AlignKeepsActive(e);
    } else {
      BrokenStateIsRepaired(s);
    }
  }

  lemma OwnEstimate(s: State)
    requires Own(s)
    ensures var e := EstimateConfirmed(s);
            && SameLeaders(s, e) && e.sync == s.sync && e.voters == s.voters && e.numsync == s.numsync &&
                 e.quorum == s.quorum
            && (s.sync * s.active == {} ==> e.confirmed == 0)
  {
  }

  /** Same leader and same targets. */
  predicate SameLeaders(s: State, t: State) {
    && t.leader == s.leader && t.leaderWanted == s.leaderWanted
    && t.active == s.active && t.wanted == s.wanted
  }

  /** Aligning keeps a live synced node if there is one, but for a start from nothing. */
  lemma AlignKeepsActive(s: State)
    ensures var a := AlignedState(s);
            && SameLeaders(s, a) && a.confirmed == s.confirmed
            && (s.sync * s.active != {} && !(s.voters < s.sync && s.voters == {} && s.confirmed == 0) ==>
                 a.sync * a.active != {})
  {
    var a := AlignedState(s);
    var alive := s.sync * s.active;
    if alive != {} {
      var x :| x in alive;
      if !(s.voters < s.sync && s.voters == {} && s.confirmed == 0) { assert x in a.sync * a.active; }
    }
  }

  /** Point and verdict do not depend on what was yielded before. */
  lemma YieldsDoNotMatter(s: State, t: State)
    requires t.(emitted := s.emitted) == s
    ensures Point(t) <==> Point(s)
    ensures RaisesFromPoint(t) <==> RaisesFromPoint(s)
    ensures LeftQuorum(t) == LeftQuorum(s)
  {
    SettledIgnoresYields(s, t);
    hide Point, Settled, RaisesWhenSettled, SteadyQuorum;
    VerdictIgnoresYields(Settled(s), Settled(t));
  }

  lemma SettledIgnoresYields(s: State, t: State)
    requires t.(emitted := s.emitted) == s
    ensures Point(t) <==> Point(s)
    ensures Settled(t).(emitted := s.emitted) == Settled(s) && Settled(s).emitted == s.emitted
  {}

  lemma VerdictIgnoresYields(s: State, t: State)
    requires t.(emitted := s.emitted) == s
    ensures RaisesWhenSettled(t) <==> RaisesWhenSettled(s)
    ensures SteadyQuorum(t) == SteadyQuorum(s)
  {
    assert RemovedNumsync(t) == RemovedNumsync(s) && RemovedQuorum(t) == RemovedQuorum(s);
    hide RemovedNumsync, RemovedQuorum, KeepsQuorum, Recomputed;
  }

  /** A run that has got past the `try` block. */
  lemma RunFromStart(s: State, entered: State)
    requires Led(s) && Led(entered) && Align(EstimateConfirmed(entered)).Done?
    requires UpToYields(Align(EstimateConfirmed(entered)), s) && Point(s)
    requires s.sync * s.active == {} ==> s.confirmed == 0
    ensures var r := match HandleNonSteady(EstimateConfirmed(entered))
                     case Done(s1) => Steady(s1)
                     case Raised(_, _) => HandleNonSteady(EstimateConfirmed(entered));
            && (r.Done? <==> !RaisesFromPoint(s))
            && (r.Done? ==>
                  && SameSetting(s, r.state)
                  && (s.sync * s.active != {} ==>
                       Point(r.state) && AtTarget(r.state) && r.state.quorum == LeftQuorum(s))
                  && (s.sync * s.active == {} ==> Bootstrapping(r.state)))
  {
    hide Align, Steady, SettleMargin, RaisesFromPoint, LeftQuorum;
    var a := Align(EstimateConfirmed(entered)).state;
    YieldsDoNotMatter(s, a);
    RunFromPoint(a);
  }

  /** Every run of a leader that holds `/sync`: it raises exactly on `RunRaises`, and
      otherwise reaches the target, or, when no synced node is left, sets out to. */
  lemma OwnRun(s: State)
    requires Own(s)
    ensures Generate(s).Done? <==> !RunRaises(s)
    ensures var r := Generate(s);
            r.Done? ==>
              && SameLeaders(s, r.state)
              && (Start(s).sync * s.active != {} ==>
                    Point(r.state) && AtTarget(r.state) && r.state.quorum == LeftQuorum(Start(s)))
              && (Start(s).sync * s.active == {} ==> Bootstrapping(r.state))
  {
    hide Overlaps, Nested, Align, AlignedState, Steady, SettleMargin, RaisesFromPoint, QuorumUpdate, LeftQuorum;
    if Consistent(s) {
      EstimateIsSound(s);
      OwnEstimate(s);
      var e := EstimateConfirmed(s);
      AlignRepairs(e);
      if !AlignFails(e) {
        StartIsPoint(s);
        RunFromStart(Start(s), s);
      }
    } else if s.numsync < 1 {
      NoRepairWithoutNodes(s);
    } else {
      BrokenStateIsRepaired(s);
      StartIsPoint(s);
      var s1 := Recover(Enter(s)).state;
      PointNeedsNoAlign(EstimateConfirmed(s1));
      RunFromStart(Start(s), s1);
    }
  }

  /** A run leaves no more voters' consent to be required than there are voters, so that
      somebody can be elected, unless it overshoots. */
  lemma RunLeavesElectableIff(s: State)
    requires Own(s) && !RunRaises(s) && Start(s).sync * s.active != {}
    ensures var t := Generate(s).state; t.quorum <= |t.voters| <==> !Overshoots(Settled(Start(s)))
  {
    hide Generate, RunRaises, Start, Overshoots, Point, SettledNumsync, SettledQuorum;
    OwnRun(s);
    OwnWants(s);
    OvershootsIff(Settled(Start(s)));
  }

  lemma OwnWants(s: State)
    ensures Own(s) ==> 1 <= s.wanted
    ensures SameLeaders(s, Start(s)) ==> Start(s).wanted == s.wanted && Start(s).active == s.active
    ensures Own(s) && !RunRaises(s) ==> SameLeaders(s, Start(s))
  {
    hide RaisesFromPoint, AlignFails, AlignedState;
    if Own(s) && !RunRaises(s) { StartIsPoint(s); }
  }

  /** A target with too large a quorum is corrected by the next run that finds a confirmed node
      and is not asked for fewer nodes, and by no other. */
  lemma OvershootIsCorrectedIff(s: State, confirmed: int, wanted: int)
    requires Point(s) && AtTarget(s) && s.active != {} && s.quorum > |s.voters|
    requires 0 <= confirmed <= |s.active| && 1 <= wanted
    ensures var r := Generate(s.(confirmed := confirmed, wanted := wanted, emitted := []));
            && r.Done? && AtTarget(r.state)
            && (r.state.quorum <= |r.state.voters| <==> confirmed >= 1 && Min(wanted, |s.active|) >= s.numsync)
  {
    hide Overlaps, Nested, Generate;
    var t := s.(confirmed := confirmed, wanted := wanted, emitted := []);
    assert s.sync * s.active == s.active && s.sync - s.active == {};
    assert Point(t);
    PointIsConsistent(t);
    assert Own(t) && Consistent(t);
    OwnRun(t);
  }

  lemma PointNeedsNoAlign(s: State)
    requires s.voters == s.sync
    ensures Align(s) == Done(s)
  {
  }

  // ---------------------------------------------------------------- convergence

  /** From a point with every live synced node confirmed, where no node joins or the factor
      asked for is in force already, no exception stops the run. */
  lemma SteadyRunIsTotal(s: State)
    requires Point(s) && s.confirmed == |s.sync * s.active|
    requires s.active <= s.sync || s.numsync >= Min(s.wanted, |s.sync|)
    requires s.numsync >= 1 || s.quorum + s.numsync <= |s.sync|
    ensures Generate(s).Done?
  {
    SteadyPointIsTotal(s);
    hide Overlaps, Nested, Generate, RaisesFromPoint;
    PointIsConsistent(s);
    assert s.sync * s.active != {} ==> s.confirmed > 0;
    OwnRun(s);
  }

  lemma SteadyPointIsTotal(s: State)
    requires Point(s) && s.confirmed == |s.sync * s.active|
    requires s.active <= s.sync || s.numsync >= Min(s.wanted, |s.sync|)
    requires s.numsync >= 1 || s.quorum + s.numsync <= |s.sync|
    ensures !RaisesFromPoint(s)
  {
    SubsetSize(s.sync * s.active, s.sync);
    if s.sync <= s.active {
      SubsetSize(s.sync, s.active);
      assert s.sync * s.active == s.sync;
    }
    if s.active <= s.sync {
      SubsetSize(s.active, s.sync);
      assert s.sync * s.active == s.active;
    }
  }

  /** The optimal state of the documentation. */
  predicate Optimal(s: State) {
    && s.sync == s.voters == s.active
    && s.numsync == Min(s.wanted, |s.active|)
    && s.quorum == |s.active| - s.numsync
  }

  /** The next run's input: the settings a run left, with everybody caught up. */
  function CaughtUp(s: State): State {
    s.(confirmed := |s.active|, emitted := [])
  }

  /** The second run, once everybody has caught up, lowers the quorum to the optimal one. */
  lemma SecondRunIsOptimal(s: State)
    requires Point(s) && AtTarget(s) && s.active != {}
    ensures var r := Generate(CaughtUp(s));
            r.Done? && Point(r.state) && Optimal(r.state) && SameLeaders(s, r.state)
  {
    hide Overlaps, Nested, SettleMargin, Steady;
    var t := CaughtUp(s);
    assert t.sync * t.active == t.sync;
    assert Point(t);
    PointIsConsistent(t);
    SettleAtPoint(t);
    var t1 := SettleMargin(t).state;
    NothingLeftToDo(t1);
  }

  /** At the target nothing is removed, added or changed. */
  lemma NothingLeftToDo(s: State)
    requires AtTarget(s)
    ensures Steady(s) == Done(s)
  {
    NothingToRemove(s);
    NothingToAdd(s);
  }

  /** The third run changes nothing: the optimal state is a fixed point. */
  lemma OptimalIsStable(s: State)
    requires Point(s) && Optimal(s) && s.active != {}
    ensures Generate(CaughtUp(s)) == Done(CaughtUp(s))
    ensures Resolve(CaughtUp(s)) == []
  {
    hide Overlaps, Nested, Steady;
    var t := CaughtUp(s);
    PointIsConsistent(s);
    assert t.sync * t.active == t.sync;
    assert Point(t);
    PointIsConsistent(t);
    assert SettleMargin(t) == Done(t);
    NothingLeftToDo(t);
  }

  /** After a start from nothing, the first run that finds a node caught up lets them vote. */
  lemma BootstrapCompletes(s: State, confirmed: nat)
    requires Led(s) && Bootstrapping(s) && s.active != {} && 1 <= s.wanted && 1 <= confirmed <= |s.active|
    ensures var r := Generate(s.(confirmed := confirmed, emitted := []));
            r.Done? && Point(r.state) && AtTarget(r.state) && SameLeaders(s, r.state)
  {
    hide Overlaps, Nested, AlignFails, RaisesFromPoint;
    var t := s.(confirmed := confirmed, emitted := []);
    assert t.sync * t.active == t.active;
    ConsistentWhenLed(t);
    OwnRun(t);
    BootstrapStart(t);
  }

  lemma BootstrapStart(t: State)
    requires Led(t) && Bootstrapping(t) && t.active != {} && 1 <= t.wanted && 1 <= t.confirmed <= |t.active|
    ensures t.sync * t.active == t.active && Consistent(t)
    ensures EstimateConfirmed(t) == t && !AlignFails(t) && !RaisesFromPoint(AlignedState(t))
    ensures AlignedState(t).sync == t.active
  {
    assert t.sync * t.active == t.active;
    ConsistentWhenLed(t);
  }

  /** The optimum is reached in at most three runs, and then kept. */
  lemma ThreeRunsReachOptimum(s: State)
    requires Own(s) && !RunRaises(s) && Start(s).sync * s.active != {}
    ensures var first := Generate(s);
            && first.Done?
            && var second := Generate(CaughtUp(first.state));
            && second.Done? && Optimal(second.state)
            && Resolve(CaughtUp(second.state)) == []
  {
    hide Generate, Start, RunRaises;
    OwnRun(s);
    var s1 := Generate(s).state;
    assert s1.active != {};
    SecondRunIsOptimal(s1);
    OptimalIsStable(Generate(CaughtUp(s1)).state);
  }
}
