/** Whole runs of the resolver for a leader that already holds `/sync`: when a run raises
    an exception, what a run that does not raises leaves behind, and how many runs it
    takes to arrive at the optimal state. */
module QuorumRuns {
  import opened Names
  import opened Quorum
  import opened QuorumSteps

  // ---------------------------------------------------------------- nodes that joined

  /** The factor that the newcomers `reached` is less than the one asked for, and the confirmed
      nodes do not make up for it; or it is still not a number of nodes. */
  predicate TooFew(goal: int, reached: int, confirmed: int) {
    goal > reached + Max(reached - confirmed, 0) || reached < 0
  }

  /** The quorum once all nodes have joined: unconfirmed nodes are made up for. */
  function AddedQuorum(size: int, goal: int, numsync: int, reached: int, confirmed: int): int {
    size - goal + (if goal > confirmed then Max(Max(numsync, Min(reached, goal)) - confirmed, 0) else 0)
  }

  lemma AddedQuorumIs(size: int, goal: int, numsync: int, reached: int, confirmed: int)
    requires numsync < reached
    ensures AddedQuorum(size, goal, numsync, reached, confirmed) ==
            if reached <= goal then size - goal + Max(reached - confirmed, 0)
            else size - goal + (if goal > confirmed then Max(Max(numsync, goal) - confirmed, 0) else 0)
  {}

  /** Nodes join a point all of whose synced nodes are there. The run fails exactly when
      there are fewer newcomers than the factor has to grow by, and the confirmed nodes do
      not make up for the difference. */
  lemma AddAtPoint(s: State)
    requires Point(s) && s.sync != {} && s.sync < s.active
    ensures var r := AddNew(s);
            var reached := s.numsync + |s.active| - |s.sync|;
            var goal := Min(s.wanted, |s.active|);
            && (r.Done? <==> !TooFew(goal, reached, s.confirmed))
            && (r.Done? ==>
                  && Point(r.state) && SameSetting(s, r.state)
                  && r.state.sync == s.active
                  && r.state.numsync == Min(reached, goal)
                  && r.state.quorum == AddedQuorum(|s.active|, goal, s.numsync, reached, s.confirmed))
  {
    hide AddNew, AddToReachFactor, AddRest, AddedQuorum, Point, TooFew;
    var novel, goal := s.active - s.sync, Min(s.wanted, |s.active|);
    SubsetSize(s.sync, s.active);
    LeftToAdd(s.sync, s.sync, s.active);
    AddToFactorAtPoint(s, novel, goal);
    var first := AddToReachFactor(s, novel, goal);
    AddNewHalves(s, novel, goal);
    AddedQuorumIs(|s.active|, goal, s.numsync, s.numsync + |novel|, s.confirmed);
    if first.Done? {
      var s1 := first.state;
      var left := novel - s1.sync;
      LeftToAdd(s.sync, s1.sync, s.active);
      if s1.sync != s.active { FinishAddAtPoint(s1, left, goal); }
    }
  }

  lemma LeftToAdd(sync: set<Name>, reached: set<Name>, active: set<Name>)
    requires sync <= reached <= active
    ensures active - sync <= reached <==> reached == active
    ensures (active - sync) - reached == active - reached
    ensures reached != active ==> reached < active && active - sync != {}
    ensures sync + (active - sync) == active
  {}

  lemma AddNewHalves(s: State, novel: set<Name>, goal: int)
    requires novel == s.active - s.sync != {} && s.sync + novel == s.active && goal == Min(s.wanted, |s.active|)
    ensures var first := AddToReachFactor(s, novel, goal);
            AddNew(s) == if first.Raised? then first
                         else if novel <= first.state.sync then first
                         else AddRest(first.state, novel - first.state.sync, goal)
  {
    hide AddToReachFactor, AddRest;
    var first := AddToReachFactor(s, novel, goal);
    if first.Done? { assert novel <= first.state.sync <==> novel - first.state.sync == {}; }
  }

  lemma AddToFactorAtPoint(s: State, novel: set<Name>, goal: int)
    requires Point(s) && s.sync != {} && novel == s.active - s.sync && novel != {} && s.sync <= s.active
    requires goal == Min(s.wanted, |s.active|)
    ensures var r := AddToReachFactor(s, novel, goal);
            var reached := s.numsync + |novel|;
            && (r.Done? <==> !TooFew(goal, reached, s.confirmed))
            && (r.Done? ==>
                  && Point(r.state) && SameSetting(s, r.state)
                  && s.sync <= r.state.sync <= s.active
                  && (if reached <= goal
                      then r.state.sync == s.active && r.state.numsync == reached &&
                           (goal > s.numsync ==> r.state.quorum == |s.active| - goal + Max(reached - s.confirmed, 0))
                      else r.state.sync != s.active && r.state.numsync == Max(s.numsync, goal)))
  {
    hide Overlaps, Nested, QuorumUpdate, SyncUpdate, FirstOf;
    PointIsConsistent(s);
    SubsetSize(s.sync, s.active);
    var increase := goal - s.numsync;
    if increase > 0 {
      var add := FirstOf(novel, increase);
      AddedNodes(s, novel, increase);
      var sync := s.sync + add;
      SyncUpdateWhenLed(s, s.numsync + |add|, sync);
      if s.numsync + |add| >= 0 {
        var s1 := SyncUpdate(s, s.numsync + |add|, sync).state;
        assert Consistent(s1) by { ConsistentWhenLed(s1); }
        hide Consistent;
        QuorumUpdateWhenLed(s1, |sync| - goal, sync, true);
      }
    }
  }

  /** The nodes that fill the factor are the first ones in sorted order. */
  lemma AddsFirstNodes(s: State, novel: set<Name>, goal: int)
    requires Point(s) && s.sync != {} && goal > s.numsync && AddToReachFactor(s, novel, goal).Done?
    requires s.leader !in novel
    ensures AddToReachFactor(s, novel, goal).state.sync == s.sync + FirstOf(novel, goal - s.numsync)
    ensures var es, n := AddToReachFactor(s, novel, goal).state.emitted, |s.emitted|;
            && |es| > n && es[..n] == s.emitted
            && es[n] == Transition(SyncKind, s.leader, s.numsync + |FirstOf(novel, goal - s.numsync)|,
                                   s.sync + FirstOf(novel, goal - s.numsync))
  {
    hide FirstOf, Consistent;
  }

  /** Which nodes an increase adds, and how they lie to the others. */
  lemma AddedNodes(s: State, novel: set<Name>, increase: int)
    requires s.voters == s.sync <= s.active && novel == s.active - s.sync && novel != {} && increase > 0
    ensures var add := FirstOf(novel, increase); var sync := s.sync + add;
      && add != {} && add <= novel && |add| == Min(increase, |novel|)
      && |sync| == |s.sync| + |add| && s.sync < sync <= s.active
      && s.voters + sync == sync && s.voters + add == sync && sync + sync == sync && sync * s.active == sync
      && |s.sync| + |novel| == |s.active|
      && (|novel| <= increase <==> sync == s.active)
  {
    var add := FirstOf(novel, increase);
    FirstOfIsSmallest(novel, increase);
    hide FirstOf;
    assert add != {};
    DisjointParts(s.sync, add, novel, s.active);
  }

  lemma DisjointParts(sync: set<Name>, add: set<Name>, novel: set<Name>, active: set<Name>)
    requires sync <= active && novel == active - sync && add <= novel && add != {}
    ensures var all := sync + add;
      && |all| == |sync| + |add| && sync < all <= active
      && sync + all == all && all + all == all && all * active == all
      && |sync| + |novel| == |active|
      && (|add| == |novel| <==> all == active)
  {
    assert sync !! add;
    SubsetSize(sync, active);
    SubsetSize(add, novel);
    var all := sync + add;
    assert |all| == |sync| + |add|;
    SubsetSize(all, active);
  }

  lemma FinishAddAtPoint(s: State, left: set<Name>, goal: int)
    requires Point(s) && s.sync != {} && s.sync < s.active && left == s.active - s.sync
    requires goal == Min(s.wanted, |s.active|) && goal <= s.numsync
    ensures var r := AddRest(s, left, goal);
            && r.Done? && Point(r.state) && SameSetting(s, r.state)
            && r.state.sync == s.active && r.state.numsync == goal
            && r.state.quorum == |s.active| - goal + (if goal > s.confirmed then Max(s.numsync - s.confirmed, 0) else 0)
  {
    hide Overlaps, Nested, QuorumUpdate, SyncUpdate;
    PointIsConsistent(s);
    SubsetSize(s.sync, s.active);
    assert s.voters + left == s.active && s.active + s.sync == s.active && s.sync + left == s.active;
    QuorumUpdateWhenLed(s, |s.active| - goal, s.active, goal > s.confirmed);
    var s1 := QuorumUpdate(s, |s.active| - goal, s.active, goal > s.confirmed).state;
    assert s.active + s.active == s.active;
    SyncUpdateWhenLed(s1, goal, s.active);
  }

  /** Nobody is synced yet: all nodes are synced at once, and the run asks to be restarted
      because none of them is known to have caught up. */
  lemma AddFromNothing(s: State)
    requires Point(s) && s.sync == {} && s.active != {} && s.confirmed == 0
    ensures var r := AddNew(s);
            && r.Done?
            && r.state.voters == {} && r.state.quorum == 0 && r.state.sync == s.active
            && r.state.numsync == Min(s.wanted, |s.active|) && SameSetting(s, r.state)
            && r.state.leader == s.leader
            && r.state.emitted == s.emitted + [
                 Transition(SyncKind, s.leader, r.state.numsync, s.active),
                 Transition(RestartKind, s.leader, 0, {}),
                 Transition(QuorumKind, s.leader, 0, {})]
  {
    hide Overlaps, Nested;
    assert s.active - s.sync == s.active && s.sync + s.active == s.active;
    var goal := Min(s.wanted, |s.active|);
    var s1 := s.(numsync := goal, sync := s.active);
    ConsistentWhenLed(s1);
    assert SyncUpdate(s, goal, s.active) == Done(Emit(s1, SyncKind));
    ConsistentWhenLed(Emit(Emit(s1, SyncKind), RestartKind));
    assert s.active - s1.sync == {};
  }

  // ---------------------------------------------------------------- replication factor

  /** The quorum after recomputing it for `goal` of `size` nodes, `numsync` being the larger
      of the old and the new factor: unconfirmed nodes are made up for. */
  function Recomputed(size: int, goal: int, numsync: int, confirmed: int): int {
    size - goal + (if goal > confirmed then Max(numsync, goal) - confirmed else 0)
  }

  /** A change of the factor leaves the quorum alone if there is none, or if the new one would
      be as many as there are voters. */
  predicate KeepsQuorum(size: int, goal: int, numsync: int, quorum: int) {
    numsync == goal || (goal < numsync && quorum + numsync - goal >= size)
  }

  function FactorQuorum(s: State): int {
    var size, goal := |s.sync|, Min(s.wanted, |s.sync|);
    if KeepsQuorum(size, goal, s.numsync, s.quorum) then s.quorum
    else Recomputed(size, goal, s.numsync, s.confirmed)
  }

  /** The factor is brought to what is asked for. The one way to fail: the quorum is not
      raised because it would exceed the voters, though it is too small for the new factor. */
  lemma FactorAtPoint(s: State)
    requires Point(s) && s.sync != {} && s.sync == s.active
    ensures var r := HandleFactorChange(s);
            && (r.Done? <==>
                  !(s.wanted < s.numsync && s.quorum + s.wanted < |s.sync| <= s.quorum + s.numsync - s.wanted))
            && (r.Done? ==>
                  && Point(r.state) && SameSetting(s, r.state)
                  && r.state.sync == s.sync
                  && r.state.numsync == Min(s.wanted, |s.sync|)
                  && r.state.quorum == FactorQuorum(s))
  {
    hide Overlaps, Nested, QuorumUpdate, SyncUpdate;
    PointIsConsistent(s);
    assert s.sync + s.sync == s.sync;
    var goal := Min(s.wanted, |s.sync|);
    if goal > s.numsync {
      SyncUpdateWhenLed(s, goal, s.sync);
      var s1 := SyncUpdate(s, goal, s.sync).state;
      PointIsConsistent(s1);
      QuorumUpdateWhenLed(s1, |s.sync| - goal, s.voters, true);
    } else if goal < s.numsync {
      QuorumUpdateWhenLed(s, |s.sync| - goal, s.voters, s.wanted > s.confirmed);
      SyncUpdateWhenLed(s, goal, s.sync);
      SyncUpdateWhenLed(QuorumUpdate(s, |s.sync| - goal, s.voters, s.wanted > s.confirmed).state, goal, s.sync);
    }
  }

  // ---------------------------------------------------------------- a run from a point

  function FromPoint(s: State): Run {
    var s1 :- SettleMargin(s);
    Steady(s1)
  }

  /** The settled states from which a run raises. */
  predicate RaisesWhenSettled(s: State) {
    s.sync * s.active != {} &&
    if !(s.active <= s.sync) then
      // fewer newcomers than the factor grows by, and the confirmed nodes do not make up for it
      var reached := s.numsync + |s.active| - |s.sync|;
      s.sync <= s.active && TooFew(Min(s.wanted, |s.active|), reached, s.confirmed)
    else if s.active == s.sync then
      // the factor shrinks, but the quorum that makes up for it would exceed the voters
      s.wanted < s.numsync && s.quorum + s.wanted < |s.sync| <= s.quorum + s.numsync - s.wanted
    else
      // the same, after nodes that every quorum can do without were left out
      && |s.sync| - |s.active| <= s.quorum
      && s.wanted < s.confirmed && s.confirmed + s.wanted <= Min(s.numsync, |s.active|)
  }

  /** The factor and the quorum once the nodes that are gone were left out. */
  function RemovedNumsync(s: State): int {
    var gone, size := |s.sync - s.active|, |s.sync * s.active|;
    if gone == 0 then s.numsync else if gone <= s.quorum then Min(Max(s.wanted, s.numsync), size) else size
  }

  function RemovedQuorum(s: State): int {
    var gone, size := |s.sync - s.active|, |s.sync * s.active|;
    if gone == 0 then s.quorum
    else if gone <= s.quorum then size - Min(RemovedNumsync(s), s.confirmed)
    else size - Min(s.wanted, size)
  }

  /** Whether the rest of a run leaves the quorum as it is then. */
  predicate KeepsRemovedQuorum(s: State) {
    s.active <= s.sync &&
    KeepsQuorum(|s.active|, Min(s.wanted, |s.active|), RemovedNumsync(s), RemovedQuorum(s))
  }

  /** The quorum that a run from a settled state leaves. */
  function SteadyQuorum(s: State): int {
    if KeepsRemovedQuorum(s) then RemovedQuorum(s)
    else Recomputed(|s.active|, Min(s.wanted, |s.active|), RemovedNumsync(s), s.confirmed)
  }

  /** The settled states from which a run leaves a quorum that exceeds the voters: the factor
      goes down by more nodes than are confirmed, and fewer are confirmed than it goes down
      to; or the quorum was that large before and is left alone. */
  predicate Overshoots(s: State) {
    if KeepsRemovedQuorum(s) then RemovedQuorum(s) > |s.active|
    else
      var goal := Min(s.wanted, |s.active|);
      s.confirmed < goal && goal + s.confirmed < Max(RemovedNumsync(s), goal)
  }

  lemma OvershootsIff(s: State)
    requires 1 <= s.wanted
    ensures SteadyQuorum(s) > |s.active| <==> Overshoots(s)
  {}

  /** The second cause needs a quorum that exceeded the voters to begin with. */
  lemma OvershootIsNew(s: State)
    requires Point(s) && 0 <= s.confirmed && s.quorum <= |s.sync|
    ensures KeepsRemovedQuorum(s) ==> !Overshoots(s)
  {
    if s.active <= s.sync {
      assert s.sync * s.active == s.active;
      SubsetSize(s.active, s.sync);
      if s.sync - s.active == {} { assert s.sync == s.active; }
    }
  }

  /** The state once a change of the factor that was interrupted is settled. */
  function Settled(s: State): State {
    s.(numsync := SettledNumsync(s), quorum := SettledQuorum(s))
  }

  /** The quorum that a run from a point leaves. */
  function LeftQuorum(s: State): int { SteadyQuorum(Settled(s)) }

  /** The points from which a run raises: a condition on what the caller passes in. */
  predicate RaisesFromPoint(s: State) {
    SettlingRaises(s) || RaisesWhenSettled(Settled(s))
  }

  /** Where every run should end: the same nodes on both sides, as many of them required as
      were asked for. */
  predicate AtTarget(s: State) {
    s.sync == s.voters == s.active && s.numsync == Min(s.wanted, |s.active|)
  }

  /** Where a run ends that had to start from nothing: the nodes are synced, nobody votes. */
  predicate Bootstrapping(s: State) {
    s.voters == {} && s.quorum == 0 && s.sync == s.active && s.numsync == Min(s.wanted, |s.active|)
  }

  /** What follows the removal of nodes: either the others join, or the factor is changed. */
  lemma AfterRemoval(s: State)
    requires Point(s) && s.sync != {} && s.sync <= s.active
    ensures var r := AddNew(s); var goal := Min(s.wanted, |s.active|);
            var done := r.Done? && HandleFactorChange(r.state).Done?;
            && (done <==>
                  if s.sync == s.active
                  then !(s.wanted < s.numsync && s.quorum + s.wanted < |s.sync| <= s.quorum + s.numsync - s.wanted)
                  else !TooFew(goal, s.numsync + |s.active| - |s.sync|, s.confirmed))
            && (done ==>
                  var t := HandleFactorChange(r.state).state;
                  && Point(t) && SameSetting(s, t) && AtTarget(t)
                  && t.quorum == if s.sync == s.active && KeepsQuorum(|s.active|, goal, s.numsync, s.quorum)
                                 then s.quorum
                                 else Recomputed(|s.active|, goal, s.numsync, s.confirmed))
  {
    hide AddNew, HandleFactorChange, Point;
    assert s.voters == s.sync by { PointAgrees(s); }
    if s.sync == s.active {
      NothingToAdd(s);
      FactorAtPoint(s);
    } else {
      SubsetSize(s.sync, s.active);
      AddAtPoint(s);
      if AddNew(s).Done? { FactorAtPoint(AddNew(s).state); }
    }
    if AddNew(s).Done? && HandleFactorChange(AddNew(s).state).Done? {
      PointAgrees(HandleFactorChange(AddNew(s).state).state);
    }
  }

  lemma PointAgrees(s: State)
    requires Point(s)
    ensures s.voters == s.sync && 1 <= s.wanted
    ensures s.sync != {} ==> s.numsync <= |s.sync|
  {}

  /** What raising comes down to once the nodes that are gone were left out. */
  lemma RaisesAfterRemoval(s: State)
    requires Point(s) && s.sync * s.active != {}
    ensures var sync, n, q := s.sync * s.active, RemovedNumsync(s), RemovedQuorum(s);
            RaisesWhenSettled(s) <==>
              if sync == s.active then s.wanted < n && q + s.wanted < |sync| <= q + n - s.wanted
              else TooFew(Min(s.wanted, |s.active|), n + |s.active| - |sync|, s.confirmed)
  {
    var sync := s.sync * s.active;
    SubsetSize(sync, s.sync);
    SubsetSize(sync, s.active);
    assert s.sync - sync == s.sync - s.active;
    assert s.active <= s.sync <==> sync == s.active;
    assert s.sync <= s.active <==> sync == s.sync;
    hide Led;
  }

  lemma SteadyFromSettled(s: State)
    requires Point(s) && s.sync * s.active != {}
    ensures Steady(s).Done? <==> !RaisesWhenSettled(s)
    ensures var r := Steady(s); r.Done? ==>
              Point(r.state) && SameSetting(s, r.state) && AtTarget(r.state) && r.state.quorum == SteadyQuorum(s)
  {
    hide RemoveGone, AddNew, HandleFactorChange, Recomputed, KeepsQuorum, AtTarget, Point;
    var s1 := RemoveGone(s).state;
    StaysAfterRemoval(s);
    AfterRemoval(s1);
    RaisesAfterRemoval(s);
    assert s.active <= s.sync <==> s.sync * s.active == s.active;
    hide RaisesWhenSettled, RemovedNumsync, RemovedQuorum;
  }

  lemma NothingToAdd(s: State)
    requires s.sync == s.active
    ensures AddNew(s) == Done(s)
  {
    assert s.active - s.sync == {};
  }

  /** `RemoveSome`, and nothing to do when nobody left. */
  lemma StaysAfterRemoval(s: State)
    requires Point(s) && s.sync * s.active != {}
    ensures var r := RemoveGone(s);
            && r.Done? && Point(r.state) && SameSetting(s, r.state)
            && r.state.sync == s.sync * s.active
            && r.state.numsync == RemovedNumsync(s) && r.state.quorum == RemovedQuorum(s)
  {
    hide RemoveGone;
    if s.sync <= s.active {
      NothingToRemove(s);
      assert s.sync * s.active == s.sync;
    } else {
      var x :| x in s.sync && x !in s.active;
      assert x in s.sync - s.active;
      RemoveSome(s);
    }
  }

  /** No synced node is there any more: the run empties both sides and starts again. */
  lemma SteadyFromNothing(s: State)
    requires Point(s) && s.sync * s.active == {} && s.confirmed == 0
    ensures var r := Steady(s);
            && r.Done? && SameSetting(s, r.state) && Bootstrapping(r.state)
            && (s.active != {} ==> exists i :: 0 <= i < |r.state.emitted| && r.state.emitted[i].kind == RestartKind)
  {
    hide RemoveGone, AddNew, QuorumUpdate, SyncUpdate;
    var s1 := RemoveGone(s).state;
    if s.sync != {} {
      RemoveAll(s);
    } else {
      NothingToRemove(s);
    }
    if s.active != {} {
      AddFromNothing(s1);
      var s2 := AddNew(s1).state;
      assert s2.emitted[|s1.emitted| + 1].kind == RestartKind;
    } else {
      NothingToAdd(s1);
    }
  }

  lemma NothingToRemove(s: State)
    requires s.sync <= s.active
    ensures RemoveGone(s) == Done(s)
  {
    assert s.sync - s.active == {};
  }

  /** Exactly when a run from a point raises, and where one that does not arrives. */
  lemma RunFromPoint(s: State)
    requires Point(s)
    requires s.sync * s.active == {} ==> s.confirmed == 0
    ensures FromPoint(s).Done? <==> !RaisesFromPoint(s)
    ensures var r := FromPoint(s);
            r.Done? ==>
              && SameSetting(s, r.state)
              && (s.sync * s.active != {} ==>
                    Point(r.state) && AtTarget(r.state) && r.state.quorum == LeftQuorum(s))
              && (s.sync * s.active == {} ==> Bootstrapping(r.state))
  {
    hide SettleMargin, Steady;
    SettleAtPoint(s);
    if SettleMargin(s).Done? {
      var s1 := SettleMargin(s).state;
      if s.sync * s.active != {} { SteadyFromSettled(s1); } else { SteadyFromNothing(s1); }
    }
  }

  // ---------------------------------------------------------------- interrupted runs

  /** What a caller passes in, besides an exception's worth of garbage. */
  predicate WellFormed(s: State) {
    && 0 <= s.quorum && 1 <= s.wanted
    && 0 <= s.confirmed <= |s.sync * s.active|
    && s.leader !in s.voters && s.leaderWanted !in s.sync + s.active
    && (s.sync == {} ==> s.numsync == 0)
    && (s.sync != {} ==> s.numsync <= |s.sync|)
    // a former leader that was promoted without votes may ask for no node at all
    && (s.sync != {} && s.numsync < 1 ==> s.voters == s.sync)
    && (s.voters == {} ==> s.quorum == 0)
  }

  /** A well-formed state whose `/sync` leader is the primary. */
  predicate Own(s: State) {
    && WellFormed(s) && Led(s)
    && (s.sync == {} ==> s.voters == {})
  }

  /** The interrupted states that the non-steady handler cannot bring together. */
  predicate AlignFails(s: State) {
    var alive := s.sync * s.active;
    && s.voters < s.sync
    && !(s.voters <= s.active)
    && alive != {}
    && !(s.voters * s.active == {} && s.numsync <= |s.voters| + |alive| &&
         |s.sync| <= |s.voters| + |alive| + Max(s.numsync - s.confirmed, 0))
  }

  /** The point that the non-steady handler reaches otherwise. */
  function AlignedState(s: State): State {
    var alive := s.sync * s.active;
    if s.sync < s.voters then
      var sync := s.sync + (s.voters * s.active);
      s.(sync := sync, voters := sync,
         quorum := if sync == s.voters then s.quorum
                   else Adjusted(s, |sync| - s.numsync, s.sync - s.active == {}))
    else if s.voters < s.sync then
      if s.voters == {} && s.confirmed == 0 then
        s.(sync := {}, numsync := 0)
      else if alive == {} then
        s.(sync := s.voters, numsync := Min(s.numsync, |s.voters|))
      else if s.voters <= s.active then
        var n := Min(s.numsync, |alive|);
        s.(sync := alive, voters := alive, numsync := n,
           quorum := if alive == s.voters then s.quorum else |alive| - n + Max(n - s.confirmed, 0))
      else
        var both := s.voters + alive;
        s.(sync := both, voters := both, quorum := |both| - s.numsync + Max(s.numsync - s.confirmed, 0))
    else s
  }

  /** The two runs of the handler differ in what was yielded only. */
  predicate UpToYields(r: Run, s: State) {
    r.Done? && r.state.(emitted := s.emitted) == s
  }

  lemma ShrinkSets(voters: set<Name>, sync: set<Name>, active: set<Name>)
    requires sync <= voters
    ensures var kept := sync + (voters * active);
            var gone := voters - (sync + active);
            && voters - gone == kept && sync <= kept <= voters
            && |gone| == |voters| - |kept| && |sync| <= |kept|
            && (gone == {} <==> kept == voters)
            && kept * active - sync == voters * active - sync
            && sync + (voters * active - sync) == kept
            && |sync * active| <= |kept * active|
  {
    var kept := sync + (voters * active);
    var gone := voters - (sync + active);
    assert voters - gone == kept;
    SubsetSize(gone, voters);
    SubsetSize(sync, kept);
    SubsetSize(sync * active, kept * active);
  }

  /** The first half of the handler on more voters than synced nodes. */
  lemma ShrinkDropsVoters(s: State)
    requires Led(s) && Consistent(s) && s.sync < s.voters && s.sync != {}
    requires 0 <= s.quorum && 1 <= s.numsync <= |s.sync|
    ensures var gone := s.voters - (s.sync + s.active);
            var a := AlignedState(s);
            && Consistent(a)
            && |a.voters| <= a.quorum + a.numsync
            && (gone == {} ==> a.voters == s.voters && a.quorum == s.quorum)
            && (gone != {} ==>
                 UpToYields(QuorumUpdate(s, |s.voters| - |gone| - s.numsync, s.voters - gone, s.sync - s.active == {}),
                            a.(sync := s.sync)))
  {
    hide Overlaps, Nested, QuorumUpdate;
    ShrinkSets(s.voters, s.sync, s.active);
    ConsistentWhenLed(s);
    var a := AlignedState(s);
    assert s.voters + s.sync == s.voters && a.voters + s.sync == a.voters;
    QuorumUpdateWhenLed(s, |a.voters| - s.numsync, a.voters, s.sync - s.active == {});
    ConsistentWhenLed(a);
    assert a.voters + a.sync == a.voters;
  }

  lemma ShrinkReachesPoint(s: State)
    requires Led(s) && Consistent(s) && s.sync < s.voters && s.sync != {}
    requires 0 <= s.quorum && 1 <= s.wanted && 1 <= s.numsync <= |s.sync| && s.confirmed <= |s.sync * s.active|
    ensures UpToYields(ShrinkVoters(s), AlignedState(s)) && Point(AlignedState(s))
  {
    hide Overlaps, Nested, QuorumUpdate, SyncUpdate;
    ShrinkSets(s.voters, s.sync, s.active);
    ShrinkDropsVoters(s);
    var a := AlignedState(s);
    var gone := s.voters - (s.sync + s.active);
    var s1 := if gone == {} then s
              else QuorumUpdate(s, |s.voters| - |gone| - s.numsync, s.voters - gone, s.sync - s.active == {}).state;
    assert s1.(emitted := s.emitted) == a.(sync := s.sync);
    var novel := (s1.voters * s1.active) - s1.sync;
    assert s.sync + novel == a.sync;
    assert a.voters + a.sync == a.voters;
    SyncUpdateWhenLed(s1, s.numsync, a.sync);
    if novel == {} { assert a.sync == s.sync; }
  }

  /** What the three steps of case 2 start from. */
  predicate Growing(s: State) {
    && Led(s) && Consistent(s) && s.voters < s.sync
    && 0 <= s.quorum && 1 <= s.wanted && 1 <= s.numsync <= |s.sync|
    && s.confirmed <= |s.sync * s.active|
    && (s.voters == {} ==> s.quorum == 0 && 0 <= s.confirmed)
  }

  lemma GrowSets(voters: set<Name>, sync: set<Name>, active: set<Name>)
    requires voters < sync
    ensures var alive := sync * active;
            && sync - (sync - active) == alive
            && |sync| - |sync - active| == |alive|
            && (sync - active == {} <==> alive == sync)
            && |alive| <= |sync| && |voters| < |sync|
            && alive * active == alive
            && voters + sync == sync
            && (alive * voters == {} <==> voters * active == {})
  {
    var alive := sync * active;
    assert sync - (sync - active) == alive;
    SubsetSize(sync - active, sync);
    SubsetSize(alive, sync);
    SubsetSize(voters, sync);
    assert alive * voters == voters * active;
  }

  lemma DropDeadFromNothing(s: State)
    requires Growing(s) && s.voters == {} && s.confirmed == 0
    ensures var r := DropDead(s);
            && r.Done? && r.state == s.(numsync := r.state.numsync, sync := r.state.sync, emitted := r.state.emitted)
            && 1 <= r.state.numsync <= |r.state.sync|
            && r.state.sync == if s.sync * s.active != {} then s.sync * s.active else s.sync
  {
    hide Overlaps, Nested, SyncUpdate;
    GrowSets(s.voters, s.sync, s.active);
    SyncUpdateWhenLed(s, Min(s.numsync, |s.sync * s.active|), s.sync * s.active);
  }

  lemma AdmitFromNothing(s: State)
    requires Led(s) && s.voters == {} && s.confirmed == 0 && s.quorum == 0
    requires 1 <= s.numsync <= |s.sync| && (s.sync * s.active != {} ==> s.sync <= s.active)
    ensures UpToYields(AdmitActive(s), s)
  {
    hide Overlaps, Nested;
    var joined := (s.sync - s.voters) * s.active;
    assert joined == s.sync * s.active;
    if joined != {} {
      assert s.voters + joined == s.sync;
      ConsistentWhenLed(s);
      ConsistentWhenLed(Emit(s, RestartKind));
    }
  }

  /** No voters and nobody caught up: both sides are emptied. */
  lemma GrowFromNothing(s: State)
    requires Growing(s) && s.voters == {} && s.confirmed == 0
    ensures UpToYields(GrowVoters(s), AlignedState(s)) && Point(AlignedState(s))
  {
    hide Overlaps, Nested, SyncUpdate, DropDead, AdmitActive;
    DropDeadFromNothing(s);
    var s1 := DropDead(s).state;
    AdmitFromNothing(s1);
    var s2 := AdmitActive(s1).state;
    assert s2.sync - s2.voters == s2.sync && s2.sync - s2.sync == {};
    SyncUpdateWhenLed(s2, Min(s2.numsync, |s2.sync| - |s2.sync|), {});
    var nobody: set<Name> := {};
    assert nobody * s.active == nobody;
  }

  /** The synced nodes are all gone: they make way for the voters. */
  lemma GrowBackToVoters(s: State)
    requires Growing(s) && s.voters != {} && s.sync * s.active == {}
    ensures UpToYields(GrowVoters(s), AlignedState(s)) && Point(AlignedState(s))
  {
    hide Overlaps, Nested, QuorumUpdate, SyncUpdate;
    GrowSets(s.voters, s.sync, s.active);
    ConsistentWhenLed(s);
    assert (s.sync - s.voters) * s.active == {} && s.sync - (s.sync - s.voters) == s.voters;
    SubsetSize(s.sync - s.voters, s.sync);
    assert s.voters + s.voters == s.voters && s.voters * s.active == {};
    SyncUpdateWhenLed(s, Min(s.numsync, |s.voters|), s.voters);
  }

  lemma DropDeadWhenVotersStay(s: State)
    requires Growing(s) && s.voters <= s.active && s.sync * s.active != {}
    ensures var alive := s.sync * s.active;
            && UpToYields(DropDead(s), s.(sync := alive, numsync := Min(s.numsync, |alive|)))
            && Consistent(DropDead(s).state)
            && s.voters <= alive && |alive| <= s.quorum + Min(s.numsync, |alive|) + |alive - s.voters|
  {
    hide Overlaps, Nested, SyncUpdate;
    GrowSets(s.voters, s.sync, s.active);
    ConsistentWhenLed(s);
    var alive := s.sync * s.active;
    SubsetSize(s.voters, alive);
    assert s.voters + alive == alive && alive * s.voters == s.voters;
    SyncUpdateWhenLed(s, Min(s.numsync, |alive|), alive);
    ConsistentWhenLed(DropDead(s).state);
  }

  /** What is left to do once the synced nodes are all there. */
  lemma AdmitAll(s: State)
    requires Led(s) && Consistent(s) && s.voters <= s.sync <= s.active && !Resets(s)
    requires 1 <= s.numsync <= |s.sync|
    ensures UpToYields(AdmitActive(s), s.(voters := s.sync,
              quorum := if s.voters == s.sync then s.quorum
                else |s.sync| - s.numsync + Max(s.numsync - s.confirmed, 0)))
  {
    hide Overlaps, Nested, QuorumUpdate;
    assert (s.sync - s.voters) * s.active == s.sync - s.voters;
    assert s.voters + (s.sync - s.voters) == s.sync && s.sync + s.sync == s.sync;
    if s.voters == s.sync { assert s.sync - s.voters == {}; }
    else { assert s.sync - s.voters != {} by { SubsetSize(s.voters, s.sync); } }
    QuorumUpdateWhenLed(s, |s.sync| - s.numsync, s.sync, true);
  }

  /** All voters are there: dead nodes go, the others become voters. */
  lemma GrowToActive(s: State)
    requires Growing(s) && s.voters <= s.active && s.sync * s.active != {}
    requires s.voters != {} || s.confirmed > 0
    ensures UpToYields(GrowVoters(s), AlignedState(s)) && Point(AlignedState(s))
  {
    hide Overlaps, Nested, QuorumUpdate, SyncUpdate, DropDead, AdmitActive;
    DropDeadWhenVotersStay(s);
    var s1 := DropDead(s).state;
    AdmitAll(s1);
    var s2 := AdmitActive(s1).state;
    assert s2.sync - s2.voters == {};
    GrowSets(s.voters, s.sync, s.active);
    if s1.sync == s.voters { assert s1.sync - s.voters == {}; }
  }

  lemma AdmitAround(s: State)
    requires Growing(s) && !(s.voters <= s.active) && s.sync * s.active != {} && s.voters * s.active == {}
    ensures var both := s.voters + s.sync * s.active;
            && DropDead(s) == Done(s) && both <= s.sync && |both| == |s.voters| + |s.sync * s.active|
            && both * s.active == s.sync * s.active
            && (AdmitActive(s).Done? <==> !AlignFails(s))
            && (AdmitActive(s).Done? ==>
                  UpToYields(AdmitActive(s),
                    s.(voters := both, quorum := |both| - s.numsync + Max(s.numsync - s.confirmed, 0))))
  {
    hide Overlaps, Nested, QuorumUpdate, SyncUpdate;
    GrowSets(s.voters, s.sync, s.active);
    ConsistentWhenLed(s);
    var alive := s.sync * s.active;
    var both := s.voters + alive;
    assert (s.sync - s.voters) * s.active == alive && both + s.sync == s.sync;
    assert |both| == |s.voters| + |alive| by { assert s.voters * alive == {}; }
    QuorumUpdateWhenLed(s, |both| - s.numsync, both, true);
  }

  /** None of the voters is there, but other synced nodes are. */
  lemma GrowAround(s: State)
    requires Growing(s) && !(s.voters <= s.active) && s.sync * s.active != {} && s.voters * s.active == {}
    ensures !AlignFails(s) ==> UpToYields(GrowVoters(s), AlignedState(s)) && Point(AlignedState(s))
    ensures AlignFails(s) ==> GrowVoters(s).Raised?
  {
    hide Overlaps, Nested, SyncUpdate, DropDead, AdmitActive;
    AdmitAround(s);
    if !AlignFails(s) {
      var both := s.voters + s.sync * s.active;
      var s2 := AdmitActive(s).state;
      var rest := s2.sync - s2.voters;
      SubsetSize(rest, s.sync);
      assert s.sync - rest == both && both + both == both;
      SyncUpdateWhenLed(s2, Min(s.numsync, |both|), both);
      if rest == {} { assert both == s.sync; }
    }
  }

  /** Some voters are there and some are not: the dead synced nodes cannot be dropped
      without losing voters that must stay. */
  lemma GrowStuck(s: State)
    requires Growing(s) && !(s.voters <= s.active) && s.voters * s.active != {}
    ensures AlignFails(s)
    ensures var r := GrowVoters(s); r.Raised? || r.state.voters != r.state.sync
  {
    hide Overlaps, Nested, QuorumUpdate, SyncUpdate;
    GrowSets(s.voters, s.sync, s.active);
    var alive := s.sync * s.active;
    assert alive != {} by { assert alive * s.voters == s.voters * s.active; }
    var gone :| gone in s.voters && gone !in s.active;
    assert gone in s.sync - s.active;
    SyncUpdateWhenLed(s, Min(s.numsync, |alive|), alive);
    if DropDead(s).Done? {
      var s1 := DropDead(s).state;
      assert s1.sync == alive && s1.voters == s.voters && alive <= s.voters;
      assert (s1.sync - s1.voters) * s1.active == {} && s1.sync - s1.voters == {};
    }
  }

  /** Interrupted runs are repaired: exactly when the handler brings the two sets together,
      and the point it then reaches. */
  lemma AlignRepairs(s: State)
    requires Led(s) && Consistent(s) && 0 <= s.quorum && 1 <= s.wanted
    requires s.confirmed <= |s.sync * s.active|
    requires s.sync == {} ==> s.numsync == 0 && s.voters == {}
    requires s.sync != {} ==> s.numsync <= |s.sync|
    requires s.sync != {} && s.numsync < 1 ==> s.voters == s.sync
    requires s.voters == {} ==> s.quorum == 0 && 0 <= s.confirmed
    ensures var r := Align(s); AlignFails(s) <==> r.Raised? || r.state.voters != r.state.sync
    ensures !AlignFails(s) ==> UpToYields(Align(s), AlignedState(s)) && Point(AlignedState(s))
  {
    hide GrowVoters, ShrinkVoters, Overlaps, Nested;
    ConsistentWhenLed(s);
    if s.sync < s.voters {
      ShrinkReachesPoint(s);
    } else if s.voters < s.sync {
      if s.voters == {} && s.confirmed == 0 { GrowFromNothing(s); }
      else if s.sync * s.active == {} { GrowBackToVoters(s); }
      else if s.voters <= s.active { GrowToActive(s); }
      else if s.voters * s.active == {} { GrowAround(s); }
      else { GrowStuck(s); }
    } else {
      assert s.voters == s.sync;
      assert s.voters + s.sync == s.sync;
    }
  }
}
