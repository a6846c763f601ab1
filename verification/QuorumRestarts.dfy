/** When a run asks its caller to look at the replication state again: exactly if the nodes it
    finds active have to be synced from nothing. */
module QuorumRestarts {
  import opened Names
  import opened Quorum
  import opened QuorumSteps
  import opened QuorumRuns
  import opened QuorumConvergence

  predicate NoRestart(ts: seq<Transition>) {
    forall t <- ts :: t.kind != RestartKind
  }

  /** A restart leaves nobody in the voters: with voters left, none was asked for. */
  predicate StaysQuiet(s: State, r: Run) {
    r.Done? && NoRestart(s.emitted) && r.state.voters != {} ==> NoRestart(r.state.emitted)
  }

  lemma UpdateIsQuiet(s: State, quorum: int, voters: set<Name>, adjust: bool)
    ensures StaysQuiet(s, QuorumUpdate(s, quorum, voters, adjust))
    ensures var r := QuorumUpdate(s, quorum, voters, adjust); r.Done? ==>
        r.state.voters == {} || r.state.voters == voters
    ensures var r := QuorumUpdate(s, quorum, voters, adjust); r.Done? && s.voters == {} && s.confirmed == 0 ==>
        r.state.voters == {}
    ensures var r := QuorumUpdate(s, quorum, voters, adjust); r.Done? ==> r.state.confirmed == s.confirmed
    ensures var r := QuorumUpdate(s, quorum, voters, adjust);
            r.Done? && NoRestart(s.emitted) && s.voters != {} ==> NoRestart(r.state.emitted)
  {
    hide Consistent;
  }

  lemma SyncIsQuiet(s: State, numsync: int, sync: set<Name>)
    ensures StaysQuiet(s, SyncUpdate(s, numsync, sync))
    ensures var r := SyncUpdate(s, numsync, sync);
            r.Done? ==> r.state.voters == s.voters && r.state.confirmed == s.confirmed &&
                        (NoRestart(s.emitted) ==> NoRestart(r.state.emitted))
  {
    hide Consistent;
  }

  // ---------------------------------------------------------------- the parts of a run

  lemma AlignIsQuiet(s: State)
    requires NoRestart(s.emitted) && Align(s).Done?
    ensures StaysQuiet(s, Align(s))
    ensures s.active == {} ==> NoRestart(Align(s).state.emitted)
  {
    hide QuorumUpdate, SyncUpdate;
    if s.sync < s.voters { ShrinkIsQuiet(s); } else if s.voters < s.sync { GrowIsQuiet(s); }
  }

  lemma ShrinkIsQuiet(s: State)
    requires NoRestart(s.emitted) && ShrinkVoters(s).Done? && s.sync < s.voters
    ensures NoRestart(ShrinkVoters(s).state.emitted)
  {
    hide QuorumUpdate, SyncUpdate;
    var gone := s.voters - (s.sync + s.active);
    var adjust := s.sync - s.active == {};
    UpdateIsQuiet(s, |s.voters| - |gone| - s.numsync, s.voters - gone, adjust);
    var s1 := if gone != {} then QuorumUpdate(s, |s.voters| - |gone| - s.numsync, s.voters - gone, adjust).state else s;
    SyncIsQuiet(s1, s1.numsync, s1.sync + (s1.voters * s1.active - s1.sync));
  }

  lemma GrowIsQuiet(s: State)
    requires NoRestart(s.emitted) && GrowVoters(s).Done?
    ensures StaysQuiet(s, GrowVoters(s))
    ensures s.active == {} ==> NoRestart(GrowVoters(s).state.emitted)
  {
    hide DropDead, AdmitActive, DropUnvoted;
    DropDeadIsQuiet(s);
    var s1 := DropDead(s).state;
    AdmitIsQuiet(s1);
    DropUnvotedIsQuiet(AdmitActive(s1).state);
  }

  lemma DropDeadIsQuiet(s: State)
    requires NoRestart(s.emitted) && DropDead(s).Done?
    ensures NoRestart(DropDead(s).state.emitted) && DropDead(s).state.active == s.active
  {
    hide Consistent;
  }

  lemma AdmitIsQuiet(s: State)
    requires NoRestart(s.emitted) && AdmitActive(s).Done?
    ensures StaysQuiet(s, AdmitActive(s))
    ensures s.active == {} ==> AdmitActive(s) == Done(s)
  {
    hide QuorumUpdate;
    var joined := (s.sync - s.voters) * s.active;
    UpdateIsQuiet(s, |s.voters + joined| - s.numsync, s.voters + joined, true);
  }

  lemma DropUnvotedIsQuiet(s: State)
    requires DropUnvoted(s).Done?
    ensures DropUnvoted(s).state.voters == s.voters
    ensures NoRestart(s.emitted) ==> NoRestart(DropUnvoted(s).state.emitted)
  {
    hide Consistent;
  }

  lemma SettleIsQuiet(s: State)
    requires Point(s) && NoRestart(s.emitted) && SettleMargin(s).Done?
    ensures NoRestart(SettleMargin(s).state.emitted)
  {
    hide QuorumUpdate, SyncUpdate;
    SyncIsQuiet(s, Max(s.wanted, |s.voters| - s.quorum), s.sync);
    UpdateIsQuiet(s, |s.sync| - s.numsync, s.voters, true);
    assert s.voters + s.sync == s.sync;
  }

  lemma RemoveIsQuiet(s: State)
    requires NoRestart(s.emitted) && RemoveGone(s).Done? && (s.voters != {} || s.sync == {})
    ensures StaysQuiet(s, RemoveGone(s))
    ensures s.active == {} ==> NoRestart(RemoveGone(s).state.emitted)
  {
    hide QuorumUpdate, SyncUpdate, RemoveSpare, RemoveRequired;
    var gone := s.sync - s.active;
    if gone != {} && s.sync == gone {
      UpdateIsQuiet(s, 0, {}, false);
      SyncIsQuiet(QuorumUpdate(s, 0, {}, false).state, 0, {});
    } else if gone != {} {
      SpareIsQuiet(s, gone);
      var s1 := RemoveSpare(s, gone).state;
      RequiredIsQuiet(s1, gone * s1.sync);
    }
  }

  lemma SpareIsQuiet(s: State, gone: set<Name>)
    requires NoRestart(s.emitted) && RemoveSpare(s, gone).Done?
    ensures StaysQuiet(s, RemoveSpare(s, gone))
  {
    hide QuorumUpdate, SyncUpdate, LastOf;
    if s.quorum != 0 {
      var remove := LastOf(gone, s.quorum);
      var sync := s.sync - remove;
      var numsync := Min(if s.wanted > s.numsync then s.wanted else s.numsync, |sync|);
      SyncIsQuiet(s, numsync, sync);
      var s1 := SyncUpdate(s, numsync, sync).state;
      var voters := s1.voters - remove;
      UpdateIsQuiet(s1, |voters| - s1.numsync, voters, gone * s1.sync == {});
    }
  }

  lemma RequiredIsQuiet(s: State, gone: set<Name>)
    requires RemoveRequired(s, gone).Done?
    ensures StaysQuiet(s, RemoveRequired(s, gone))
    ensures RemoveRequired(s, gone).state.voters <= s.voters
  {
    hide QuorumUpdate, SyncUpdate;
    if gone != {} {
      var numsync, sync, voters := s.numsync - |gone|, s.sync - gone, s.voters - gone;
      var decrease := numsync - Min(s.wanted, |sync|);
      var quorum := if decrease != 0 then Min(decrease, |voters| - 1) else 0;
      UpdateIsQuiet(s, quorum, voters, false);
      SyncIsQuiet(QuorumUpdate(s, quorum, voters, false).state, numsync, sync);
    }
  }

  lemma AddIsQuiet(s: State)
    requires NoRestart(s.emitted) && AddNew(s).Done? && s.voters != {}
    ensures NoRestart(AddNew(s).state.emitted)
  {
    hide AddToReachFactor, AddRest;
    var novel := s.active - s.sync;
    if novel != {} {
      var wanted := Min(s.wanted, |s.sync + novel|);
      FirstIsQuiet(s, novel, wanted);
      var s1 := AddToReachFactor(s, novel, wanted).state;
      RestIsQuiet(s1, novel - s1.sync, wanted);
    }
  }

  lemma FirstIsQuiet(s: State, novel: set<Name>, wanted: int)
    requires NoRestart(s.emitted) && AddToReachFactor(s, novel, wanted).Done? && s.voters != {}
    ensures var t := AddToReachFactor(s, novel, wanted).state; NoRestart(t.emitted) && t.voters != {}
  {
    hide QuorumUpdate, SyncUpdate, FirstOf;
    var increase := wanted - s.numsync;
    if increase > 0 {
      var add := if s.sync != {} then FirstOf(novel, increase) else novel;
      var step := if s.sync != {} then |add| else increase;
      SyncIsQuiet(s, s.numsync + step, s.sync + add);
      var s1 := SyncUpdate(s, s.numsync + step, s.sync + add).state;
      UpdateIsQuiet(s1, |s1.voters + add| - wanted, s1.voters + add, true);
      UpdateKeepsVoters(s1, |s1.voters + add| - wanted, s1.voters + add, true);
    }
  }

  lemma UpdateKeepsVoters(s: State, quorum: int, voters: set<Name>, adjust: bool)
    requires s.voters != {} && QuorumUpdate(s, quorum, voters, adjust).Done?
    ensures QuorumUpdate(s, quorum, voters, adjust).state.voters == voters
  {
    hide Consistent;
  }

  lemma RestIsQuiet(s: State, left: set<Name>, wanted: int)
    requires s.voters != {}
    ensures var r := AddRest(s, left, wanted); r.Done? && NoRestart(s.emitted) ==> NoRestart(r.state.emitted)
  {
    hide QuorumUpdate, SyncUpdate;
    var voters := s.voters + left;
    UpdateIsQuiet(s, |voters| - wanted, voters, wanted > s.confirmed);
    var r := QuorumUpdate(s, |voters| - wanted, voters, wanted > s.confirmed);
    if r.Done? { SyncIsQuiet(r.state, wanted, r.state.sync + left); }
  }

  lemma FactorIsQuiet(s: State)
    requires NoRestart(s.emitted) && HandleFactorChange(s).Done?
    ensures s.voters != {} || Min(s.wanted, |s.sync|) == s.numsync ==> NoRestart(HandleFactorChange(s).state.emitted)
  {
    hide QuorumUpdate, SyncUpdate;
    var increase := Min(s.wanted, |s.sync|) - s.numsync;
    SyncIsQuiet(s, s.numsync + increase, s.sync);
    if increase > 0 {
      var s1 := SyncUpdate(s, s.numsync + increase, s.sync).state;
      UpdateIsQuiet(s1, |s1.voters| - s1.numsync, s1.voters, true);
    } else if increase < 0 {
      var q := |s.voters| - s.numsync - increase;
      UpdateIsQuiet(s, q, s.voters, s.wanted > s.confirmed);
      if s.quorum - increase < |s.voters| {
        var s1 := QuorumUpdate(s, q, s.voters, s.wanted > s.confirmed).state;
        SyncIsQuiet(s1, s1.numsync + increase, s1.sync);
      }
    }
  }

  // ---------------------------------------------------------------- a whole run

  lemma SteadyIsQuiet(s: State)
    requires Point(s) && s.sync * s.active != {} && NoRestart(s.emitted) && Steady(s).Done?
    ensures NoRestart(Steady(s).state.emitted)
  {
    hide RemoveGone, AddNew, HandleFactorChange, StaysQuiet;
    StaysAfterRemoval(s);
    PointAgrees(s);
    var s1 := RemoveGone(s).state;
    PointAgrees(s1);
    RemovedIsQuiet(s);
    AddIsQuiet(s1);
    var s2 := AddNew(s1).state;
    if s1.sync == s1.active { NothingToAdd(s1); } else { AddAtPoint(s1); PointAgrees(s2); }
    FactorIsQuiet(s2);
  }

  lemma RemovedIsQuiet(s: State)
    requires Point(s) && s.sync * s.active != {} && NoRestart(s.emitted)
    ensures RemoveGone(s).Done? && NoRestart(RemoveGone(s).state.emitted)
  {
    hide RemoveGone;
    StaysAfterRemoval(s);
    RemoveIsQuiet(s);
    PointAgrees(RemoveGone(s).state);
  }

  /** With no live synced node a run asks for a restart exactly if there is a node to sync. */
  lemma SteadyFromNothingIff(s: State)
    requires Point(s) && s.sync * s.active == {} && s.confirmed == 0 && NoRestart(s.emitted)
    ensures Steady(s).Done? && (NoRestart(Steady(s).state.emitted) <==> s.active == {})
  {
    hide RemoveGone, AddNew, HandleFactorChange;
    SteadyFromNothing(s);
    if s.active == {} {
      var s1 := RemoveGone(s).state;
      if s.sync != {} { RemoveAll(s); } else { NothingToRemove(s); }
      RemoveIsQuiet(s);
      NothingToAdd(s1);
      FactorIsQuiet(s1);
    } else {
      var es := Steady(s).state.emitted;
      var i :| 0 <= i < |es| && es[i].kind == RestartKind;
      assert es[i] in es;
    }
  }

  lemma FromPointIff(s: State)
    requires Point(s) && FromPoint(s).Done? && (s.sync * s.active == {} ==> s.confirmed == 0)
    requires s.sync * s.active != {} || s.active == {} ==> NoRestart(s.emitted)
    ensures NoRestart(FromPoint(s).state.emitted) <==> s.sync * s.active != {} || s.active == {}
  {
    hide Steady, SettleMargin, Point;
    SettleAtPoint(s);
    var s1 := SettleMargin(s).state;
    if s.sync * s.active != {} || s.active == {} { SettleIsQuiet(s); }
    if s.sync * s.active != {} {
      SteadyIsQuiet(s1);
    } else if s.active == {} {
      SteadyFromNothingIff(s1);
    } else {
      SteadyFromNothing(s1);
      var es := Steady(s1).state.emitted;
      var i :| 0 <= i < |es| && es[i].kind == RestartKind;
      assert es[i] in es;
    }
  }

  /** The point from which a run sets out, with what was yielded on the way there. */
  function SetOut(s: State): State {
    Align(EstimateConfirmed(Recover(Enter(s)).state)).state
  }

  lemma RunSetsOut(s: State)
    requires Own(s) && !RunRaises(s) && s.emitted == []
    ensures UpToYields(Done(SetOut(s)), Start(s)) && Generate(s) == FromPoint(SetOut(s))
    ensures SetOut(s).voters != {} || s.active == {} ==> NoRestart(SetOut(s).emitted)
  {
    hide Overlaps, Nested, Align, AlignedState, Steady, SettleMargin, RaisesFromPoint, QuorumUpdate;
    if Consistent(s) {
      EstimateIsSound(s);
      OwnEstimate(s);
      AlignRepairs(EstimateConfirmed(s));
      AlignIsQuiet(EstimateConfirmed(s));
      PointAgrees(Start(s));
    } else {
      BrokenStateIsRepaired(s);
      PointNeedsNoAlign(EstimateConfirmed(Recover(Enter(s)).state));
    }
  }

  /** A run asks for a restart exactly if it sets out with no live synced node, and there are
      nodes to sync. */
  lemma RestartIff(s: State)
    requires Own(s) && !RunRaises(s) && s.emitted == []
    ensures NoRestart(Generate(s).state.emitted) <==> Start(s).sync * s.active != {} || s.active == {}
  {
    hide Generate, RunRaises, Start, SetOut, FromPoint;
    OwnRun(s);
    RunSetsOut(s);
    StartOfRun(s);
    YieldsDoNotMatter(Start(s), SetOut(s));
    PointAgrees(SetOut(s));
    FromPointIff(SetOut(s));
  }

  lemma StartOfRun(s: State)
    requires Own(s) && !RunRaises(s)
    ensures Point(Start(s)) && Start(s).active == s.active
    ensures Start(s).sync * s.active == {} ==> Start(s).confirmed == 0
  {
    hide Start, RaisesFromPoint, AlignFails, Consistent;
    StartIsPoint(s);
  }
}
