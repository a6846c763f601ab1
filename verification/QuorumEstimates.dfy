/** How many nodes a run takes to be confirmed where none is reported to be: a run goes on
    exactly as one that was told so from the beginning. */
module QuorumEstimates {
  import opened Names
  import opened Quorum
  import opened QuorumSteps
  import opened QuorumRuns
  import opened QuorumConvergence
  import opened QuorumHandover

  /** Whatever the `try` block leaves, be it the state itself, one taken over or one repaired. */
  lemma EstimateAfterEntry(s: State, s1: State)
    requires !WaitsForReplicas(s, Enter(s)) && Recover(Enter(s)) == Done(s1)
    requires s1.leader == s1.leaderWanted && Consistent(s1)
    requires s1.confirmed == 0 && s1.sync * s1.active != {}
    ensures Generate(s) == Generate(s1.(confirmed := Min(|s1.sync * s1.active|, |s1.voters| - s1.quorum)))
  {
    hide Overlaps, Nested, HandleNonSteady, Steady;
    var t := s1.(confirmed := Min(|s1.sync * s1.active|, |s1.voters| - s1.quorum));
    ConsistentIgnoresConfirmed(s1, t);
  }

  lemma ReportAfterEntry(s: State, s1: State)
    requires !WaitsForReplicas(s, Enter(s)) && Recover(Enter(s)) == Done(s1)
    requires s1.leader == s1.leaderWanted && Consistent(s1) && s1.confirmed != 0
    ensures Generate(s) == Generate(s1)
  {
    hide Consistent, HandleNonSteady, Steady;
    assert Enter(s1) == Done(s1);
  }

  lemma ConsistentIgnoresConfirmed(s: State, t: State)
    requires t.(confirmed := s.confirmed, emitted := s.emitted) == s
    ensures Consistent(t) <==> Consistent(s)
  {}

  /** A leader that holds `/sync`: as many nodes count as confirmed as are synced and active,
      but no more than every quorum is sure to meet. */
  lemma LeadersEstimate(s: State)
    requires Consistent(s) && s.leader == s.leaderWanted && s.confirmed == 0 && s.sync * s.active != {}
    ensures Generate(s) == Generate(s.(confirmed := Min(|s.sync * s.active|, |s.voters| - s.quorum)))
  {
    hide Overlaps, Nested, HandleNonSteady, Steady, Generate;
    EstimateAfterEntry(s, s);
  }

  /** A number that is reported is not replaced; nor is one estimated with no live node. */
  lemma ReportedIsKept(s: State)
    requires Consistent(s) && s.leader == s.leaderWanted && (s.confirmed != 0 || s.sync * s.active == {})
    ensures Generate(s) == match HandleNonSteady(s)
                           case Done(s1) => Steady(s1)
                           case Raised(t, fault) => Raised(t, fault)
  {
    hide Overlaps, Nested, HandleNonSteady, Steady;
  }

  /** After a take-over the estimate is that of the settings taken over. */
  lemma NewLeadersEstimate(s: State)
    requires Promoted(s) && !TakeOverFails(s) && TakenOver(s).sync * s.active != {}
    ensures Enter(s).Done?
    ensures var t := TakenOver(s).(emitted := Enter(s).state.emitted);
            && (s.confirmed == 0 ==>
                  Generate(s) == Generate(t.(confirmed := Min(|t.sync * t.active|, |t.voters| - t.quorum))))
            && (s.confirmed != 0 ==> Generate(s) == Generate(t))
  {
    hide Promoted, TakeOverFails, TakenOver, Consistent, Enter, Generate, VotingSide, AckSide;
    HandoverKeepsOverlap(s);
    var t := TakenOver(s).(emitted := Enter(s).state.emitted);
    ConsistentIgnoresConfirmed(TakenOver(s), t);
    TakenOverKeepsEmitted(s);
    TakenOverSettings(s, t);
    assert Enter(s) == Done(t);
    if s.confirmed == 0 { EstimateAfterEntry(s, t); } else { ReportAfterEntry(s, t); }
  }

  lemma TakenOverKeepsEmitted(s: State)
    ensures TakenOver(s).emitted == s.emitted
  {}

  /** After a repair it is that of the repaired settings. */
  lemma RepairedEstimate(s: State)
    requires Own(s) && !Consistent(s) && s.numsync >= 1 && s.confirmed == 0 && s.sync * s.active != {}
    ensures var t := s.(voters := s.sync, quorum := |s.sync|,
                        emitted := s.emitted + [Transition(QuorumKind, s.leader, |s.sync|, s.sync)]);
            Generate(s) == Generate(t.(confirmed := Min(|t.sync * t.active|, |t.voters| - t.quorum)))
  {
    hide Consistent, Enter, Recover, Generate, Own;
    BrokenStateIsRepaired(s);
    OwnIsLedBy(s);
    ConsistentIgnoresConfirmed(Repaired(s), Recover(Enter(s)).state);
    EstimateAfterEntry(s, Recover(Enter(s)).state);
  }

  lemma OwnIsLedBy(s: State)
    requires Own(s)
    ensures s.leader == s.leaderWanted && (s.sync * s.active != {} ==> s.sync != {})
  {}
}
