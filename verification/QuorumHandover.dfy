/** A change of leader: what a node that won the race puts into `synchronous_standby_names`
    before it promotes (patroni/ha.py), and how its first resolver run takes `/sync` over. */
module QuorumHandover {
  import opened Names
  import opened Quorum
  import opened QuorumSteps
  import opened QuorumRuns
  import opened QuorumConvergence

  /** `process_sync_replication_prepromote` in quorum mode: the nodes to sync and how many of them. */
  method PreparePromotion(leader: Name, quorum: int, voters: set<Name>, name: Name)
    returns (sync: set<Name>, numsync: int)
    ensures sync == SyncForPromotion(leader, voters, name)
    ensures numsync == NumsyncForPromotion(leader, quorum, voters, name)
    ensures |voters + sync + {leader, name}| == quorum + numsync + 1
  {
    sync := {leader} + voters;
    numsync := |sync| - quorum - 1;
    ghost var members := sync;
    if name !in sync {  // a node outside the voters won the race
      numsync := numsync + 1;
      assert sync == members - {name};
      assert voters + sync + {leader, name} == members + {name};
    } else {
      sync := sync - {name};
      assert voters + sync + {leader, name} == members;
      assert |sync| == |members| - 1;
    }
  }

  function SyncForPromotion(leader: Name, voters: set<Name>, name: Name): set<Name> {
    ({leader} + voters) - {name}
  }

  function NumsyncForPromotion(leader: Name, quorum: int, voters: set<Name>, name: Name): int {
    |SyncForPromotion(leader, voters, name)| - quorum
  }

  /** A new leader's first look: `/sync` still names the old one. The standbys are those put
      in place before the promotion, or none where the setting got lost. */
  predicate Promoted(s: State) {
    && s.leader != s.leaderWanted
    && s.leader !in s.voters && s.leaderWanted !in s.sync + s.active
    && 0 <= s.quorum <= |s.voters| && 1 <= s.wanted
    && 0 <= s.confirmed <= |s.sync * s.active|
    && if s.sync == {} then s.numsync == 0
       else s.sync == SyncForPromotion(s.leader, s.voters, s.leaderWanted) &&
            s.numsync == NumsyncForPromotion(s.leader, s.quorum, s.voters, s.leaderWanted)
  }

  /** The settings once `/sync` is taken over: the old leader votes, the new one does not. */
  function TakenOver(s: State): State {
    var voters := VotersAfterFailover(s);
    s.(leader := s.leaderWanted, voters := voters, sync := voters, numsync := |voters| - s.quorum)
  }

  /** The one way a take-over fails: the quorum is all of the voters, and the new leader was
      one of them. */
  predicate TakeOverFails(s: State) {
    s.quorum > 0 && s.quorum == |s.voters| && s.leaderWanted in s.voters
  }

  /** Two voters and a quorum of two; one of the voters takes over. */
  lemma TakeOverMayFail(former: Name, name: Name, other: Name, active: set<Name>)
    requires former != name && other !in {former, name} && name !in active
    ensures var s := State(former, 2, {name, other}, 0, {former, other}, 0, active, 1, name, []);
            Promoted(s) && TakeOverFails(s)
  {
    assert {former} + {name, other} - {name} == {former, other};
    assert |{name, other}| == 2 && |{former, other}| == 2;
  }

  lemma HandoverSets(s: State)
    requires Promoted(s)
    ensures var voters := VotersAfterFailover(s);
            && voters == SyncForPromotion(s.leader, s.voters, s.leaderWanted)
            && |voters| == (if s.leaderWanted in s.voters then |s.voters| else |s.voters| + 1)
            && s.leader in voters && s.leaderWanted !in voters
            && s.voters + {s.leader} + (voters + {s.leaderWanted}) == voters + {s.leaderWanted}
            && |voters + {s.leaderWanted}| == |voters| + 1
            && s.voters + {s.leader} <= voters + {s.leaderWanted}
    ensures TakeOverFails(s) <==> s.quorum > 0 && s.quorum >= |VotersAfterFailover(s)|
  {
    HandoverSizes(s.voters, s.leader, s.leaderWanted);
  }

  lemma HandoverSizes(voters: set<Name>, former: Name, wanted: Name)
    requires former != wanted && former !in voters
    ensures var v := (voters - {wanted}) + {former};
            && v == ({former} + voters) - {wanted}
            && |v| == (if wanted in voters then |voters| else |voters| + 1)
            && |v + {wanted}| == |v| + 1
            && voters + {former} + (v + {wanted}) == v + {wanted}
            && voters + {former} <= v + {wanted}
  {
    var v := (voters - {wanted}) + {former};
    if wanted in voters { assert |voters - {wanted}| == |voters| - 1; }
    else { assert voters - {wanted} == voters; }
    assert v == ({former} + voters) - {wanted};
    assert voters + {former} <= v + {wanted};
    assert voters + {former} + (v + {wanted}) == v + {wanted};
  }

  lemma TakeOverMovesKey(s: State)
    requires Promoted(s) && s.sync != {}
    ensures TakenOver(s) == s.(leader := s.leaderWanted, voters := VotersAfterFailover(s))
  {
    HandoverSets(s);
  }

  /** The synced nodes in place, `/sync` is taken over, unless the quorum is out of range. */
  lemma LeaderIsReplaced(s: State)
    requires Promoted(s) && s.sync != {}
    ensures var voters := VotersAfterFailover(s);
            var r := LeaderUpdate(s, s.quorum, voters, s.leaderWanted);
            && (r.Done? <==> !TakeOverFails(s))
            && (r.Done? ==> UpToYields(r, TakenOver(s)))
            && (r.Raised? ==> r == Raised(s, QuorumError))
    ensures Consistent(TakenOver(s))
    ensures |VotingSide(TakenOver(s)) + AckSide(TakenOver(s))| == TakenOver(s).quorum + TakenOver(s).numsync + 1
  {
    HandoverSets(s);
    ConsistentAfterTakeOver(s);
    TakeOverMovesKey(s);
    assert s.leader != s.leaderWanted && s.quorum >= 0;
    hide Consistent, TakenOver, Promoted, VotersAfterFailover, VotingSide, AckSide;
  }

  lemma ConsistentAfterTakeOver(s: State)
    requires Promoted(s)
    ensures Consistent(TakenOver(s))
    ensures |VotingSide(TakenOver(s)) + AckSide(TakenOver(s))| == TakenOver(s).quorum + TakenOver(s).numsync + 1
  {
    HandoverSets(s);
    var t := TakenOver(s);
    assert VotingSide(t) + AckSide(t) == t.voters + {s.leaderWanted};
  }

  /** Lost settings are put back first. */
  lemma PutBackSettings(s: State)
    requires Promoted(s) && s.sync == {}
    ensures var voters := VotersAfterFailover(s);
            var t := s.(numsync := |voters| - s.quorum, sync := voters);
            && 0 <= t.numsync <= |t.sync| && Consistent(t)
  {
    HandoverSets(s);
    var voters := VotersAfterFailover(s);
    var t := s.(numsync := |voters| - s.quorum, sync := voters);
    assert VotingSide(t) + AckSide(t) == voters + {s.leaderWanted};
  }

  /** The state once lost settings are put back. */
  function PutBack(s: State): State {
    Emit(s.(numsync := |VotersAfterFailover(s)| - s.quorum, sync := VotersAfterFailover(s)), SyncKind)
  }

  lemma PutBackKeepsKey(s: State)
    ensures var t := PutBack(s);
            && VotersAfterFailover(t) == VotersAfterFailover(s) && t.leader == s.leader
            && t.leaderWanted == s.leaderWanted && t.quorum == s.quorum && t.voters == s.voters
            && (TakeOverFails(t) <==> TakeOverFails(s)) && TakenOver(t).(emitted := s.emitted) == TakenOver(s)
  {}

  lemma PutBackIsPromoted(s: State)
    requires Promoted(s) && s.sync == {}
    ensures Promoted(PutBack(s)) && PutBack(s).sync != {}
  {
    HandoverSets(s);
    NobodyConfirmed(s);
    PutBackKeepsKey(s);
    assert s.leaderWanted !in PutBack(s).sync + s.active;
    hide VotersAfterFailover, SyncForPromotion, TakenOver, TakeOverFails;
  }

  lemma NobodyConfirmed(s: State)
    requires Promoted(s) && s.sync == {}
    ensures s.confirmed == 0
  {
    assert s.sync * s.active == {};
  }

  lemma LostSyncIsPutBack(s: State)
    requires Promoted(s) && s.sync == {}
    ensures var voters := VotersAfterFailover(s);
            SyncUpdate(s, |voters| - s.quorum, voters) == Done(PutBack(s))
  {
    hide VotersAfterFailover, Consistent, Promoted;
    PutBackSettings(s);
  }

  /** The `try` block: lost settings are put back, then the leader is replaced. */
  lemma EnterReplacesLeader(s: State)
    requires s.leader != s.leaderWanted
    ensures var t := if s.sync == {} then PutBack(s) else s;
            s.sync != {} || SyncUpdate(s, |VotersAfterFailover(s)| - s.quorum, VotersAfterFailover(s)) == Done(t) ==>
              Enter(s) == LeaderUpdate(t, t.quorum, VotersAfterFailover(s), t.leaderWanted)
  {
    hide LeaderUpdate, SyncUpdate, VotersAfterFailover;
  }

  lemma EnterTakesOver(s: State)
    requires Promoted(s)
    ensures Enter(s).Done? <==> !TakeOverFails(s)
    ensures !TakeOverFails(s) ==> UpToYields(Enter(s), TakenOver(s))
    ensures TakeOverFails(s) ==> Enter(s).Raised? && Enter(s).state.leader != s.leaderWanted
  {
    var t := if s.sync == {} then PutBack(s) else s;
    assert s.leader != s.leaderWanted;
    hide Promoted, TakenOver, VotersAfterFailover, TakeOverFails, VotingSide, AckSide, PutBack, Consistent;
    hide LeaderUpdate, SyncUpdate, Enter;
    EnterReplacesLeader(s);
    if s.sync == {} {
      LostSyncIsPutBack(s);
      PutBackIsPromoted(s);
      PutBackKeepsKey(s);
    }
    LeaderIsReplaced(t);
  }

  /** The hand-over keeps overlap at every step, whether or not the new leader was a voter;
      afterwards the overlap is exact. */
  lemma HandoverKeepsOverlap(s: State)
    requires Promoted(s)
    ensures Enter(s).Done? <==> !TakeOverFails(s)
    ensures !TakeOverFails(s) ==>
              && UpToYields(Enter(s), TakenOver(s)) && Consistent(TakenOver(s))
              && |VotingSide(TakenOver(s)) + AckSide(TakenOver(s))| == TakenOver(s).quorum + TakenOver(s).numsync + 1
    ensures TakeOverFails(s) ==> Enter(s).Raised? && Enter(s).state.leader != s.leaderWanted
  {
    hide Promoted, TakenOver, TakeOverFails, VotingSide, AckSide, Consistent, Enter, UpToYields;
    ConsistentAfterTakeOver(s);
    EnterTakesOver(s);
  }

  /** What is left of a run once the `try` block is passed. */
  lemma RunAfterEntry(s: State)
    requires Enter(s).Done? && !WaitsForReplicas(s, Enter(s)) && Led(Enter(s).state)
    ensures var t := HandleNonSteady(EstimateConfirmed(Enter(s).state));
            Generate(s) == match t
                           case Done(s1) => Steady(s1)
                           case Raised(_, _) => t
  {
    hide Enter, HandleNonSteady, Steady, EstimateConfirmed;
  }

  lemma TakenOverSettings(s: State, t: State)
    requires Promoted(s) && !TakeOverFails(s) && t.(emitted := s.emitted) == TakenOver(s)
    ensures t.active == s.active && t.confirmed == s.confirmed && t.wanted == s.wanted
    ensures Led(t) && t.voters == t.sync != {} && s.sync <= t.sync
    ensures 0 <= t.quorum && 1 <= t.wanted && t.numsync == |t.sync| - t.quorum >= 1
    ensures t.confirmed <= |t.sync * t.active|
  {
    hide VotersAfterFailover, Consistent;
    HandoverSets(s);
    SubsetSize(s.sync * s.active, t.sync * t.active);
  }

  lemma EstimateIsPoint(t: State)
    requires Led(t) && t.voters == t.sync != {} && 0 <= t.quorum && 1 <= t.wanted
    requires t.numsync == |t.sync| - t.quorum >= 1 && t.confirmed <= |t.sync * t.active|
    ensures Point(EstimateConfirmed(t)) && EstimateConfirmed(t).sync == t.sync
  {}

  lemma TakenOverIsPoint(s: State, t: State)
    requires Promoted(s) && !TakeOverFails(s) && t.(emitted := s.emitted) == TakenOver(s)
    ensures Point(EstimateConfirmed(t)) && Led(t)
    ensures t.sync * t.active != {} ==> EstimateConfirmed(t).sync * s.active != {}
  {
    TakenOverSettings(s, t);
    hide VotersAfterFailover, Consistent, Promoted, TakenOver, TakeOverFails, Point, EstimateConfirmed;
    EstimateIsPoint(t);
  }

  lemma EstimateIgnoresYields(s: State, t: State)
    requires t.(emitted := s.emitted) == s
    ensures EstimateConfirmed(t).(emitted := s.emitted) == EstimateConfirmed(s)
  {
  }

  /** The whole first run of a new leader: exactly when it raises, and where it arrives. */
  lemma HandoverRun(s: State)
    requires Promoted(s)
    ensures Generate(s).Done? <==> !TakeOverFails(s) &&
                                   (TakenOver(s).sync * s.active == {} ||
                                    !RaisesFromPoint(EstimateConfirmed(TakenOver(s))))
    ensures var r := Generate(s);
            r.Done? ==>
              if TakenOver(s).sync * s.active == {} then UpToYields(r, TakenOver(s))
              else Point(r.state) && AtTarget(r.state) && SameLeaders(TakenOver(s), r.state)
                   && r.state.quorum == LeftQuorum(EstimateConfirmed(TakenOver(s)))
  {
    hide Consistent, Enter, Align, Steady, SettleMargin, RaisesFromPoint, QuorumUpdate, EstimateConfirmed, Point,
        LeftQuorum;
    HandoverKeepsOverlap(s);
    if TakeOverFails(s) {
      TakeOverFailureIsFatal(s);
    } else if TakenOver(s).sync * s.active != {} {
      var t := Enter(s).state;
      TakenOverIsPoint(s, t);
      ContinuesToTarget(s, t);
    }
  }

  lemma ContinuesToTarget(s: State, t: State)
    requires Promoted(s) && Enter(s) == Done(t) && !TakeOverFails(s)
    requires t.(emitted := s.emitted) == TakenOver(s) && TakenOver(s).sync * s.active != {}
    ensures Generate(s).Done? <==> !RaisesFromPoint(EstimateConfirmed(TakenOver(s)))
    ensures var r := Generate(s);
            r.Done? ==> Point(r.state) && AtTarget(r.state) && SameLeaders(TakenOver(s), r.state)
                        && r.state.quorum == LeftQuorum(EstimateConfirmed(TakenOver(s)))
  {
    hide Consistent, Enter, Align, Steady, SettleMargin, RaisesFromPoint, QuorumUpdate, EstimateConfirmed, Generate,
        Point, LeftQuorum;
    TakenOverIsPoint(s, t);
    var e := EstimateConfirmed(t);
    EstimateIgnoresYields(TakenOver(s), t);
    YieldsDoNotMatter(EstimateConfirmed(TakenOver(s)).(emitted := e.emitted), e);
    YieldsDoNotMatter(EstimateConfirmed(TakenOver(s)), e);
    EstimateKeepsSettings(t);
    PointNeedsNoAlign(e);
    RunAfterEntry(s);
    RunFromStart(e, t);
  }

  lemma EstimateKeepsSettings(s: State)
    ensures EstimateConfirmed(s).(confirmed := s.confirmed) == s
  {
  }

  lemma TakeOverFailureIsFatal(s: State)
    requires Promoted(s) && TakeOverFails(s)
    ensures Generate(s).Raised?
  {
    hide Enter, HandleNonSteady, Steady, Overlaps, Nested;
    HandoverKeepsOverlap(s);
    var t := Enter(s).state;
    EnterKeepsWanted(s);
    RecoverKeepsLeaders(Enter(s));
  }

  lemma EnterKeepsWanted(s: State)
    ensures Enter(s).state.leaderWanted == s.leaderWanted
  {
    hide VotersAfterFailover, Consistent;
  }

  lemma RecoverKeepsLeaders(r: Run)
    ensures Recover(r).state.leader == r.state.leader && Recover(r).state.leaderWanted == r.state.leaderWanted
  {
  }
}
