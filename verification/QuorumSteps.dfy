/** What one generator does to a state whose `/sync` leader is the wanted one. */
module QuorumSteps {
  import opened Names
  import opened Quorum

  /** The leader in `/sync` is the primary, and is nobody's standby. */
  predicate Led(s: State) {
    && s.leader == s.leaderWanted
    && s.leader !in s.voters + s.sync + s.active
  }

  /** What `check_invariants` comes down to once the two leaders agree. */
  lemma ConsistentWhenLed(s: State)
    requires Led(s)
    ensures Nested(s) <==> s.voters <= s.sync || s.sync <= s.voters
    ensures Overlaps(s) <==> s.voters == {} || |s.voters + s.sync| <= s.quorum + s.numsync
  {
    var l := {s.leader};
    assert VotingSide(s) + AckSide(s) == s.voters + s.sync + l;
    assert |s.voters + s.sync + l| == |s.voters + s.sync| + 1;
    if VotingSide(s) <= AckSide(s) {
      forall x <- s.voters ensures x in s.sync { assert x in AckSide(s); }
    }
    if AckSide(s) <= VotingSide(s) {
      forall x <- s.sync ensures x in s.voters { assert x in VotingSide(s); }
    }
  }

  /** The quorum that `quorum_update` settles on. */
  function Adjusted(s: State, quorum: int, adjust: bool): int {
    if adjust then quorum + Max(s.numsync - s.confirmed, 0) else quorum
  }

  predicate Resets(s: State) { s.confirmed == 0 && s.voters == {} }

  /** Exactly when `quorum_update` succeeds, and what it leaves. */
  lemma QuorumUpdateWhenLed(s: State, quorum: int, voters: set<Name>, adjust: bool)
    requires Led(s) && s.leader !in voters && !Resets(s)
    requires Consistent(s)
    ensures QuorumUpdate(s, quorum, voters, adjust).Done? <==>
            && 0 <= quorum && (quorum > 0 ==> quorum < |voters|)
            && (voters == {} || |voters + s.sync| <= Adjusted(s, quorum, adjust) + s.numsync)
            && (voters <= s.sync || s.sync <= voters)
    ensures var r := QuorumUpdate(s, quorum, voters, adjust);
            r.Done? ==>
              r.state == s.(quorum := Adjusted(s, quorum, adjust), voters := voters, emitted := r.state.emitted)
    ensures var r := QuorumUpdate(s, quorum, voters, adjust); var q := Adjusted(s, quorum, adjust);
            r.Done? && s.voters != {} ==>
              r.state.emitted == if q == s.quorum && voters == s.voters then s.emitted
                                 else s.emitted + [Transition(QuorumKind, s.leader, q, voters)]
  {
    hide Overlaps, Nested;
    var t := s.(quorum := Adjusted(s, quorum, adjust), voters := voters);
    ConsistentWhenLed(t);
    ConsistentWhenLed(s);
    ConsistentWhenLed(Emit(s, RestartKind).(quorum := Adjusted(s, quorum, adjust), voters := voters));
  }

  lemma SyncUpdateWhenLed(s: State, numsync: int, sync: set<Name>)
    requires Led(s) && s.leader !in sync
    ensures SyncUpdate(s, numsync, sync).Done? <==>
            && 0 <= numsync <= |sync|
            && (s.voters == {} || |s.voters + sync| <= s.quorum + numsync)
            && (s.voters <= sync || sync <= s.voters)
    ensures var r := SyncUpdate(s, numsync, sync);
            r.Done? ==> r.state == s.(numsync := numsync, sync := sync,
                                      emitted := s.emitted + [Transition(SyncKind, s.leader, numsync, sync)])
  {
    hide Overlaps, Nested;
    ConsistentWhenLed(s.(numsync := numsync, sync := sync));
  }

  /** An adjusted update for all but `numsync` of the voters makes any `quorum + 1` of the
      voters and their leader meet the leader and any confirmed standbys it relies on. */
  lemma AdjustmentCoversUnconfirmed(s: State, voters: set<Name>, votes: set<Name>, holders: set<Name>)
    requires QuorumUpdate(s, |voters| - s.numsync, voters, true).Done? && !Resets(s)
    requires s.leader !in voters
    ensures var t := QuorumUpdate(s, |voters| - s.numsync, voters, true).state;
            && |t.voters| == t.quorum + Min(t.numsync, t.confirmed)
            && (votes <= VotingSide(t) && |votes| == t.quorum + 1 &&
                holders <= t.voters && |holders| == Min(t.numsync, t.confirmed) ==>
                  votes * (holders + {t.leader}) != {})
  {
    var t := QuorumUpdate(s, |voters| - s.numsync, voters, true).state;
    assert t.voters == voters;
    if votes <= VotingSide(t) && |votes| == t.quorum + 1 && holders <= t.voters &&
      |holders| == Min(t.numsync, t.confirmed) {
      Pigeonhole(votes, holders + {t.leader}, VotingSide(t));
    }
  }

  // ---------------------------------------------------------------- steady points

  /** A state between changes: the sets agree and any quorum meets any acknowledging set. */
  predicate Point(s: State) {
    && Led(s)
    && s.voters == s.sync
    && 0 <= s.quorum && 1 <= s.wanted
    && s.confirmed <= |s.sync * s.active|
    && (s.sync == {} ==> s.quorum == 0 && s.numsync == 0)
    && (s.sync != {} ==> s.numsync <= |s.sync| <= s.quorum + s.numsync)
  }

  /** The same state but for the two stored settings and what was yielded. */
  predicate SameSetting(s: State, t: State) {
    && t.leader == s.leader && t.leaderWanted == s.leaderWanted
    && t.confirmed == s.confirmed && t.active == s.active && t.wanted == s.wanted
  }

  lemma PointIsConsistent(s: State)
    requires Point(s)
    ensures Consistent(s) && s.voters + s.sync == s.sync
  {
    ConsistentWhenLed(s);
    assert s.voters + s.sync == s.sync;
  }

  /** Whether the interrupted-change step touches `numsync`, and the value it leaves. */
  function SettledNumsync(s: State): int {
    if s.quorum + Min(s.numsync, s.confirmed) > |s.sync| && s.numsync > s.wanted
    then Max(s.wanted, |s.sync| - s.quorum) else s.numsync
  }

  function SettledQuorum(s: State): int {
    if s.quorum + Min(s.numsync, s.confirmed) > |s.sync| && s.numsync <= s.wanted then
      |s.sync| - Min(s.numsync, s.confirmed)
    else if s.quorum + Min(s.numsync, s.confirmed) <= |s.sync| && s.numsync == s.wanted
            && s.quorum + s.numsync > |s.sync| && s.numsync > s.confirmed then
      |s.sync| - s.confirmed
    else s.quorum
  }

  /** A margin that is there although no node is asked for: the quorum that would go with that
      many nodes is out of range. */
  predicate SettlingRaises(s: State) {
    s.numsync < 1 && s.quorum + Min(s.numsync, s.confirmed) > |s.sync|
  }

  lemma SettleAtPoint(s: State)
    requires Point(s)
    ensures var r := SettleMargin(s);
            && (r.Done? <==> !SettlingRaises(s))
            && (r.Done? ==>
                  && Point(r.state) && SameSetting(s, r.state)
                  && r.state.sync == s.sync
                  && r.state.numsync == SettledNumsync(s) && r.state.quorum == SettledQuorum(s))
  {
    hide Overlaps, Nested, QuorumUpdate, SyncUpdate;
    PointIsConsistent(s);
    if s.sync != {} {
      QuorumUpdateWhenLed(s, |s.sync| - s.numsync, s.voters, true);
      SyncUpdateWhenLed(s, Max(s.wanted, |s.voters| - s.quorum), s.sync);
    }
  }

  // ---------------------------------------------------------------- nodes that left

  /** All synced nodes left: the voters go first, then the synced nodes. */
  lemma RemoveAll(s: State)
    requires Point(s) && s.sync != {} && s.sync * s.active == {}
    ensures var r := RemoveGone(s);
            && r.Done? && Point(r.state) && SameSetting(s, r.state)
            && r.state.sync == {}
  {
    hide Overlaps, Nested, QuorumUpdate, SyncUpdate;
    assert s.sync - s.active == s.sync;
    PointIsConsistent(s);
    QuorumUpdateWhenLed(s, 0, {}, false);
    SyncUpdateWhenLed(QuorumUpdate(s, 0, {}, false).state, 0, {});
  }

  /** Nodes left that every quorum may include: with quorum 0 each synced node acknowledges
      every commit, so the factor goes down with the nodes. */
  lemma RemoveRequiredAtPoint(s: State, gone: set<Name>)
    requires Point(s) && gone != {} && gone < s.sync && s.quorum == 0
    requires s.confirmed <= |(s.sync - gone) * s.active|
    ensures var r := RemoveRequired(s, gone);
            && r.Done? && Point(r.state) && SameSetting(s, r.state)
            && r.state.sync == s.sync - gone
            && r.state.numsync == |r.state.sync|
            && r.state.quorum == |r.state.sync| - Min(s.wanted, |r.state.sync|)
  {
    hide Overlaps, Nested, QuorumUpdate, SyncUpdate;
    var sync := s.sync - gone;
    assert s.voters - gone == sync;
    SubsetSize(gone, s.sync);
    PointIsConsistent(s);
    var q := |sync| - Min(s.wanted, |sync|);
    assert sync + s.sync == s.sync;
    QuorumUpdateWhenLed(s, q, sync, false);
    var t := QuorumUpdate(s, q, sync, false).state;
    SyncUpdateWhenLed(t, |sync|, sync);
    assert sync + sync == sync;
  }

  lemma RemoveSpareAtPoint(s: State, gone: set<Name>)
    requires Point(s) && gone == s.sync - s.active && gone != {} && gone != s.sync && s.quorum > 0
    ensures var r := RemoveSpare(s, gone);
            var left := gone - LastOf(gone, s.quorum);
            && r.Done? && Point(r.state) && SameSetting(s, r.state)
            && r.state.sync == s.sync - LastOf(gone, s.quorum)
            && r.state.numsync == Min(Max(s.wanted, s.numsync), |r.state.sync|)
            && r.state.quorum == |r.state.sync| - r.state.numsync +
               (if left == {} then Max(r.state.numsync - s.confirmed, 0) else 0)
  {
    hide Overlaps, Nested, QuorumUpdate, SyncUpdate, LastOf;
    var remove := LastOf(gone, s.quorum);
    LastOfIsLargest(gone, s.quorum);
    PointIsConsistent(s);
    var sync := s.sync - remove;
    SubsetSize(remove, s.sync);
    assert s.voters - remove == sync && s.voters + sync == s.sync && sync + sync == sync;
    assert gone * sync == gone - remove;
    assert sync * s.active == s.sync * s.active;
    var numsync := Min(Max(s.wanted, s.numsync), |sync|);
    SyncUpdateWhenLed(s, numsync, sync);
    var s1 := SyncUpdate(s, numsync, sync).state;
    ConsistentWhenLed(s1);
    QuorumUpdateWhenLed(s1, |sync| - numsync, sync, gone * sync == {});
  }

  /** What is left of a point some of whose synced nodes are gone. */
  predicate LeftAfterRemoval(s: State, t: State) {
    var gone := s.sync - s.active;
    && Point(t) && SameSetting(s, t)
    && t.sync == s.sync * s.active
    && (|gone| <= s.quorum ==>
          && t.numsync == Min(Max(s.wanted, s.numsync), |t.sync|)
          && t.quorum == |t.sync| - Min(t.numsync, s.confirmed))
    && (|gone| > s.quorum ==>
          && t.numsync == |t.sync|
          && t.quorum == |t.sync| - Min(s.wanted, |t.sync|))
  }

  lemma RemoveWithoutSpare(s: State)
    requires Point(s) && s.sync * s.active != {} && s.sync - s.active != {} && s.quorum == 0
    ensures var r := RemoveRequired(s, s.sync - s.active); r.Done? && LeftAfterRemoval(s, r.state)
  {
    hide RemoveRequired;
    var gone := s.sync - s.active;
    assert s.sync - gone == s.sync * s.active;
    assert (s.sync - gone) * s.active == s.sync * s.active;
    assert gone < s.sync by { assert gone != s.sync; }
    SubsetSize(gone, s.sync);
    RemoveRequiredAtPoint(s, gone);
  }

  lemma RemoveWithSpare(s: State)
    requires Point(s) && s.sync * s.active != {} && s.sync - s.active != {} && s.quorum > 0
    ensures var gone := s.sync - s.active;
            var s1 := RemoveSpare(s, gone);
            && s1.Done?
            && var r := RemoveRequired(s1.state, gone * s1.state.sync);
            r.Done? && LeftAfterRemoval(s, r.state)
  {
    hide LastOf, RemoveSpare;
    var gone := s.sync - s.active;
    var alive := s.sync * s.active;
    assert s.sync - gone == alive && gone != s.sync;
    var remove := LastOf(gone, s.quorum);
    LastOfIsLargest(gone, s.quorum);
    SubsetSize(remove, gone);
    RemoveSpareAtPoint(s, gone);
    var s1 := RemoveSpare(s, gone).state;
    var left := gone * s1.sync;
    assert left == gone - remove;
    if left != {} {
      assert s1.sync - left == alive && alive * s.active == alive;
      FinishRemoval(s1, left, alive);
    } else {
      assert s1.sync == alive;
    }
  }

  lemma FinishRemoval(s: State, left: set<Name>, alive: set<Name>)
    requires Point(s) && left != {} && left < s.sync && s.quorum == 0
    requires s.sync - left == alive && s.confirmed <= |alive * s.active|
    ensures var r := RemoveRequired(s, left);
            && r.Done? && Point(r.state) && SameSetting(s, r.state)
            && r.state.sync == alive && r.state.numsync == |alive|
            && r.state.quorum == |alive| - Min(s.wanted, |alive|)
  {
    hide RemoveRequired;
    RemoveRequiredAtPoint(s, left);
  }

  /** Some synced nodes left, some stay. */
  lemma RemoveSome(s: State)
    requires Point(s) && s.sync * s.active != {} && s.sync - s.active != {}
    ensures var r := RemoveGone(s); r.Done? && LeftAfterRemoval(s, r.state)
  {
    hide RemoveRequired, LeftAfterRemoval;
    var gone := s.sync - s.active;
    assert s.sync != gone by { assert s.sync - gone == s.sync * s.active; }
    if s.quorum == 0 {
      assert gone * s.sync == gone;
      RemoveWithoutSpare(s);
    } else {
      RemoveWithSpare(s);
    }
  }
}
