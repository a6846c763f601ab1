/** What the race guarantees: the votes of a winner are real, giving up the lock leaves
    somebody who can take it, and without voting the race selects a maximum. */
module RaceProperties {
  import opened Names
  import opened Wrappers
  import opened Race

  /** Every supporter is a distinct member of the voting set whose position, if it is not
      the winner itself, was reported to be no later than the winner's. */
  lemma VotesAreReal(r: Racer, statuses: seq<Status>)
    requires r.QuorumActive()
    ensures Supporters(r, statuses) <= r.sync.Members()
    ensures forall x <- Supporters(r, statuses) ::
              x == r.name ||
              exists i :: 0 <= i < |statuses| && statuses[i].name == x && 0 < statuses[i].position <= r.position
  {
    NamesWhereMeans(statuses, Votes(r));
  }

  /** A winner in quorum mode has more than `quorum` members behind it, or is the former
      leader with nobody it reached ahead of it. */
  lemma VoteSoundness(r: Racer, statuses: seq<Status>, checkLag: bool, leader: Option<Name>)
      returns (backers: set<Name>)
    requires r.QuorumActive() && Healthiest(r, statuses, checkLag, leader)
    ensures backers <= r.sync.Members()
    ensures forall x <- backers :: x == r.name || exists i ::
        0 <= i < |statuses| && statuses[i].name == x && statuses[i].position <= r.position
    ensures |backers| >= r.sync.quorum + 1 ||
            (r.sync.leader == Some(r.name) && forall i :: 0 <= i < |statuses| && statuses[i].MayPromote() ==>
              statuses[i].position <= r.position)
  {
    VotesAreReal(r, statuses);
    backers := Supporters(r, statuses);
  }

  // ---------------------------------------------------------------- a common snapshot

  /** What all nodes see of each other: one status for each registered node, with its own
      tags, and no node that runs as a primary. */
  ghost predicate Snapshot(members: seq<Member>, view: map<Name, Status>) {
    && (forall i, j :: 0 <= i < j < |members| ==> members[i].name != members[j].name)
    && (forall i :: 0 <= i < |members| ==>
          && members[i].name in view
          && view[members[i].name].name == members[i].name
          && view[members[i].name].nofailover == members[i].nofailover)
    && (forall x <- view :: view[x].inRecovery != Some(false))
  }

  /** A node racing on that snapshot. */
  function RacerAt(base: Racer, view: map<Name, Status>, x: Name): Racer
    requires x in view
  {
    base.(name := x, position := view[x].position, priority := view[x].priority,
          timeline := if view[x].timeline == 0 then None else Some(view[x].timeline))
  }

  /** The answers it may get: those of the snapshot, in any order. */
  ghost predicate Hears(r: Racer, members: seq<Member>, view: map<Name, Status>, statuses: seq<Status>) {
    && Answers(Polled(r, members), statuses)
    && forall i :: 0 <= i < |statuses| ==> statuses[i].name in view && statuses[i] == view[statuses[i].name]
  }

  /** An answer comes from another registered node that was asked. */
  lemma AnswerIsFromMember(r: Racer, members: seq<Member>, view: map<Name, Status>, statuses: seq<Status>, i: nat)
      returns (m: Member)
    requires Hears(r, members, view, statuses) && i < |statuses|
    ensures m in members && m.name == statuses[i].name && IsPolled(r, m)
  {
    PolledIsNotSelf(r, members);
    var polled := Polled(r, members);
    assert statuses[i].name in NamesOf(polled);
    var j :| 0 <= j < |polled| && polled[j].name == statuses[i].name;
    m := polled[j];
    assert m in polled;
  }

  lemma MemberAnswers(r: Racer, members: seq<Member>, view: map<Name, Status>, statuses: seq<Status>, m: Member)
      returns (i: nat)
    requires Hears(r, members, view, statuses) && m in members && IsPolled(r, m)
    ensures i < |statuses| && statuses[i].name == m.name
  {
    PolledIsNotSelf(r, members);
    var polled := Polled(r, members);
    assert m in polled;
    var j :| 0 <= j < |polled| && polled[j] == m;
    assert m.name in NamesOf(polled);
    i :| 0 <= i < |statuses| && statuses[i].name == m.name;
  }

  // ---------------------------------------------------------------- selecting a maximum

  /** A registered node that can be asked, may promote and can be promoted. */
  ghost predicate Contends(members: seq<Member>, view: map<Name, Status>, x: Name) {
    exists m :: m in members && m.name == x && m.hasApi && x in view && view[x].MayPromote()
  }

  /** Another contender beats this one. */
  predicate Beats(a: Status, b: Status) {
    a.position > b.position || (0 < a.position == b.position && a.priority > b.priority)
  }

  /** A node is behind what is published by no more than is tolerated, and, where timelines are
      checked, on one that is no older than the cluster's. */
  predicate IsRecent(base: Racer, st: Status) {
    && base.publishedLsn - st.position <= base.maximumLag
    && (base.timelineChecked ==> st.timeline != 0 && st.timeline >= base.clusterTimeline)
  }

  /** Without synchronous mode the race is passed by exactly those contenders that are recent
      and that no other contender, recent or not, beats. */
  lemma RaceSelectsMaximum(base: Racer, members: seq<Member>, view: map<Name, Status>, x: Name, statuses: seq<Status>)
    requires !base.SyncActive() && !base.QuorumActive()
    requires Snapshot(members, view) && Contends(members, view, x)
    requires Hears(RacerAt(base, view, x), members, view, statuses)
    ensures Healthiest(RacerAt(base, view, x), statuses, true, None) <==>
            && IsRecent(base, view[x])
            && forall y | Contends(members, view, y) :: !Beats(view[y], view[x])
  {
    var r := RacerAt(base, view, x);
    if forall y | Contends(members, view, y) :: !Beats(view[y], view[x]) {
      forall i | 0 <= i < |statuses| ensures !Vetoes(r, None, statuses[i]) {
        var m := AnswerIsFromMember(r, members, view, statuses, i);
        if statuses[i].MayPromote() { assert Contends(members, view, m.name); }
      }
    } else {
      var y :| Contends(members, view, y) && Beats(view[y], view[x]);
      var m :| m in members && m.name == y && m.hasApi;
      var k :| 0 <= k < |members| && members[k] == m;
      assert view[members[k].name].nofailover == members[k].nofailover;
      var i := MemberAnswers(r, members, view, statuses, m);
      assert Vetoes(r, None, statuses[i]);
    }
  }

  /** If a contender does not lag, one of them is not beaten and does not lag either. */
  lemma {:induction false} MaximumExists(view: map<Name, Status>, xs: set<Name>)
    requires xs != {} && forall x <- xs :: x in view
    ensures exists x <- xs :: forall y <- xs :: !Beats(view[y], view[x]) && view[y].position <= view[x].position
    decreases |xs|
  {
    var x :| x in xs;
    if xs == {x} {
      assert !Beats(view[x], view[x]);
    } else {
      MaximumExists(view, xs - {x});
      var y :| y in xs - {x} && forall z <- xs - {x} ::
          !Beats(view[z], view[y]) && view[z].position <= view[y].position;
      if Beats(view[x], view[y]) {
        forall z <- xs ensures !Beats(view[z], view[x]) && view[z].position <= view[x].position {
          if z != x { assert !Beats(view[z], view[y]); }
        }
      } else {
        assert forall z <- xs :: !Beats(view[z], view[y]) && view[z].position <= view[y].position;
      }
    }
  }

  ghost predicate Wins(base: Racer, view: map<Name, Status>, answers: map<Name, seq<Status>>, x: Name) {
    x in view && x in answers && Healthiest(RacerAt(base, view, x), answers[x], true, None)
  }

  ghost predicate Unbeaten(members: seq<Member>, view: map<Name, Status>, x: Name) {
    Contends(members, view, x) && forall y | Contends(members, view, y) :: !Beats(view[y], view[x])
  }

  /** A race has a winner exactly if some unbeaten contender is recent, and two winners are
      level: they have the same position and, if it is positive, the same priority. If all
      contenders are on a timeline that passes, any contender that does not lag makes for a
      winner. */
  lemma RaceHasLevelWinners(base: Racer, members: seq<Member>, view: map<Name, Status>, answers: map<Name, seq<Status>>)
    requires !base.SyncActive() && !base.QuorumActive()
    requires Snapshot(members, view)
    requires forall x | Contends(members, view, x) ::
        x in answers && Hears(RacerAt(base, view, x), members, view, answers[x])
    ensures (exists x :: Contends(members, view, x) && Wins(base, view, answers, x)) <==>
              exists x :: Unbeaten(members, view, x) && IsRecent(base, view[x])
    ensures (forall x | Contends(members, view, x) ::
               base.timelineChecked ==> view[x].timeline != 0 && view[x].timeline >= base.clusterTimeline) &&
            (exists x :: Contends(members, view, x) && base.publishedLsn - view[x].position <= base.maximumLag) ==>
              exists x :: Contends(members, view, x) && Wins(base, view, answers, x)
    ensures forall x, y | Contends(members, view, x) && Contends(members, view, y) &&
              Wins(base, view, answers, x) && Wins(base, view, answers, y) ::
              view[x].position == view[y].position && (view[x].position > 0 ==> view[x].priority == view[y].priority)
  {
    WinnersAreUnbeaten(base, members, view, answers);
    hide Wins, IsRecent, Contends;
    if x :| Unbeaten(members, view, x) && IsRecent(base, view[x]) { assert Wins(base, view, answers, x); }
    if z :| Contends(members, view, z) && base.publishedLsn - view[z].position <= base.maximumLag {
      var x := SomebodyIsUnbeaten(members, view, z);
      RecentIff(base, view[x]);
    }
  }

  lemma RecentIff(base: Racer, st: Status)
    requires base.publishedLsn - st.position <= base.maximumLag
    ensures (base.timelineChecked ==> st.timeline != 0 && st.timeline >= base.clusterTimeline) ==> IsRecent(base, st)
  {}

  lemma WinnersAreUnbeaten(base: Racer, members: seq<Member>, view: map<Name, Status>, answers: map<Name, seq<Status>>)
    requires !base.SyncActive() && !base.QuorumActive()
    requires Snapshot(members, view)
    requires forall x | Contends(members, view, x) ::
        x in answers && Hears(RacerAt(base, view, x), members, view, answers[x])
    ensures forall x :: Unbeaten(members, view, x) ==> x in view
    ensures forall x | Contends(members, view, x) ::
              Wins(base, view, answers, x) <==> Unbeaten(members, view, x) && IsRecent(base, view[x])
  {
    hide Hears, Healthiest, Snapshot;
    forall x | Contends(members, view, x)
      ensures Wins(base, view, answers, x) <==> Unbeaten(members, view, x) && IsRecent(base, view[x])
    {
      RaceSelectsMaximum(base, members, view, x, answers[x]);
    }
  }

  /** Some contender is not beaten, and as far as any other. */
  lemma SomebodyIsUnbeaten(members: seq<Member>, view: map<Name, Status>, z: Name) returns (x: Name)
    requires Contends(members, view, z)
    ensures Unbeaten(members, view, x) && view[x].position >= view[z].position
  {
    var xs := set x <- view | Contends(members, view, x);
    assert z in xs;
    MaximumExists(view, xs);
    x :| x in xs && forall y <- xs :: !Beats(view[y], view[x]) && view[y].position <= view[x].position;
    forall y | Contends(members, view, y) ensures !Beats(view[y], view[x]) { assert y in xs; }
  }

  /** A node on an old timeline that is ahead of all others leaves the race without a winner: it
      is unbeaten and does not pass, and nobody else is unbeaten. */
  lemma StaleNodeBlocksRace(stale: Name, current: Name)
    requires stale != current
    ensures var members := [Member(stale, true, false), Member(current, true, false)];
            var view := map[stale := Status(stale, true, false, false, None, 2, 1, 1),
                            current := Status(current, true, false, false, None, 1, 1, 2)];
            var base := Racer(current, 0, 0, 1, 10, true, None, 2, false, false, SyncKey(None, {}, 0));
            && Snapshot(members, view) && Contends(members, view, current) && IsRecent(base, view[current])
            && !exists x :: Unbeaten(members, view, x) && IsRecent(base, view[x])
  {
    var members := [Member(stale, true, false), Member(current, true, false)];
    var view := map[stale := Status(stale, true, false, false, None, 2, 1, 1),
                    current := Status(current, true, false, false, None, 1, 1, 2)];
    assert members[0] in members && members[1] in members;
    assert Contends(members, view, stale) && Contends(members, view, current);
    assert Beats(view[stale], view[current]);
  }

  // ---------------------------------------------------------------- releasing the lock

  /** The race in synchronous mode is among the members of `/sync`. */
  function Electorate(r: Racer, members: seq<Member>): seq<Member> {
    if members == [] then []
    else (if members[0].name in r.sync.Members() then [members[0]] else []) + Electorate(r, members[1..])
  }

  lemma {:induction false} ElectorateIsMembers(r: Racer, members: seq<Member>)
    ensures forall m :: m in Electorate(r, members) <==> m in members && m.name in r.sync.Members()
  {
    if members != [] { ElectorateIsMembers(r, members[1..]); }
  }

  lemma {:induction false} CandidatesAreMembers(r: Racer, members: seq<Member>)
    ensures forall m :: m in Candidates(r, None, false, members) <==> m in members && IsCandidate(r, None, false, m)
  {
    if members != [] { CandidatesAreMembers(r, members[1..]); }
  }

  /** What the departing leader knows, and what it has found. */
  ghost predicate Departing(leader: Racer, members: seq<Member>, view: map<Name, Status>, lsn: int,
      statuses: seq<Status>) {
    && leader.SyncActive() && leader.QuorumActive() && leader.sync.leader.value !in leader.sync.voters
    && 0 <= leader.sync.quorum && 0 <= leader.maximumLag && !leader.timelineChecked
    && Snapshot(members, view)
    && Answers(Candidates(leader, None, false, members), statuses)
    && (forall i :: 0 <= i < |statuses| ==> statuses[i].name in view && statuses[i] == view[statuses[i].name])
    && leader.name in view && !view[leader.name].reachable  // it is going down
    && 0 < lsn && leader.publishedLsn <= lsn
    && FailoverPossible(leader, None, false, lsn, false, statuses)
  }

  function ReadyNames(leader: Racer, lsn: int, statuses: seq<Status>): set<Name> {
    NamesWhere(statuses, Ready(leader, lsn, false))
  }

  lemma ReadyAreVoters(leader: Racer, members: seq<Member>, view: map<Name, Status>, lsn: int, statuses: seq<Status>)
    requires Departing(leader, members, view, lsn, statuses)
    ensures var ready := ReadyNames(leader, lsn, statuses);
            && |ready| > leader.sync.quorum && ready != {} && ready <= leader.sync.voters
            && (forall x <- ready :: x in view && view[x].MayPromote() && view[x].position >= lsn &&
                  exists m :: m in members && m.name == x && IsCandidate(leader, None, false, m))
            && (forall m | m in members && IsCandidate(leader, None, false, m) ::
                  view[m.name].MayPromote() && view[m.name].position >= lsn ==> m.name in ready)
  {
    var ready := ReadyNames(leader, lsn, statuses);
    NamesWhereMeans(statuses, Ready(leader, lsn, false));
    CandidatesAreMembers(leader, members);
    var candidates := Candidates(leader, None, false, members);
    forall x <- ready
      ensures x in view && view[x].MayPromote() && view[x].position >= lsn && x in leader.sync.voters
      ensures exists m :: m in members && m.name == x && IsCandidate(leader, None, false, m)
    {
      var i :| 0 <= i < |statuses| && statuses[i].name == x && Ready(leader, lsn, false)(statuses[i]);
      assert statuses[i].name in NamesOf(candidates);
      var j :| 0 <= j < |candidates| && candidates[j].name == x;
      assert candidates[j] in candidates;
    }
    forall m | m in members && IsCandidate(leader, None, false, m) && view[m.name].MayPromote() &&
      view[m.name].position >= lsn
      ensures m.name in ready
    {
      var j :| 0 <= j < |candidates| && candidates[j] == m;
      assert m.name in NamesOf(candidates);
      var i :| 0 <= i < |statuses| && statuses[i].name == m.name;
      assert Ready(leader, lsn, false)(statuses[i]);
    }
  }

  /** An answer that the best of the ready nodes gets does not end the race for it. */
  lemma WinnerIsNotVetoed(leader: Racer, members: seq<Member>, view: map<Name, Status>, lsn: int, statuses: seq<Status>,
                          former: Option<Name>, winner: Name, heard: seq<Status>, i: nat)
    requires Departing(leader, members, view, lsn, statuses)
    requires winner in ReadyNames(leader, lsn, statuses) && winner in view && view[winner].position >= lsn
    requires forall y <- ReadyNames(leader, lsn, statuses) :: y in view && !Beats(view[y], view[winner])
    requires Hears(RacerAt(leader, view, winner), Electorate(leader, members), view, heard) && i < |heard|
    ensures !Vetoes(RacerAt(leader, view, winner), FormerLeader(leader, former), heard[i])
  {
    hide FailoverPossible, Candidates, NamesWhere, Answers;
    var r := RacerAt(leader, view, winner);
    var st := heard[i];
    var m := AnswerIsFromMember(r, Electorate(leader, members), view, heard, i);
    ElectorateIsMembers(leader, members);
    var k :| 0 <= k < |members| && members[k] == m;
    assert view[members[k].name].nofailover == members[k].nofailover;
    if st.MayPromote() && !leader.sync.LeaderIs(st.name) {
      assert IsCandidate(leader, None, false, m);
      ReadyAreVoters(leader, members, view, lsn, statuses);
      if st.position >= lsn { assert m.name in ReadyNames(leader, lsn, statuses); }
    }
  }

  lemma WinnerHasVotes(leader: Racer, members: seq<Member>, view: map<Name, Status>, lsn: int, statuses: seq<Status>,
                       winner: Name, heard: seq<Status>)
    requires Departing(leader, members, view, lsn, statuses)
    requires winner in ReadyNames(leader, lsn, statuses) && winner in view
    requires forall y <- ReadyNames(leader, lsn, statuses) :: y in view && view[y].position <= view[winner].position
    requires Hears(RacerAt(leader, view, winner), Electorate(leader, members), view, heard)
    ensures WinsByVotes(RacerAt(leader, view, winner), heard)
  {
    var r := RacerAt(leader, view, winner);
    var ready := ReadyNames(leader, lsn, statuses);
    ReadyAreVoters(leader, members, view, lsn, statuses);
    ElectorateIsMembers(leader, members);
    NamesWhereMeans(heard, Votes(r));
    forall y <- ready ensures y in Supporters(r, heard) {
      if y != winner {
        var m :| m in members && m.name == y && IsCandidate(leader, None, false, m);
        var i := MemberAnswers(r, Electorate(leader, members), view, heard, m);
        assert Votes(r)(heard[i]);
      }
    }
    SubsetSize(ready, Supporters(r, heard));
  }

  /** Giving up the lock leaves a winner: if the departing leader found a fail-over possible
      for the position it reports, then some voter passes the race, whatever order the
      answers come in. */
  lemma ReleaseLeavesWinner(leader: Racer, members: seq<Member>, view: map<Name, Status>, lsn: int,
      statuses: seq<Status>, former: Option<Name>)
    returns (winner: Name)
    requires Departing(leader, members, view, lsn, statuses)
    ensures winner in leader.sync.voters && winner in view && view[winner].MayPromote() && view[winner].position >= lsn
    ensures forall heard | Hears(RacerAt(leader, view, winner), Electorate(leader, members), view, heard) ::
              Healthiest(RacerAt(leader, view, winner), heard, true, former)
  {
    var ready := ReadyNames(leader, lsn, statuses);
    ReadyAreVoters(leader, members, view, lsn, statuses);
    MaximumExists(view, ready);
    winner :| winner in ready && forall y <- ready ::
      !Beats(view[y], view[winner]) && view[y].position <= view[winner].position;
    forall heard | Hears(RacerAt(leader, view, winner), Electorate(leader, members), view, heard)
      ensures Healthiest(RacerAt(leader, view, winner), heard, true, former)
    {
      var r := RacerAt(leader, view, winner);
      forall i | 0 <= i < |heard| ensures !Vetoes(r, FormerLeader(r, former), heard[i]) {
        WinnerIsNotVetoed(leader, members, view, lsn, statuses, former, winner, heard, i);
      }
      WinnerHasVotes(leader, members, view, lsn, statuses, winner, heard);
    }
  }
}
