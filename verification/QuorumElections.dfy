/** Elections under the stored settings: whether anybody can win one, how many nodes the winner
    waits for, and what becomes of a commit over a history of elections. */
module QuorumElections {
  import opened Names
  import opened Wrappers
  import opened Quorum
  import opened QuorumSteps
  import opened QuorumRuns
  import opened QuorumConvergence
  import opened QuorumHandover
  import opened QuorumSafety
  import opened QuorumCommit
  import opened Race
  import opened RaceProperties

  // ---------------------------------------------------------------- who can win

  /** A node passes the race with the votes of distinct nodes. */
  ghost predicate IsElected(x: Settings, r: Racer, statuses: seq<Status>) {
    Reads(r, x) && Distinct(statuses) && Healthiest(r, statuses, true, None) && WinsByVotes(r, statuses)
  }

  /** Somebody can be elected by votes exactly if the quorum leaves room for it. */
  lemma ElectableIff(x: Settings)
    ensures (exists r, statuses :: IsElected(x, r, statuses)) <==> Electable(x)
  {
    forall r: Racer, statuses: seq<Status> | IsElected(x, r, statuses) ensures Electable(x) {
      VotesAreReal(r, statuses);
      SubsetSize(Supporters(r, statuses), r.sync.Members());
      assert r.sync.Members() == x.voters + {x.leader};
    }
    if Electable(x) {
      var r, statuses := LeaderIsElected(x);
    }
  }

  /** Answers of nodes that are as far as the one that asks. */
  function LevelAnswers(names: seq<Name>): seq<Status> {
    seq(|names|, i requires 0 <= i < |names| => Status(names[i], true, false, false, None, 1, 0, 0))
  }

  /** The leader in `/sync`, with everybody's vote. */
  lemma LeaderIsElected(x: Settings) returns (r: Racer, statuses: seq<Status>)
    requires Electable(x)
    ensures IsElected(x, r, statuses)
  {
    var others := Sorted(x.voters - {x.leader});
    SortedIsDistinct(x.voters - {x.leader});
    statuses := LevelAnswers(others);
    r := Racer(x.leader, 1, 0, 1, 0, false, None, 0, true, true, SyncKey(Some(x.leader), x.voters, x.quorum));
    hide Sorted, Supporters, LevelAnswers;
    EverybodySupports(x, r, others);
    NobodyVetoes(r, others);
    SubsetSize(x.voters + {x.leader}, Supporters(r, statuses));
  }

  lemma NobodyVetoes(r: Racer, names: seq<Name>)
    requires r.position == 1 && r.priority == 0
    requires forall i, j :: 0 <= i < j < |names| ==> names[i] != names[j]
    ensures Distinct(LevelAnswers(names))
    ensures forall i :: 0 <= i < |LevelAnswers(names)| ==> !Vetoes(r, FormerLeader(r, None), LevelAnswers(names)[i])
  {}

  lemma EverybodySupports(x: Settings, r: Racer, others: seq<Name>)
    requires r.name == x.leader && r.position == 1 && Reads(r, x)
    requires forall v :: v in x.voters - {x.leader} <==> v in others
    ensures x.voters + {x.leader} <= Supporters(r, LevelAnswers(others))
  {
    var statuses := LevelAnswers(others);
    NamesWhereMeans(statuses, Votes(r));
    forall v | v in x.voters - {x.leader} ensures v in Voters(r, statuses) {
      var i :| 0 <= i < |others| && others[i] == v;
      assert statuses[i].name == v && Votes(r)(statuses[i]);
    }
  }

  // ---------------------------------------------------------------- the count of a winner

  /** The members of `/sync` without the winner are enough for the quorum. */
  predicate LeavesEnough(x: Settings, name: Name) {
    x.quorum + (if name in x.voters + {x.leader} then 1 else 0) <= |x.voters + {x.leader}|
  }

  /** Exactly when the number of nodes prepared for a promotion is not negative. */
  lemma CountIsValidIff(x: Settings, name: Name)
    ensures Promote(x, name).numsync >= 0 <==> LeavesEnough(x, name)
  {
    var members := x.voters + {x.leader};
    assert {x.leader} + x.voters == members;
    if name !in members { assert members - {name} == members; }
  }

  ghost predicate MayWin(x: Settings, r: Racer, statuses: seq<Status>, checkLag: bool, former: Option<Name>) {
    Reads(r, x) && Healthiest(r, statuses, checkLag, former)
  }

  /** Whoever wins, by votes or as the former leader, prepares a valid number of nodes: this is
      so exactly while somebody can be elected by votes. */
  lemma WinnersCountsAreValidIff(x: Settings)
    ensures (forall r, statuses, checkLag, former | MayWin(x, r, statuses, checkLag, former) ::
               Promote(x, r.name).numsync >= 0) <==> Electable(x)
  {
    if Electable(x) {
      forall r: Racer, statuses: seq<Status>, checkLag: bool, former: Option<Name> |
        MayWin(x, r, statuses, checkLag, former) ensures Promote(x, r.name).numsync >= 0
      {
        if WinsByVotes(r, statuses) { VotesLeaveEnoughToSync(x, r, statuses); }
        else { CountIsValidIff(x, r.name); }
      }
    } else {
      var r := UnansweredLeader(x);
      CountIsValidIff(x, r.name);
    }
  }

  /** The former leader, when it reaches nobody. */
  lemma UnansweredLeader(x: Settings) returns (r: Racer)
    ensures r.name == x.leader && MayWin(x, r, [], true, None) && WinsAsFormerLeader(r, [])
  {
    r := Racer(x.leader, 0, 0, 0, 0, false, None, 0, true, true, SyncKey(Some(x.leader), x.voters, x.quorum));
  }

  // ---------------------------------------------------------------- a quorum nobody can meet

  /** Five standbys in the optimal state for four; now two are wanted, and one is confirmed.
      The run leaves a quorum of six: nobody can be elected by votes, and the former leader,
      unanswered, prepares for minus one node. */
  lemma OvershootIsReached(leader: Name, nodes: set<Name>)
    requires |nodes| == 5 && leader !in nodes
    ensures var x := Settings(leader, leader, 1, nodes, 4, nodes);
            var s := Input(x, 1, nodes, 2);
            var y := Settings(leader, leader, 6, nodes, 2, nodes);
            && Safe(x) && Optimal(Input(x, 5, nodes, 4))
            && Own(s) && Consistent(s) && !RunRaises(s) && Overshoots(Settled(Start(s)))
            && ResolverStep(x, y) && !Electable(y)
            && (exists r :: MayWin(y, r, [], true, None) && r.name == leader)
            && Promote(y, leader).numsync == -1
  {
    var x := Settings(leader, leader, 1, nodes, 4, nodes);
    var y := Settings(leader, leader, 6, nodes, 2, nodes);
    var s := Input(x, 1, nodes, 2);
    assert |nodes + {leader}| == 6;
    assert nodes + {leader} + (nodes + {leader}) == nodes + {leader};
    FactorGoesDown(s);
    var ts := Resolve(s);
    assert Replay(x, ts[..2]) == y by { assert ts[..2] == ts; TwoSteps(x, ts); }
    assert StopsAfter(x, y, 1, nodes, 2, 2);
    var r := UnansweredLeader(y);
    assert {leader} + nodes - {leader} == nodes;
  }

  lemma TwoSteps(x: Settings, ts: seq<Transition>)
    requires |ts| == 2
    ensures Replay(x, ts) == Apply(Apply(x, ts[0]), ts[1])
  {
    assert Replay(Apply(x, ts[0]), ts[1..]) == Apply(Apply(x, ts[0]), ts[1..][0]) by {
      assert ts[1..][1..] == [];
    }
  }

  lemma FactorGoesDown(s: State)
    requires Led(s) && s.voters == s.sync == s.active && |s.sync| == 5 && s.quorum == 1 && s.numsync == 4
    requires s.confirmed == 1 && s.wanted == 2 && s.emitted == []
    ensures Point(s) && Own(s) && Consistent(s) && !RunRaises(s) && Overshoots(Settled(Start(s)))
    ensures Resolve(s) == [Transition(QuorumKind, s.leader, 6, s.sync), Transition(SyncKind, s.leader, 2, s.sync)]
  {
    assert s.sync * s.active == s.sync && s.sync - s.active == {} && s.active - s.sync == {};
    PointIsConsistent(s);
    var t := s.(quorum := 6);
    PointIsConsistent(t);
    PointIsConsistent(Emit(t, QuorumKind).(numsync := 2));
    assert Generate(s) == HandleFactorChange(s);
    TwoAreYielded(Generate(s).state.emitted);
  }

  lemma TwoAreYielded(ts: seq<Transition>)
    requires |ts| == 2 && ts[0].kind == QuorumKind && ts[1].kind == SyncKind
    ensures Yielded(ts) == ts
  {
    assert ts[1..] == [ts[1]] && [ts[1]][1..] == [];
    assert Yielded([ts[1]]) == [ts[1]];
  }

  /** What an exempt former leader prepares is a state that its resolver knows how to handle,
      negative number of nodes included. */
  lemma FormerLeadersStateIsOwn(x: Settings, confirmed: int, active: set<Name>, wanted: int)
    requires Safe(x) && x.leader !in x.voters + active && (x.voters == {} ==> x.quorum == 0) && 1 <= wanted
    requires 0 <= confirmed <= |x.voters * active|
    ensures var y := Promote(x, x.leader); var s := Input(y, confirmed, active, wanted);
            y.sync == y.voters == x.voters && y.numsync == |x.voters| - x.quorum && Own(s) && Consistent(s)
  {
    var y := Promote(x, x.leader);
    assert {x.leader} + x.voters - {x.leader} == x.voters;
    ConsistentWhenLed(Input(y, confirmed, active, wanted));
    assert x.voters + x.voters == x.voters;
  }

  // ---------------------------------------------------------------- a history of elections

  /** The settings at one time, and the position of each node. */
  datatype Moment = Moment(settings: Settings, pos: Name -> int)

  ghost predicate Holds(m: Moment, lsn: int) { Acknowledged(m.settings, m.pos, lsn) }

  /** Nodes that have the commit keep it. */
  ghost predicate KeepPositions(a: Moment, b: Moment, lsn: int) {
    forall y :: a.pos(y) >= lsn ==> b.pos(y) >= lsn
  }

  ghost predicate ElectedAs(a: Moment, b: Moment, r: Racer, statuses: seq<Status>, checkLag: bool,
      former: Option<Name>) {
    && Reads(r, a.settings) && Truthful(r, statuses, a.pos) && Healthiest(r, statuses, checkLag, former)
    && (WinsByVotes(r, statuses) || a.settings.leader == a.settings.primary)
    && b.settings == Promote(a.settings, r.name) && b.pos(r.name) >= r.position
  }

  /** A node wins by votes, or as the former leader that is still the primary. */
  ghost predicate Elects(a: Moment, b: Moment) {
    exists r, statuses, checkLag, former :: ElectedAs(a, b, r, statuses, checkLag, former)
  }

  /** The resolver is stopped where no more is asked of a commit than before: a node that is not
      synced any more is not waited for. Changes of `/sync` alone are of this kind. */
  ghost predicate Loosens(a: Moment, b: Moment) {
    && ResolverStep(a.settings, b.settings) && a.settings.primary == b.settings.primary
    && b.settings.numsync + |a.settings.sync - b.settings.sync| <= a.settings.numsync
  }

  ghost predicate IsHistory(run: seq<Moment>, lsn: int) {
    && run != []
    && forall i :: 0 <= i < |run| - 1 ==>
         KeepPositions(run[i], run[i + 1], lsn) && (Elects(run[i], run[i + 1]) || Loosens(run[i], run[i + 1]))
  }

  /** The winner has the commit, and so have as many of the others as it will wait for: the
      commit counts as acknowledged under the settings of the new primary as well. */
  lemma ElectionKeepsAcknowledged(a: Moment, b: Moment, lsn: int)
    requires Safe(a.settings) && Holds(a, lsn) && KeepPositions(a, b, lsn)
    ensures Elects(a, b) ==> Holds(b, lsn)
  {
    if r, statuses, checkLag, former :| ElectedAs(a, b, r, statuses, checkLag, former) {
      ElectedHoldsCommits(a.settings, r, statuses, checkLag, former, a.pos, lsn);
      var holders :| AreHolders(a.settings, a.pos, lsn, holders);
      EnoughRemain(a.settings, holders, r.name);
      var kept := (holders + {a.settings.primary}) * b.settings.sync;
      assert AreHolders(b.settings, b.pos, lsn, kept);
    }
  }

  lemma EnoughRemain(x: Settings, holders: set<Name>, name: Name)
    requires Safe(x) && holders <= x.sync && |holders| >= x.numsync
    ensures var b := Promote(x, name); |(holders + {x.primary}) * b.sync| >= b.numsync
  {
    var members, having := {x.leader} + x.voters, holders + {x.primary};
    MembersHaving(x, holders);
    hide Safe;
    WithoutOne(members, name);
    WithoutOne(having * members, name);
    assert having * (members - {name}) == having * members - {name};
  }

  /** Among the members of `/sync` all but a quorum have the commit. */
  lemma MembersHaving(x: Settings, holders: set<Name>)
    requires Safe(x) && holders <= x.sync && |holders| >= x.numsync
    ensures |(holders + {x.primary}) * ({x.leader} + x.voters)| >= |{x.leader} + x.voters| - x.quorum
  {
    var members, having := {x.leader} + x.voters, holders + {x.primary};
    assert |having| == |holders| + 1;
    assert members == x.voters + {x.leader};
    if |x.voters + {x.leader} + (x.sync + {x.primary})| <= x.quorum + x.numsync + 1 {
      CommonSize(having, members, x.voters + {x.leader} + (x.sync + {x.primary}));
    } else {
      assert members == {x.primary} && x.primary in having * members;
      SubsetSize(members, having * members);
    }
  }

  lemma WithoutOne(s: set<Name>, x: Name)
    ensures |s - {x}| == |s| - (if x in s then 1 else 0)
  {
    if x !in s { assert s - {x} == s; }
  }

  lemma CommonSize(a: set<Name>, b: set<Name>, all: set<Name>)
    requires a <= all && b <= all
    ensures |a * b| >= |a| + |b| - |all|
  {
    SubsetSize(a + b, all);
  }

  lemma LooseningKeepsAcknowledged(a: Moment, b: Moment, lsn: int)
    requires Holds(a, lsn) && KeepPositions(a, b, lsn) && Loosens(a, b)
    ensures Holds(b, lsn)
  {
    var x, y := a.settings, b.settings;
    var holders :| AreHolders(x, a.pos, lsn, holders);
    var kept := holders * y.sync;
    SubsetSize(holders - kept, x.sync - y.sync);
    assert AreHolders(y, b.pos, lsn, kept);
  }

  lemma {:induction false} CommitIsKept(run: seq<Moment>, lsn: int)
    requires IsHistory(run, lsn) && Safe(run[0].settings) && Holds(run[0], lsn)
    ensures forall i :: 0 <= i < |run| ==> Safe(run[i].settings) && Holds(run[i], lsn)
  {
    hide Safe, Holds, Elects, Loosens, KeepPositions;
    var n := |run| - 1;
    if n > 0 {
      var before := run[..n];
      assert forall i :: 0 <= i < n ==> before[i] == run[i];
      CommitIsKept(before, lsn);
      var a, b := run[n - 1], run[n];
      assert before[n - 1] == a;
      HistoryStep(a, b, lsn);
    }
  }

  lemma HistoryStep(a: Moment, b: Moment, lsn: int)
    requires Safe(a.settings) && Holds(a, lsn) && KeepPositions(a, b, lsn)
    ensures Elects(a, b) || Loosens(a, b) ==> Safe(b.settings) && Holds(b, lsn)
  {
    hide Safe, Holds, KeepPositions;
    if Elects(a, b) {
      ElectionKeepsAcknowledged(a, b, lsn);
      var r, statuses, checkLag, former :| ElectedAs(a, b, r, statuses, checkLag, former);
      PromotionIsSafe(a.settings, r.name);
    } else if Loosens(a, b) {
      LooseningKeepsAcknowledged(a, b, lsn);
      StepIsSafe(a.settings, b.settings);
    }
  }

  /** No lost commit over a history of elections: whoever is elected, at any later time, holds a
      commit that was acknowledged at its beginning. */
  lemma NoLostCommitAcrossElections(run: seq<Moment>, lsn: int, i: nat, b: Moment, r: Racer, statuses: seq<Status>,
                                    checkLag: bool, former: Option<Name>)
    requires IsHistory(run, lsn) && Safe(run[0].settings) && Holds(run[0], lsn) && i < |run|
    requires ElectedAs(run[i], b, r, statuses, checkLag, former)
    ensures r.position >= lsn && b.pos(b.settings.primary) >= lsn
  {
    CommitIsKept(run, lsn);
    ElectedHoldsCommits(run[i].settings, r, statuses, checkLag, former, run[i].pos, lsn);
  }
}
