/** Quorum commit as a whole: a primary that changes the two settings step by step and may
    stop anywhere, and nodes that take over after winning the race. In every state of every
    run, a node elected by votes holds each commit that the settings in force count as
    acknowledged. */
module QuorumCommit {
  import opened Names
  import opened Wrappers
  import opened Quorum
  import opened QuorumSafety
  import opened QuorumSteps
  import opened QuorumRuns
  import opened QuorumConvergence
  import opened QuorumRestarts
  import opened QuorumHandover
  import opened Race
  import opened RaceProperties
  import QR = QuorumResolver

  // ---------------------------------------------------------------- one state

  /** A commit has reached the primary and `numsync` of its synced nodes. */
  ghost predicate Acknowledged(x: Settings, pos: Name -> int, lsn: int) {
    && pos(x.primary) >= lsn
    && exists holders :: AreHolders(x, pos, lsn, holders)
  }

  /** Enough synced nodes, all of which have the commit. */
  ghost predicate AreHolders(x: Settings, pos: Name -> int, lsn: int, holders: set<Name>) {
    holders <= x.sync && |holders| >= x.numsync && forall h :: h in holders ==> pos(h) >= lsn
  }

  /** The racing node reads the `/sync` key of this state. */
  predicate Reads(r: Racer, x: Settings) {
    r.quorumMode && r.sync == SyncKey(Some(x.leader), x.voters, x.quorum)
  }

  /** Positions never go back: what nodes report is no earlier than what they had. */
  ghost predicate Truthful(r: Racer, statuses: seq<Status>, pos: Name -> int) {
    && r.position >= pos(r.name)
    && forall i :: 0 <= i < |statuses| && statuses[i].MayPromote() ==> statuses[i].position >= pos(statuses[i].name)
  }

  /** Any `quorum + 1` members of `/sync` include a node that holds the commit. */
  lemma VotesMeetAcknowledgement(x: Settings, pos: Name -> int, lsn: int, backers: set<Name>) returns (holder: Name)
    requires Safe(x) && Acknowledged(x, pos, lsn)
    requires backers <= x.voters + {x.leader} && |backers| > x.quorum
    ensures holder in backers && pos(holder) >= lsn
  {
    if |x.voters + {x.leader} + (x.sync + {x.primary})| <= x.quorum + x.numsync + 1 {
      var holders :| AreHolders(x, pos, lsn, holders);
      assert |holders + {x.primary}| == |holders| + 1;
      Pigeonhole(backers, holders + {x.primary}, x.voters + {x.leader} + (x.sync + {x.primary}));
      holder :| holder in backers * (holders + {x.primary});
    } else {
      holder :| holder in backers;
      assert holder in {x.leader};
    }
  }

  /** A node elected by votes holds every acknowledged commit; so does an elected former
      leader, if it is still the primary. */
  lemma ElectedHoldsCommits(x: Settings, r: Racer, statuses: seq<Status>, checkLag: bool, former: Option<Name>,
      pos: Name -> int, lsn: int)
    requires Safe(x) && Reads(r, x) && Truthful(r, statuses, pos) && Acknowledged(x, pos, lsn)
    ensures Healthiest(r, statuses, checkLag, former) && (WinsByVotes(r, statuses) || x.leader == x.primary) ==>
              r.position >= lsn
  {
    if WinsByVotes(r, statuses) {
      VotesAreReal(r, statuses);
      var backers := Supporters(r, statuses);
      var holder := VotesMeetAcknowledgement(x, pos, lsn, backers);
      if holder != r.name {
        NamesWhereMeans(statuses, Votes(r));
        var i :| 0 <= i < |statuses| && statuses[i].name == holder && Votes(r)(statuses[i]);
      }
    }
  }

  /** Electing the former leader without votes keeps all acknowledged commits. */
  ghost predicate FormerLeaderIsSafe(x: Settings) {
    forall r: Racer, statuses: seq<Status>, checkLag: bool, pos: Name -> int, lsn: int |
      Reads(r, x) && Truthful(r, statuses, pos) && Acknowledged(x, pos, lsn) &&
      Healthiest(r, statuses, checkLag, None) && WinsAsFormerLeader(r, statuses) :: r.position >= lsn
  }

  /** The exemption of the former leader from voting is sound exactly while it is still the
      primary, or too few other nodes are synced to acknowledge a commit without it. */
  lemma FormerLeaderExemption(x: Settings)
    requires Safe(x)
    ensures FormerLeaderIsSafe(x) <==> x.leader == x.primary || |x.sync - {x.leader}| < x.numsync
  {
    if x.leader != x.primary && |x.sync - {x.leader}| >= x.numsync {
      LostByFormerLeader(x);
    } else {
      forall r: Racer, statuses: seq<Status>, checkLag: bool, pos: Name -> int, lsn: int |
        Reads(r, x) && Truthful(r, statuses, pos) && Acknowledged(x, pos, lsn) &&
        Healthiest(r, statuses, checkLag, None) && WinsAsFormerLeader(r, statuses)
        ensures r.position >= lsn
      {
        if x.leader != x.primary {
          var holders :| AreHolders(x, pos, lsn, holders);
          if x.leader !in holders { SubsetSize(holders, x.sync - {x.leader}); }
        }
      }
    }
  }

  /** The state in which the exemption loses a commit: nobody answers the former leader,
      which misses what the new primary has committed with other nodes. */
  lemma LostByFormerLeader(x: Settings)
    requires x.leader != x.primary && |x.sync - {x.leader}| >= x.numsync
    ensures !FormerLeaderIsSafe(x)
  {
    var pos: Name -> int := (n: Name) => if n == x.leader then 0 else 1;
    var r := Racer(x.leader, 0, 1, 0, 0, false, None, 0, true, true, SyncKey(Some(x.leader), x.voters, x.quorum));
    assert Acknowledged(x, pos, 1) by {
      assert AreHolders(x, pos, 1, x.sync - {x.leader});
    }
    assert Truthful(r, [], pos) && Healthiest(r, [], false, None) && WinsAsFormerLeader(r, []);
  }

  // ---------------------------------------------------------------- runs

  /** The primary runs the resolver on whatever it observes, and stops after any transition. */
  ghost predicate ResolverStep(a: Settings, b: Settings) {
    exists confirmed: int, active: set<Name>, wanted: int, k: nat ::
      StopsAfter(a, b, confirmed, active, wanted, k)
  }

  predicate StopsAfter(a: Settings, b: Settings, confirmed: int, active: set<Name>, wanted: int, k: nat) {
    && a.primary !in active
    && var ts := Resolve(Input(a, confirmed, active, wanted));
    k <= |ts| && b == Replay(a, ts[..k])
  }

  /** The settings after node `name` has prepared its promotion. */
  function Promote(a: Settings, name: Name): Settings {
    a.(primary := name,
       sync := SyncForPromotion(a.leader, a.voters, name),
       numsync := NumsyncForPromotion(a.leader, a.quorum, a.voters, name))
  }

  /** A node that wins the race promotes, whatever number of nodes it computes. */
  ghost predicate PromotionStep(a: Settings, b: Settings) {
    exists r: Racer, statuses: seq<Status>, checkLag: bool, former: Option<Name> ::
      && Reads(r, a) && Healthiest(r, statuses, checkLag, former)
      && b == Promote(a, r.name)
  }

  lemma VotesLeaveEnoughToSync(a: Settings, r: Racer, statuses: seq<Status>)
    requires Reads(r, a) && WinsByVotes(r, statuses)
    ensures 0 <= Promote(a, r.name).numsync
  {
    VotesAreReal(r, statuses);
    var members := r.sync.Members();
    SubsetSize(Supporters(r, statuses), members);
    assert members == {a.leader} + a.voters;
    if r.name in members { assert |members - {r.name}| == |members| - 1; }
    else { assert members - {r.name} == members; }
  }

  lemma PromotionIsSafe(a: Settings, name: Name)
    requires Safe(a)
    ensures Safe(Promote(a, name))
  {
    var b := Promote(a, name);
    var members := {a.leader} + a.voters;
    assert b.voters + {b.leader} + (b.sync + {b.primary}) == members + {name};
    assert b.sync == members - {name};
    assert |members + {name}| == |b.sync| + 1 by { assert members + {name} == b.sync + {name}; }
  }

  ghost predicate Step(a: Settings, b: Settings) {
    ResolverStep(a, b) || PromotionStep(a, b)
  }

  ghost predicate IsRun(run: seq<Settings>) {
    run != [] && forall i :: 0 <= i < |run| - 1 ==> Step(run[i], run[i + 1])
  }

  lemma StepIsSafe(a: Settings, b: Settings)
    requires Safe(a)
    ensures Step(a, b) ==> Safe(b)
  {
    hide Safe;
    if ResolverStep(a, b) {
      var confirmed: int, active: set<Name>, wanted: int, k: nat :| StopsAfter(a, b, confirmed, active, wanted, k);
      RunIsSafe(a, confirmed, active, wanted);
    } else if PromotionStep(a, b) {
      var r: Racer, statuses: seq<Status>, checkLag: bool, former: Option<Name> :|
        && Reads(r, a) && Healthiest(r, statuses, checkLag, former)
        && b == Promote(a, r.name);
      PromotionIsSafe(a, r.name);
    }
  }

  lemma RunPrefix(run: seq<Settings>)
    requires IsRun(run) && |run| > 1
    ensures IsRun(run[..|run| - 1]) && run[..|run| - 1][0] == run[0] && Step(run[|run| - 2], run[|run| - 1])
  {
    hide Step;
  }

  lemma {:induction false} RunsStaySafe(run: seq<Settings>)
    requires IsRun(run) && Safe(run[0])
    ensures forall i :: 0 <= i < |run| ==> Safe(run[i])
  {
    hide Safe, Step;
    var n := |run| - 1;
    if n > 0 {
      RunPrefix(run);
      hide IsRun;
      RunsStaySafe(run[..n]);
      assert Safe(run[..n][n - 1]);
      StepIsSafe(run[n - 1], run[n]);
      forall i | 0 <= i < |run| ensures Safe(run[i]) {
        if i < n { assert run[..n][i] == run[i]; }
      }
    }
  }

  /** No lost commit over whole runs. */
  lemma NoLostCommit(run: seq<Settings>, i: nat, r: Racer, statuses: seq<Status>, checkLag: bool,
      former: Option<Name>, pos: Name -> int, lsn: int)
    requires IsRun(run) && Safe(run[0]) && i < |run|
    requires Reads(r, run[i]) && Truthful(r, statuses, pos) && Acknowledged(run[i], pos, lsn)
    requires Healthiest(r, statuses, checkLag, former) && WinsByVotes(r, statuses)
    ensures r.position >= lsn
  {
    RunsStaySafe(run);
    ElectedHoldsCommits(run[i], r, statuses, checkLag, former, pos, lsn);
  }

  // ---------------------------------------------------------------- the primary's loop

  /** What one round of the loop finds and what befalls it: the observed replication state,
      and the transitions at which the time is up or another node has changed `/sync`. */
  datatype Round = Round(confirmed: nat, active: set<Name>, timeoutAt: nat, outdatedAt: nat, late: bool)

  function Transitions(x: Settings, wanted: int, round: Round): seq<Transition> {
    Resolve(Input(x, round.confirmed, round.active, wanted))
  }

  /** The first transition, from the `j`-th on, that is not carried out. */
  function StopAt(ts: seq<Transition>, round: Round, j: nat): (k: nat)
    requires j <= |ts|
    ensures j <= k <= |ts|
    decreases |ts| - j
  {
    if j == |ts| || j == round.timeoutAt || (ts[j].kind == QuorumKind && j == round.outdatedAt) then j
    else StopAt(ts, round, j + 1)
  }

  function AfterRound(x: Settings, wanted: int, round: Round): Settings {
    var ts := Transitions(x, wanted, round);
    Replay(x, ts[..StopAt(ts, round, 0)])
  }

  /** Only a round that ends with a restart is followed by another one. */
  predicate AsksForMore(x: Settings, wanted: int, round: Round) {
    var ts := Transitions(x, wanted, round);
    ts != [] && StopAt(ts, round, 0) == |ts| && ts[|ts| - 1].kind == RestartKind && !round.late
  }

  function AfterRounds(x: Settings, wanted: int, rounds: seq<Round>): Settings
    decreases |rounds|
  {
    if rounds == [] then x
    else if AsksForMore(x, wanted, rounds[0]) then AfterRounds(AfterRound(x, wanted, rounds[0]), wanted, rounds[1..])
    else AfterRound(x, wanted, rounds[0])
  }

  lemma RoundIsStep(x: Settings, wanted: int, round: Round)
    requires x.primary !in round.active
    ensures ResolverStep(x, AfterRound(x, wanted, round))
  {
    hide Resolve, Replay;
    var ts := Transitions(x, wanted, round);
    assert StopsAfter(x, AfterRound(x, wanted, round), round.confirmed, round.active, wanted, StopAt(ts, round, 0));
  }

  lemma {:induction false} ReplayKeepsPrimary(x: Settings, ts: seq<Transition>)
    ensures Replay(x, ts).primary == x.primary
    decreases ts
  {
    if ts != [] { ReplayKeepsPrimary(Apply(x, ts[0]), ts[1..]); }
  }

  /** However a call of the loop ends, what is stored is safe if it was before. */
  lemma {:induction false} RoundsAreSafe(x: Settings, wanted: int, rounds: seq<Round>)
    requires Safe(x) && forall i :: 0 <= i < |rounds| ==> x.primary !in rounds[i].active
    ensures Safe(AfterRounds(x, wanted, rounds)) && AfterRounds(x, wanted, rounds).primary == x.primary
    decreases |rounds|
  {
    hide Safe, AsksForMore, Transitions;
    if rounds != [] {
      var y := AfterRound(x, wanted, rounds[0]);
      RoundIsStep(x, wanted, rounds[0]);
      StepIsSafe(x, y);
      var ts := Transitions(x, wanted, rounds[0]);
      ReplayKeepsPrimary(x, ts[..StopAt(ts, rounds[0], 0)]);
      RoundsAreSafe(y, wanted, rounds[1..]);
    }
  }

  /** A round that nobody stops, on which the resolver finds a live synced node and does not
      raise. */
  ghost predicate Undisturbed(x: Settings, wanted: int, round: Round) {
    var s, n := Input(x, round.confirmed, round.active, wanted), |Transitions(x, wanted, round)|;
    && Own(s) && Start(s).sync * s.active != {} && !RunRaises(s)
    && round.timeoutAt >= n && round.outdatedAt >= n
  }

  /** An undisturbed round arrives at the target. */
  lemma UndisturbedRoundReachesTarget(x: Settings, wanted: int, round: Round)
    requires Safe(x) && x.primary !in round.active
    ensures Undisturbed(x, wanted, round) ==>
      var y := AfterRound(x, wanted, round);
      && y.leader == y.primary == x.primary
      && y.voters == y.sync == round.active && y.numsync == Min(wanted, |round.active|)
      && y.quorum == LeftQuorum(Start(Input(x, round.confirmed, round.active, wanted))) >= |round.active| - y.numsync
      && (Electable(y) <==> !Overshoots(Settled(Start(Input(x, round.confirmed, round.active, wanted)))))
  {
    hide Safe, Own, RunRaises, Start, Generate, Resolve, Yielded, LeftQuorum, Overshoots, Settled;
    if Undisturbed(x, wanted, round) {
      var s := Input(x, round.confirmed, round.active, wanted);
      var ts := Transitions(x, wanted, round);
      OwnRun(s);
      RunLeavesElectableIff(s);
      RestartIff(s);
      assert |round.active + {x.primary}| == |round.active| + 1;
      RunIsStored(x, round.confirmed, round.active, wanted);
      NeverStops(ts, round, 0);
      assert ts[..|ts|] == ts;
      OwnIsLed(s);
    }
  }

  lemma OwnIsLed(s: State)
    ensures Own(s) ==> s.leader == s.leaderWanted
  {}

  lemma {:induction false} NeverStops(ts: seq<Transition>, round: Round, j: nat)
    requires round.timeoutAt >= |ts| && round.outdatedAt >= |ts| && j <= |ts|
    ensures StopAt(ts, round, j) == |ts|
    decreases |ts| - j
  {
    if j < |ts| { NeverStops(ts, round, j + 1); }
  }

  class Primary {
    var settings: Settings

    /** `_process_quorum_replication`: carries out round after round, and leaves the settings
        safe however it ends. */
    method ProcessQuorumReplication(wanted: int, rounds: seq<Round>)
      requires forall i :: 0 <= i < |rounds| ==> settings.primary !in rounds[i].active
      modifies this
      ensures settings == AfterRounds(old(settings), wanted, rounds)
      ensures Safe(old(settings)) ==> Safe(settings)
    {
      hide Safe, AsksForMore, AfterRound;
      if Safe(settings) { RoundsAreSafe(settings, wanted, rounds); }
      for i := 0 to |rounds|
        invariant AfterRounds(old(settings), wanted, rounds) == AfterRounds(settings, wanted, rounds[i..])
      {
        assert rounds[i..][0] == rounds[i] && rounds[i..][1..] == rounds[i + 1..];
        var more := RunOnce(wanted, rounds[i]);
        if !more { return; }
      }
    }

    /** One round: set up the resolver, carry out its transitions in order. */
    method RunOnce(wanted: int, round: Round) returns (more: bool)
      modifies this
      ensures settings == AfterRound(old(settings), wanted, round)
      ensures more == AsksForMore(old(settings), wanted, round)
    {
      hide Generate, Resolve;
      var resolver := new QR.QuorumStateResolver(
        settings.leader, settings.quorum, settings.voters, settings.numsync, settings.sync,
        round.confirmed, round.active, wanted, settings.primary);
      var status, ts := resolver.Iterate();
      assert ts == Transitions(settings, wanted, round);
      var last := QuorumKind;
      for j := 0 to |ts|
        invariant settings == Replay(old(settings), ts[..j])
        invariant StopAt(ts, round, 0) == StopAt(ts, round, j)
        invariant j > 0 ==> last == ts[j - 1].kind
        invariant j == 0 ==> last == QuorumKind
      {
        var t := ts[j];
        last := t.kind;
        if j == round.timeoutAt || (t.kind == QuorumKind && j == round.outdatedAt) { return false; }
        if t.kind == QuorumKind {
          settings := settings.(leader := t.leader, voters := t.names, quorum := t.num);
        } else if t.kind == SyncKind {
          settings := settings.(sync := t.names, numsync := t.num);
        }
        assert ts[..j + 1] == ts[..j] + [t];
        ReplayExtends(old(settings), ts[..j], t);
      }
      more := last == RestartKind && !round.late;
    }
  }
}
