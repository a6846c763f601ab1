/** Which round of the loop is followed by another one, and what the second one is for: the
    first syncs the nodes, and once one of them has caught up the second gives them their votes. */
module QuorumRounds {
  import opened Names
  import opened Quorum
  import opened QuorumSafety
  import opened QuorumSteps
  import opened QuorumRuns
  import opened QuorumConvergence
  import opened QuorumRestarts
  import opened QuorumCommit

  /** A transition is given up when the time is up, or when it would be stored in a `/sync` that
      another node has changed. */
  predicate GivenUp(ts: seq<Transition>, round: Round, j: nat)
    requires j < |ts|
  {
    j == round.timeoutAt || (ts[j].kind == QuorumKind && j == round.outdatedAt)
  }

  ghost predicate AllCarriedOut(ts: seq<Transition>, round: Round) {
    forall j :: 0 <= j < |ts| ==> !GivenUp(ts, round, j)
  }

  /** The transition at which a round stops is the first that is given up. */
  lemma {:induction false} StopsAtFirst(ts: seq<Transition>, round: Round, j: nat)
    requires j <= |ts|
    ensures var k := StopAt(ts, round, j);
            && (forall i :: j <= i < k ==> !GivenUp(ts, round, i))
            && (k < |ts| ==> GivenUp(ts, round, k))
    decreases |ts| - j
  {
    if StopAt(ts, round, j) != j { StopsAtFirst(ts, round, j + 1); }
  }

  lemma {:induction false} RestartIsLast(ts: seq<Transition>)
    ensures NoRestart(ts) <==> Yielded(ts) == [] || Yielded(ts)[|Yielded(ts)| - 1].kind != RestartKind
    decreases ts
  {
    if ts != [] {
      RestartIsLast(ts[1..]);
      assert ts == [ts[0]] + ts[1..];
      var rest := Yielded(ts[1..]);
      if |ts| > 1 { SomethingIsYielded(ts[1..]); }
    }
  }

  lemma {:induction false} SomethingIsYielded(ts: seq<Transition>)
    requires ts != []
    ensures Yielded(ts) != []
    decreases ts
  {
    if |ts| > 1 { SomethingIsYielded(ts[1..]); }
  }

  /** A round is followed by another one exactly if its run asks for a restart, all that was
      yielded is carried out, and there is time left. */
  lemma GoesOnIff(x: Settings, wanted: int, rounds: seq<Round>)
    requires rounds != []
    ensures var r := rounds[0]; var run := Generate(Input(x, r.confirmed, r.active, wanted));
            AfterRounds(x, wanted, rounds) ==
              if run.Done? && !NoRestart(run.state.emitted) && AllCarriedOut(Yielded(run.state.emitted), r) && !r.late
              then AfterRounds(AfterRound(x, wanted, r), wanted, rounds[1..])
              else AfterRound(x, wanted, r)
  {
    hide Generate, Yielded;
    var r := rounds[0];
    var run := Generate(Input(x, r.confirmed, r.active, wanted));
    StopsAtFirst(Transitions(x, wanted, r), r, 0);
    if run.Done? { RestartIsLast(run.state.emitted); }
  }

  /** The same for a leader that holds `/sync`, as a condition on what it finds. */
  lemma OwnRoundGoesOnIff(x: Settings, wanted: int, rounds: seq<Round>)
    requires rounds != [] && Own(Input(x, rounds[0].confirmed, rounds[0].active, wanted))
    ensures var r := rounds[0]; var s := Input(x, r.confirmed, r.active, wanted);
            AfterRounds(x, wanted, rounds) ==
              if RunRaises(s) then x
              else if Start(s).sync * r.active == {} && r.active != {} && AllCarriedOut(Resolve(s), r) && !r.late
              then AfterRounds(AfterRound(x, wanted, r), wanted, rounds[1..])
              else AfterRound(x, wanted, r)
  {
    hide Generate, Yielded, RunRaises, Start, Own, AllCarriedOut;
    var r := rounds[0];
    var s := Input(x, r.confirmed, r.active, wanted);
    GoesOnIff(x, wanted, rounds);
    OwnRun(s);
    if RunRaises(s) { assert AfterRound(x, wanted, r) == x; } else { RestartIff(s); }
  }

  // ---------------------------------------------------------------- starting from nothing

  /** What the first round stores: the nodes are synced, and nobody votes yet. */
  lemma FirstRound(x: Settings, wanted: int, round: Round)
    requires Safe(x) && x.leader == x.primary && x.quorum == 0 && x.voters == {} && x.numsync == 0 && x.sync == {}
    requires round.active != {} && x.primary !in round.active && 1 <= wanted && round.confirmed == 0
    ensures var s := Input(x, 0, round.active, wanted);
            && Own(s) && !RunRaises(s) && Start(s).sync * s.active == {}
            && Resolve(s) == [Transition(SyncKind, x.leader, Min(wanted, |round.active|), round.active),
                              Transition(RestartKind, x.leader, 0, {})]
  {
    var s := Input(x, 0, round.active, wanted);
    assert s.sync * s.active == {};
    StartsWithAdding(s);
    AddFromNothing(s);
    hide AddNew, Generate, Point, Own, RunRaises, Start;
    var t := AddNew(s).state;
    AddedIsFinal(t);
    var es := t.emitted;
    assert es == [es[0], es[1], es[2]];
    ThreeAreYielded(es);
  }

  lemma StartsWithAdding(s: State)
    requires Led(s) && s.voters == {} && s.sync == {} && s.quorum == 0 && s.numsync == 0 && s.confirmed == 0 &&
        1 <= s.wanted
    ensures Point(s) && Own(s) && !RunRaises(s) && Start(s) == s
    ensures Generate(s) == match AddNew(s)
                           case Done(t) => HandleFactorChange(t)
                           case Raised(_, _) => AddNew(s)
  {
    assert s.sync * s.active == {};
    assert Point(s);
    PointIsConsistent(s);
    NothingToRemove(s);
    hide AddNew, RemoveGone, HandleFactorChange, Overlaps, Nested;
  }

  lemma AddedIsFinal(t: State)
    requires t.sync == t.active && t.numsync == Min(t.wanted, |t.active|)
    ensures HandleFactorChange(t) == Done(t)
  {
    hide QuorumUpdate, SyncUpdate;
  }

  lemma ThreeAreYielded(ts: seq<Transition>)
    requires |ts| == 3 && ts[0].kind == SyncKind && ts[1].kind == RestartKind && ts[2].kind == QuorumKind
    ensures Yielded(ts) == [ts[0], ts[1]]
  {
    assert ts[1..] == [ts[1], ts[2]];
    assert Yielded(ts[1..]) == [ts[1]];
  }

  /** Neither is the time up nor has another node changed `/sync` before the round is over. */
  predicate NothingStops(x: Settings, wanted: int, round: Round) {
    round.timeoutAt >= |Transitions(x, wanted, round)| && round.outdatedAt >= |Transitions(x, wanted, round)|
  }

  /** A start from nothing within one call of the loop: the first round is followed by the
      second, and if that finds a node caught up, all nodes have their votes in the end. */
  lemma StartWithinOneCall(x: Settings, wanted: int, rounds: seq<Round>)
    requires Safe(x) && x.leader == x.primary && x.quorum == 0 && x.voters == {} && x.numsync == 0 && x.sync == {}
    requires |rounds| >= 2 && 1 <= wanted && x.primary !in rounds[0].active && rounds[0].active != {}
    requires rounds[0].confirmed == 0 && rounds[0].timeoutAt >= 2 && !rounds[0].late
    requires rounds[1].active == rounds[0].active && 1 <= rounds[1].confirmed <= |rounds[0].active|
    ensures var nodes := rounds[0].active; var y := AfterRounds(x, wanted, rounds);
            NothingStops(x.(numsync := Min(wanted, |nodes|), sync := nodes), wanted, rounds[1]) ==>
            && y.leader == y.primary == x.primary && y.voters == y.sync == nodes
            && y.numsync == Min(wanted, |nodes|) && y.quorum + y.numsync >= |nodes|
  {
    var nodes := rounds[0].active;
    var x1 := x.(numsync := Min(wanted, |nodes|), sync := nodes);
    var s := Input(x, 0, nodes, wanted);
    FirstRound(x, wanted, rounds[0]);
    var ts := Resolve(s);
    OwnRoundGoesOnIff(x, wanted, rounds);
    assert AllCarriedOut(ts, rounds[0]);
    StopsAtFirst(ts, rounds[0], 0);
    assert ts[..2] == ts;
    TwoReplayed(x, ts);
    assert AfterRound(x, wanted, rounds[0]) == x1;
    SecondRound(x1, wanted, rounds[1..]);
  }

  lemma TwoReplayed(x: Settings, ts: seq<Transition>)
    requires |ts| == 2
    ensures Replay(x, ts) == Apply(Apply(x, ts[0]), ts[1])
  {
    assert ts[1..][1..] == [];
    assert Replay(Apply(x, ts[0]), ts[1..]) == Apply(Apply(x, ts[0]), ts[1]);
  }

  lemma SecondRound(x: Settings, wanted: int, rounds: seq<Round>)
    requires rounds != [] && x.leader == x.primary && x.quorum == 0 && x.voters == {} && 1 <= wanted
    requires var nodes := rounds[0].active;
             && x.sync == nodes != {} && x.numsync == Min(wanted, |nodes|) && x.primary !in nodes
             && 1 <= rounds[0].confirmed <= |nodes|
    ensures var nodes := rounds[0].active; var y := AfterRounds(x, wanted, rounds);
            NothingStops(x, wanted, rounds[0]) ==>
            && y.leader == y.primary == x.primary && y.voters == y.sync == nodes
            && y.numsync == Min(wanted, |nodes|) && y.quorum + y.numsync >= |nodes|
  {
    var round := rounds[0];
    var s := Input(x, round.confirmed, round.active, wanted);
    assert s.sync * s.active == s.sync;
    assert Own(s) && Bootstrapping(s) && Safe(x);
    BootstrapStart(s);
    assert Start(s) == AlignedState(s);
    assert !RunRaises(s);
    OwnRoundGoesOnIff(x, wanted, rounds);
    UndisturbedRoundReachesTarget(x, wanted, round);
  }
}
