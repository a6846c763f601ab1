/** The resolver as the program runs it: one object whose fields every generator
    updates, an exception ending the run. Each method is proved to do what the
    function of the same name in `Quorum` says of the object's state. */
module QuorumResolver {
  import opened Names
  import opened Quorum

  datatype Status = Ok | Failed(fault: Fault) {
    predicate IsFailure() { Failed? }
    function PropagateFailure(): Status requires Failed? { this }
  }

  function Ended(s: State, status: Status): Run {
    match status
    case Ok => Done(s)
    case Failed(fault) => Raised(s, fault)
  }

  class QuorumStateResolver {
    var leader: Name
    var quorum: int
    var voters: set<Name>
    var numsync: int
    var sync: set<Name>
    var confirmed: int
    const active: set<Name>
    const wanted: int
    const leaderWanted: Name
    var emitted: seq<Transition>  // what the generators have yielded

    function View(): State
      reads this
    {
      State(leader, quorum, voters, numsync, sync, confirmed, active, wanted, leaderWanted, emitted)
    }

    constructor (leader: Name, quorum: int, voters: set<Name>, numsync: int, sync: set<Name>,
                 confirmed: int, active: set<Name>, wanted: int, leaderWanted: Name)
      ensures View() == State(leader, quorum, voters, Min(numsync, |sync|), sync, confirmed, active, wanted,
          leaderWanted, [])
    {
      this.leader, this.quorum, this.voters := leader, quorum, voters;
      this.numsync := if numsync < |sync| then numsync else |sync|;
      this.sync, this.confirmed := sync, confirmed;
      this.active, this.wanted, this.leaderWanted := active, wanted, leaderWanted;
      emitted := [];
    }

    method Yield(kind: Kind, num: int, names: set<Name>)
      modifies this`emitted
      ensures emitted == old(emitted) + [Transition(kind, leader, num, names)]
    {
      emitted := emitted + [Transition(kind, leader, num, names)];
    }

    method CheckInvariants() returns (status: Status)
      ensures status == if Consistent(View()) then Ok else Failed(QuorumError)
    {
      var voting := voters + {leader};
      var acking := sync + {leaderWanted};
      if voters != {} && !(|voting + acking| <= quorum + numsync + 1) {
        return Failed(QuorumError);
      }
      if !(voting <= acking || acking <= voting) {
        return Failed(QuorumError);
      }
      return Ok;
    }

    /** The common end of the update generators: check, then yield the new value. */
    method Publish(kind: Kind) returns (status: Status)
      requires kind != RestartKind
      modifies this`emitted
      ensures Ended(View(), status) == Checked(old(View()), kind)
    {
      status := CheckInvariants();
      if status.Failed? { return; }
      if kind == SyncKind {
        Yield(SyncKind, numsync, sync);
      } else {
        Yield(QuorumKind, quorum, voters);
      }
    }

    method UpdateQuorum(newQuorum: int, newVoters: set<Name>, adjust: bool) returns (status: Status)
      modifies this
      ensures Ended(View(), status) == QuorumUpdate(old(View()), newQuorum, newVoters, adjust)
    {
      hide Consistent, Checked;
      if newQuorum < 0 { return Failed(QuorumError); }
      if newQuorum > 0 && newQuorum >= |newVoters| { return Failed(QuorumError); }
      var q, v := newQuorum, newVoters;
      if confirmed == 0 && voters == {} {
        q, v := 0, {};
      } else if adjust {
        q := q + Max(numsync - confirmed, 0);
      }
      if q == quorum && v == voters {
        if voters != {} { return Ok; }
        Yield(RestartKind, quorum, voters);
        assert View() == Emit(old(View()), RestartKind);
      }
      quorum, voters := q, v;
      status := Publish(QuorumKind);
    }

    method UpdateLeader(newQuorum: int, newVoters: set<Name>, newLeader: Name) returns (status: Status)
      modifies this
      ensures Ended(View(), status) == LeaderUpdate(old(View()), newQuorum, newVoters, newLeader)
    {
      hide Consistent, Checked;
      if newQuorum < 0 { return Failed(QuorumError); }
      if newQuorum > 0 && newQuorum >= |newVoters| { return Failed(QuorumError); }
      var oldLeader := leader;
      leader := newLeader;
      if leader == oldLeader && newQuorum == quorum && newVoters == voters {
        if voters != {} { return Ok; }
        Yield(RestartKind, quorum, voters);
        assert View() == Emit(old(View()).(leader := newLeader), RestartKind);
      }
      quorum, voters := newQuorum, newVoters;
      status := Publish(QuorumKind);
    }

    method UpdateSync(newNumsync: int, newSync: set<Name>) returns (status: Status)
      modifies this
      ensures Ended(View(), status) == SyncUpdate(old(View()), newNumsync, newSync)
    {
      if newNumsync < 0 { return Failed(QuorumError); }
      if newNumsync > |newSync| { return Failed(QuorumError); }
      numsync, sync := newNumsync, newSync;
      status := Publish(SyncKind);
    }

    method DropLostVoters() returns (status: Status)
      modifies this
      ensures Ended(View(), status) == ShrinkVoters(old(View()))
    {
      hide QuorumUpdate, SyncUpdate;
      var gone := voters - (sync + active);
      if gone != {} {
        :- UpdateQuorum(|voters| - |gone| - numsync, voters - gone, sync - active == {});
      }
      var novel := (voters * active) - sync;
      if novel != {} {
        :- UpdateSync(numsync, sync + novel);
      }
      return Ok;
    }

    method DropDeadNodes() returns (status: Status)
      modifies this
      ensures Ended(View(), status) == DropDead(old(View()))
    {
      hide SyncUpdate;
      var dead := sync - active;
      var alive := sync - dead;
      if dead != {} && alive != {} && (voters == {} || alive * voters != {}) {
        :- UpdateSync(Min(numsync, |sync| - |dead|), alive);
      }
      return Ok;
    }

    method AdmitSyncedNodes() returns (status: Status)
      modifies this
      ensures Ended(View(), status) == GrowVoters(old(View()))
    {
      hide QuorumUpdate, SyncUpdate, DropDead;
      :- DropDeadNodes();
      ghost var s1 := View();
      var joined := (sync - voters) * active;
      if joined != {} {
        var v := voters + joined;
        :- UpdateQuorum(|v| - numsync, v, true);
      }
      assert Done(View()) == AdmitActive(s1);
      var rest := sync - voters;
      if rest != {} {
        :- UpdateSync(Min(numsync, |sync| - |rest|), sync - rest);
      }
      return Ok;
    }

    method HandleNonSteadyCases() returns (status: Status)
      modifies this
      ensures Ended(View(), status) == HandleNonSteady(old(View()))
    {
      hide QuorumUpdate, SyncUpdate, ShrinkVoters, GrowVoters;
      if sync < voters {
        :- DropLostVoters();
      } else if voters < sync {
        :- AdmitSyncedNodes();
      }
      if voters != sync { return Failed(AssertionError); }
      var margin := quorum + Min(numsync, confirmed) - |voters + sync|;
      if margin > 0 {
        if numsync > wanted {
          :- UpdateSync(Max(wanted, |voters| - quorum), sync);
        } else {
          :- UpdateQuorum(|sync| - numsync, voters, true);
        }
      } else {
        margin := quorum + numsync - |voters + sync|;
        if numsync == wanted && margin > 0 && numsync > confirmed {
          :- UpdateQuorum(|sync| - numsync, voters, true);
        }
      }
      return Ok;
    }

    method GiveUpRequired(gone: set<Name>) returns (status: Status)
      modifies this
      ensures Ended(View(), status) == RemoveRequired(old(View()), gone)
    {
      hide QuorumUpdate, SyncUpdate;
      if gone != {} {
        if quorum != 0 { return Failed(AssertionError); }
        var n := numsync - |gone|;
        var s := sync - gone;
        var v := voters - gone;
        var decrease := n - Min(wanted, |s|);
        var q := if decrease != 0 then Min(decrease, |v| - 1) else 0;
        :- UpdateQuorum(q, v, false);
        :- UpdateSync(n, s);
      }
      return Ok;
    }

    method LeaveOutSpare(gone: set<Name>) returns (status: Status)
      modifies this
      ensures Ended(View(), status) == RemoveSpare(old(View()), gone)
    {
      hide QuorumUpdate, SyncUpdate, LastOf;
      if quorum != 0 {
        var remove := LastOf(gone, quorum);
        var s := sync - remove;
        var n := Min(if wanted > numsync then wanted else numsync, |s|);
        :- UpdateSync(n, s);
        var v := voters - remove;
        :- UpdateQuorum(|v| - numsync, v, gone * sync == {});
      }
      return Ok;
    }

    method RemoveGoneNodes() returns (status: Status)
      modifies this
      ensures Ended(View(), status) == RemoveGone(old(View()))
    {
      hide QuorumUpdate, SyncUpdate, RemoveSpare, RemoveRequired;
      var gone := sync - active;
      if gone != {} && sync == gone {
        :- UpdateQuorum(0, {}, false);
        :- UpdateSync(0, {});
      } else if gone != {} {
        :- LeaveOutSpare(gone);
        gone := gone * sync;
        :- GiveUpRequired(gone);
      }
      return Ok;
    }

    method AddNewNodes() returns (status: Status)
      modifies this
      ensures Ended(View(), status) == AddNew(old(View()))
    {
      hide AddToReachFactor, AddRest;
      var novel := active - sync;
      if novel != {} {
        var goal := Min(wanted, |sync + novel|);
        :- ReachFactor(novel, goal);
        novel := novel - sync;
        if novel != {} { :- AddOthers(novel, goal); }
      }
      return Ok;
    }

    method ReachFactor(novel: set<Name>, goal: int) returns (status: Status)
      modifies this
      ensures Ended(View(), status) == AddToReachFactor(old(View()), novel, goal)
    {
      hide QuorumUpdate, SyncUpdate, FirstOf;
      var increase := goal - numsync;
      if increase > 0 {
        var add := novel;
        if sync != {} {
          add := FirstOf(novel, increase);
          increase := |add|;
        }
        :- UpdateSync(numsync + increase, sync + add);
        var v := voters + add;
        :- UpdateQuorum(|v| - goal, v, true);
      }
      return Ok;
    }

    method AddOthers(novel: set<Name>, goal: int) returns (status: Status)
      modifies this
      ensures Ended(View(), status) == AddRest(old(View()), novel, goal)
    {
      hide QuorumUpdate, SyncUpdate;
      var v := voters + novel;
      :- UpdateQuorum(|v| - goal, v, goal > confirmed);
      :- UpdateSync(goal, sync + novel);
      return Ok;
    }

    method HandleReplicationFactorChange() returns (status: Status)
      modifies this
      ensures Ended(View(), status) == HandleFactorChange(old(View()))
    {
      hide QuorumUpdate, SyncUpdate;
      var increase := Min(wanted, |sync|) - numsync;
      if increase > 0 {
        :- UpdateSync(numsync + increase, sync);
        :- UpdateQuorum(|voters| - numsync, voters, true);
      } else if increase < 0 {
        if quorum - increase < |voters| {
          :- UpdateQuorum(|voters| - numsync - increase, voters, wanted > confirmed);
        }
        :- UpdateSync(numsync + increase, sync);
      }
      return Ok;
    }

    /** The `try` block: what it raises is caught by the caller. */
    method EnterState() returns (status: Status)
      modifies this
      ensures Ended(View(), status) == Enter(old(View()))
    {
      hide LeaderUpdate, SyncUpdate;
      if leaderWanted != leader {
        var v := (voters - {leaderWanted}) + {leader};
        if sync == {} {
          :- UpdateSync(|v| - quorum, v);
        }
        :- UpdateLeader(quorum, v, leaderWanted);
      } else {
        :- CheckInvariants();
      }
      return Ok;
    }

    method GenerateTransitions() returns (status: Status)
      modifies this
      ensures Ended(View(), status) == Generate(old(View()))
    {
      hide Enter, QuorumUpdate, HandleNonSteady, RemoveGone, AddNew, HandleFactorChange;
      var failover := leaderWanted != leader;
      var entered := EnterState();
      if failover && entered.Ok? && sync * active == {} {
        return Ok;
      }
      if entered == Failed(QuorumError) {
        :- UpdateQuorum(|sync| - numsync, sync, true);
      } else {
        :- entered;
      }
      if leader != leaderWanted { return Failed(AssertionError); }
      if confirmed == 0 && sync * active != {} {
        confirmed := Min(|sync * active|, |voters| - quorum);
      }
      :- HandleNonSteadyCases();
      :- RemoveGoneNodes();
      :- AddNewNodes();
      :- HandleReplicationFactorChange();
      return Ok;
    }

    /** `__iter__`: the list is collected first, so an exception yields nothing. */
    method Iterate() returns (status: Status, ts: seq<Transition>)
      requires emitted == []
      modifies this
      ensures Ended(View(), status) == Generate(old(View()))
      ensures ts == Resolve(old(View()))
    {
      hide Generate;
      ts := [];
      status := GenerateTransitions();
      if status.Ok? {
        ts := MergedTransitions(emitted);
      }
    }
  }

  method MergedTransitions(transitions: seq<Transition>) returns (ts: seq<Transition>)
    ensures ts == Yielded(transitions)
  {
    hide Yielded;
    ts := [];
    assert transitions[0..] == transitions;
    for i := 0 to |transitions|
      invariant Yielded(transitions) == ts + Yielded(transitions[i..])
    {
      YieldedFrom(transitions, i);
      if i + 1 < |transitions| && transitions[i].kind == transitions[i + 1].kind {
        continue;
      }
      ts := ts + [transitions[i]];
      if transitions[i].kind == RestartKind { return; }
    }
    assert transitions[|transitions|..] == [];
    NothingYielded();
  }

  lemma NothingYielded()
    ensures Yielded([]) == []
  {}

  lemma YieldedFrom(ts: seq<Transition>, i: nat)
    requires i < |ts|
    ensures Yielded(ts[i..]) ==
            if i + 1 < |ts| && ts[i].kind == ts[i + 1].kind then Yielded(ts[i + 1..])
            else if ts[i].kind == RestartKind then [ts[i]]
            else [ts[i]] + Yielded(ts[i + 1..])
  {
    assert ts[i..][1..] == ts[i + 1..];
    assert i + 1 < |ts| ==> ts[i..][1] == ts[i + 1];
  }
}
