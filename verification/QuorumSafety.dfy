/** What the caller of the resolver stores, transition by transition: merging preserves
    its meaning, and every state it can stop at is safe. */
module QuorumSafety {
  import opened Names
  import opened Quorum

  /** The two stored settings: the `/sync` key, and `synchronous_standby_names` of the node
      that runs as the primary. */
  datatype Settings = Settings(primary: Name, leader: Name, quorum: int, voters: set<Name>, numsync: int,
    sync: set<Name>)

  function Apply(x: Settings, t: Transition): Settings {
    match t.kind
    case SyncKind => x.(numsync := t.num, sync := t.names)
    case QuorumKind => x.(leader := t.leader, quorum := t.num, voters := t.names)
    case RestartKind => x
  }

  function Replay(x: Settings, ts: seq<Transition>): Settings
    decreases ts
  {
    if ts == [] then x else Replay(Apply(x, ts[0]), ts[1..])
  }

  lemma {:induction false} ReplayExtends(x: Settings, ts: seq<Transition>, t: Transition)
    ensures Replay(x, ts + [t]) == Apply(Replay(x, ts), t)
    decreases ts
  {
    if ts != [] {
      assert (ts + [t])[1..] == ts[1..] + [t];
      ReplayExtends(Apply(x, ts[0]), ts[1..], t);
    }
  }

  // ---------------------------------------------------------------- merging

  /** The part of the collected list before its first restart. */
  function BeforeRestart(ts: seq<Transition>): seq<Transition> {
    if ts == [] || ts[0].kind == RestartKind then [] else [ts[0]] + BeforeRestart(ts[1..])
  }

  lemma LaterWins(x: Settings, t: Transition, u: Transition)
    requires t.kind == u.kind
    ensures Apply(Apply(x, t), u) == Apply(x, u)
  {
  }

  /** Replaying what is yielded reaches the same settings as replaying the whole list up to
      its first restart. */
  lemma {:induction false} MergingPreservesMeaning(x: Settings, ts: seq<Transition>)
    ensures Replay(x, Yielded(ts)) == Replay(x, BeforeRestart(ts))
    decreases ts
  {
    if ts != [] {
      if |ts| > 1 && ts[0].kind == ts[1].kind {
        MergingPreservesMeaning(x, ts[1..]);
        if ts[0].kind != RestartKind {
          var rest := BeforeRestart(ts[1..]);
          assert rest[0] == ts[1];
          LaterWins(x, ts[0], ts[1]);
          assert Replay(x, rest) == Replay(Apply(x, ts[1]), rest[1..]);
          assert BeforeRestart(ts)[1..] == rest;
        }
      } else if ts[0].kind != RestartKind {
        MergingPreservesMeaning(Apply(x, ts[0]), ts[1..]);
      }
    }
  }

  /** Every state the caller can be left in by stopping early is one that the whole list
      passes through before its first restart. */
  lemma {:induction false} StoppingEarlyIsSeen(x: Settings, ts: seq<Transition>, k: nat) returns (j: nat)
    requires k <= |Yielded(ts)|
    ensures j <= |BeforeRestart(ts)| <= |ts| && BeforeRestart(ts) == ts[..|BeforeRestart(ts)|]
    ensures Replay(x, Yielded(ts)[..k]) == Replay(x, ts[..j])
    decreases ts
  {
    BeforeRestartIsPrefix(ts);
    if k == 0 || ts == [] {
      j := 0;
    } else if |ts| > 1 && ts[0].kind == ts[1].kind {
      var i := StoppingEarlyIsSeen(x, ts[1..], k);
      if ts[0].kind == RestartKind {
        j := 0;
        assert i == 0;
      } else if i == 0 {
        j := 0;
      } else {
        j := i + 1;
        LaterWins(x, ts[0], ts[1]);
        assert ts[..j][1..] == ts[1..][..i];
        assert ts[1..][..i][0] == ts[1];
      }
    } else if ts[0].kind == RestartKind {
      j := 0;
    } else {
      var i := StoppingEarlyIsSeen(Apply(x, ts[0]), ts[1..], k - 1);
      j := i + 1;
      assert ts[..j][1..] == ts[1..][..i];
      assert Yielded(ts)[..k][1..] == Yielded(ts[1..])[..k - 1];
    }
  }

  lemma {:induction false} BeforeRestartIsPrefix(ts: seq<Transition>)
    ensures BeforeRestart(ts) <= ts
  {
    if ts != [] && ts[0].kind != RestartKind { BeforeRestartIsPrefix(ts[1..]); }
  }

  // ---------------------------------------------------------------- safety

  /** Any `quorum + 1` of leader and voters meet the primary and any `numsync` of its synced
      nodes; with no voters, the primary itself is the one to be asked. A negative `numsync`
      asks for no node, and then so large a quorum is required that nobody has the votes. */
  predicate Safe(x: Settings) {
    && 0 <= x.quorum && x.numsync <= |x.sync| && x.primary !in x.sync
    && (|x.voters + {x.leader} + (x.sync + {x.primary})| <= x.quorum + x.numsync + 1
        || (x.voters == {} && x.leader == x.primary))
  }

  /** More members of `/sync` than the votes of which a candidate may do without. */
  predicate Electable(x: Settings) {
    x.quorum < |x.voters + {x.leader}|
  }

  function Stored(s: State): Settings {
    Settings(s.leaderWanted, s.leader, s.quorum, s.voters, s.numsync, s.sync)
  }

  /** The fields are what replaying the yielded transitions stores, and all the settings
      passed through on the way are safe. */
  predicate Tracks(x: Settings, s: State) {
    && Stored(s) == Replay(x, s.emitted)
    && 0 <= s.quorum && s.numsync <= |s.sync| && s.leaderWanted !in s.sync + s.active
    && forall j :: 0 <= j <= |s.emitted| ==> Safe(Replay(x, s.emitted[..j]))
  }

  lemma CheckedIsSafe(s: State)
    requires Consistent(s) && 0 <= s.quorum && s.numsync <= |s.sync| && s.leaderWanted !in s.sync
    requires s.voters == {} ==> s.leader == s.leaderWanted
    ensures Safe(Stored(s))
  {
  }

  /** Yielding a state that is safe. */
  lemma EmitTracks(x: Settings, s: State, s': State, kind: Kind)
    requires Tracks(x, s) && s'.emitted == s.emitted && s'.leaderWanted == s.leaderWanted
    requires kind == SyncKind ==> Stored(s') == Stored(s).(numsync := s'.numsync, sync := s'.sync)
    requires s'.active == s.active
    requires kind == QuorumKind ==> s'.numsync == s.numsync && s'.sync == s.sync
    requires kind == RestartKind ==> s' == s
    requires Safe(Stored(s'))
    ensures Tracks(x, Emit(s', kind))
  {
    var t := Emit(s', kind);
    ReplayExtends(x, s.emitted, t.emitted[|s.emitted|]);
    assert Stored(t) == Replay(x, t.emitted);
    forall j | 0 <= j <= |t.emitted| ensures Safe(Replay(x, t.emitted[..j])) {
      if j <= |s.emitted| { assert t.emitted[..j] == s.emitted[..j]; }
      else { assert t.emitted[..j] == t.emitted; }
    }
  }

  lemma QuorumUpdateTracks(x: Settings, s: State, quorum: int, voters: set<Name>, adjust: bool)
    requires OwnTracks(x, s)
    ensures KeepsTrack(x, QuorumUpdate(s, quorum, voters, adjust))
    ensures var r := QuorumUpdate(s, quorum, voters, adjust);
            r.Done? ==> r.state.sync == s.sync && r.state.active == s.active && r.state.leaderWanted == s.leaderWanted
  {
    hide Consistent;
    var r := QuorumUpdate(s, quorum, voters, adjust);
    if r.Done? && r.state != s {
      var hinted := if r.state.quorum == s.quorum && r.state.voters == s.voters then Emit(s, RestartKind) else s;
      if hinted != s {
        assert s.emitted[..|s.emitted|] == s.emitted;
        EmitTracks(x, s, s, RestartKind);
      }
      var t := hinted.(quorum := r.state.quorum, voters := r.state.voters);
      CheckedIsSafe(t);
      EmitTracks(x, hinted, t, QuorumKind);
    }
  }

  lemma SyncUpdateTracks(x: Settings, s: State, numsync: int, sync: set<Name>)
    requires Tracks(x, s) && s.leaderWanted !in sync
    requires s.leader == s.leaderWanted || s.voters != {} || (sync == {s.leader} && s.quorum + numsync >= 1)
    ensures var r := SyncUpdate(s, numsync, sync);
            r.Done? ==>
              && Tracks(x, r.state) && r.state.sync == sync && r.state.active == s.active
              && r.state.leader == s.leader && r.state.leaderWanted == s.leaderWanted
              && r.state.voters == s.voters && r.state.quorum == s.quorum
  {
    hide Consistent;
    if SyncUpdate(s, numsync, sync).Done? {
      var t := s.(numsync := numsync, sync := sync);
      if s.leader == s.leaderWanted || s.voters != {} {
        CheckedIsSafe(t);
      } else {
        assert t.voters + {t.leader} + (t.sync + {t.leaderWanted}) == {t.leader, t.leaderWanted};
      }
      EmitTracks(x, s, t, SyncKind);
    }
  }

  /** Tracked, with the primary named in `/sync` and nobody's standby. */
  predicate OwnTracks(x: Settings, s: State) {
    Tracks(x, s) && s.leader == s.leaderWanted && s.leaderWanted !in s.sync + s.active
  }

  predicate KeepsTrack(x: Settings, r: Run) {
    r.Done? ==> OwnTracks(x, r.state)
  }

  lemma AlignTracks(x: Settings, s: State)
    requires OwnTracks(x, s)
    ensures KeepsTrack(x, Align(s))
  {
    hide Tracks, QuorumUpdate, SyncUpdate;
    if s.sync < s.voters {
      var gone := s.voters - (s.sync + s.active);
      QuorumUpdateTracks(x, s, |s.voters| - |gone| - s.numsync, s.voters - gone, s.sync - s.active == {});
      var r := if gone != {} then QuorumUpdate(s, |s.voters| - |gone| - s.numsync, s.voters - gone,
          s.sync - s.active == {})
               else Done(s);
      if r.Done? {
        var s1 := r.state;
        SyncUpdateTracks(x, s1, s1.numsync, s1.sync + ((s1.voters * s1.active) - s1.sync));
      }
    } else if s.voters < s.sync {
      GrowVotersTracks(x, s);
    }
  }

  lemma DropDeadTracks(x: Settings, s: State)
    requires OwnTracks(x, s)
    ensures KeepsTrack(x, DropDead(s))
  {
    hide Tracks, SyncUpdate;
    SyncUpdateTracks(x, s, Min(s.numsync, |s.sync| - |s.sync - s.active|), s.sync - (s.sync - s.active));
  }

  lemma AdmitActiveTracks(x: Settings, s: State)
    requires OwnTracks(x, s)
    ensures KeepsTrack(x, AdmitActive(s))
  {
    hide Tracks, QuorumUpdate;
    var voters := s.voters + ((s.sync - s.voters) * s.active);
    QuorumUpdateTracks(x, s, |voters| - s.numsync, voters, true);
  }

  lemma DropUnvotedTracks(x: Settings, s: State)
    requires OwnTracks(x, s)
    ensures KeepsTrack(x, DropUnvoted(s))
  {
    hide Tracks, SyncUpdate;
    var rest := s.sync - s.voters;
    SyncUpdateTracks(x, s, Min(s.numsync, |s.sync| - |rest|), s.sync - rest);
  }

  lemma GrowVotersTracks(x: Settings, s: State)
    requires OwnTracks(x, s)
    ensures KeepsTrack(x, GrowVoters(s))
  {
    hide OwnTracks, DropDead, AdmitActive, DropUnvoted;
    DropDeadTracks(x, s);
    if DropDead(s).Done? {
      var s1 := DropDead(s).state;
      AdmitActiveTracks(x, s1);
      if AdmitActive(s1).Done? { DropUnvotedTracks(x, AdmitActive(s1).state); }
    }
  }

  lemma SettleMarginTracks(x: Settings, s: State)
    requires OwnTracks(x, s)
    ensures KeepsTrack(x, SettleMargin(s))
  {
    hide Tracks, QuorumUpdate, SyncUpdate;
    SyncUpdateTracks(x, s, Max(s.wanted, |s.voters| - s.quorum), s.sync);
    QuorumUpdateTracks(x, s, |s.sync| - s.numsync, s.voters, true);
  }

  lemma RemoveRequiredTracks(x: Settings, s: State, gone: set<Name>)
    requires OwnTracks(x, s)
    ensures KeepsTrack(x, RemoveRequired(s, gone))
  {
    hide Tracks, QuorumUpdate, SyncUpdate;
    if RemoveRequired(s, gone).Done? && gone != {} {
      var numsync := s.numsync - |gone|;
      var sync, voters := s.sync - gone, s.voters - gone;
      var decrease := numsync - Min(s.wanted, |sync|);
      var quorum := if decrease != 0 then Min(decrease, |voters| - 1) else 0;
      QuorumUpdateTracks(x, s, quorum, voters, false);
      SyncUpdateTracks(x, QuorumUpdate(s, quorum, voters, false).state, numsync, sync);
    }
  }

  lemma RemoveGoneTracks(x: Settings, s: State)
    requires OwnTracks(x, s)
    ensures KeepsTrack(x, RemoveGone(s))
  {
    hide Tracks, QuorumUpdate, SyncUpdate, LastOf, RemoveRequired;
    var gone := s.sync - s.active;
    if RemoveGone(s).Done? && gone != {} {
      if s.sync == gone {
        QuorumUpdateTracks(x, s, 0, {}, false);
        SyncUpdateTracks(x, QuorumUpdate(s, 0, {}, false).state, 0, {});
      } else {
        var s1 := RemoveSpare(s, gone).state;
        if s.quorum != 0 {
          var remove := LastOf(gone, s.quorum);
          var sync := s.sync - remove;
          var numsync := Min(if s.wanted > s.numsync then s.wanted else s.numsync, |sync|);
          SyncUpdateTracks(x, s, numsync, sync);
          var t := SyncUpdate(s, numsync, sync).state;
          QuorumUpdateTracks(x, t, |t.voters - remove| - t.numsync, t.voters - remove, gone * t.sync == {});
        }
        RemoveRequiredTracks(x, s1, gone * s1.sync);
      }
    }
  }

  lemma AddToReachFactorTracks(x: Settings, s: State, novel: set<Name>, wanted: int)
    requires OwnTracks(x, s) && novel <= s.active
    ensures KeepsTrack(x, AddToReachFactor(s, novel, wanted))
    ensures var r := AddToReachFactor(s, novel, wanted); r.Done? ==> r.state.active == s.active
  {
    hide Tracks, QuorumUpdate, SyncUpdate, FirstOf;
    var increase := wanted - s.numsync;
    if increase > 0 {
      FirstOfIsSmallest(novel, increase);
      var add := if s.sync != {} then FirstOf(novel, increase) else novel;
      var step := if s.sync != {} then |add| else increase;
      SyncUpdateTracks(x, s, s.numsync + step, s.sync + add);
      var r := SyncUpdate(s, s.numsync + step, s.sync + add);
      if r.Done? {
        QuorumUpdateTracks(x, r.state, |r.state.voters + add| - wanted, r.state.voters + add, true);
      }
    }
  }

  lemma AddNewTracks(x: Settings, s: State)
    requires OwnTracks(x, s)
    ensures KeepsTrack(x, AddNew(s))
  {
    hide Tracks, QuorumUpdate, SyncUpdate, FirstOf, AddToReachFactor;
    var novel := s.active - s.sync;
    if AddNew(s).Done? && novel != {} {
      var wanted := Min(s.wanted, |s.sync + novel|);
      AddToReachFactorTracks(x, s, novel, wanted);
      var s1 := AddToReachFactor(s, novel, wanted).state;
      var left := novel - s1.sync;
      if left != {} {
        var voters := s1.voters + left;
        QuorumUpdateTracks(x, s1, |voters| - wanted, voters, wanted > s1.confirmed);
        var s2 := QuorumUpdate(s1, |voters| - wanted, voters, wanted > s1.confirmed).state;
        assert s1.leaderWanted !in left;
        SyncUpdateTracks(x, s2, wanted, s2.sync + left);
      }
    }
  }

  lemma HandleFactorChangeTracks(x: Settings, s: State)
    requires OwnTracks(x, s)
    ensures KeepsTrack(x, HandleFactorChange(s))
  {
    hide Tracks, QuorumUpdate, SyncUpdate;
    var increase := Min(s.wanted, |s.sync|) - s.numsync;
    if HandleFactorChange(s).Done? && increase != 0 {
      SyncUpdateTracks(x, s, s.numsync + increase, s.sync);
      if increase > 0 {
        var s1 := SyncUpdate(s, s.numsync + increase, s.sync).state;
        QuorumUpdateTracks(x, s1, |s1.voters| - s1.numsync, s1.voters, true);
      } else if s.quorum - increase < |s.voters| {
        QuorumUpdateTracks(x, s, |s.voters| - s.numsync - increase, s.voters, s.wanted > s.confirmed);
        var s1 := QuorumUpdate(s, |s.voters| - s.numsync - increase, s.voters, s.wanted > s.confirmed).state;
        SyncUpdateTracks(x, s1, s1.numsync + increase, s1.sync);
      }
    }
  }

  // ---------------------------------------------------------------- the try block

  lemma EqualSetsAreConsistent(s: State)
    requires s.leader == s.leaderWanted && s.voters == s.sync && |s.sync| <= s.quorum + s.numsync
    ensures Consistent(s)
  {
    assert VotingSide(s) + AckSide(s) == s.sync + {s.leader};
    assert |s.sync + {s.leader}| <= |s.sync| + 1;
  }

  /** A take-over that fails its check has changed the fields without yielding: the repair
      that follows yields, unless it raises as well. */
  lemma RepairAfterFailedTakeOver(x: Settings, s: State, quorum: int, voters: set<Name>)
    requires Tracks(x, s) && s.leader != s.leaderWanted && voters != {}
    requires LeaderUpdate(s, quorum, voters, s.leaderWanted).Raised?
    ensures var r := Recover(LeaderUpdate(s, quorum, voters, s.leaderWanted));
            r.Done? && r.state.leader == r.state.leaderWanted ==> OwnTracks(x, r.state)
  {
    hide Consistent, Tracks;
    var r := LeaderUpdate(s, quorum, voters, s.leaderWanted);
    var t := s.(leader := s.leaderWanted, quorum := quorum, voters := voters);
    if Recover(r).Done? && r.state.leader == s.leaderWanted {
      assert r.state == t && !Consistent(t);
      var q := |s.sync| - s.numsync + Max(s.numsync - s.confirmed, 0);
      var u := t.(quorum := q, voters := s.sync);
      if u == t { EqualSetsAreConsistent(t); }
      assert Recover(r) == Done(Emit(u, QuorumKind)) && Consistent(u);
      FieldsInRange(x, s);
      CheckedIsSafe(u);
      EmitTracks(x, s, u, QuorumKind);
    }
  }

  lemma FieldsInRange(x: Settings, s: State)
    requires Tracks(x, s)
    ensures 0 <= s.quorum && s.numsync <= |s.sync| && s.leaderWanted !in s.sync + s.active
  {
  }

  lemma TakeOverTracks(x: Settings, s: State, quorum: int, voters: set<Name>)
    requires Tracks(x, s) && s.leader != s.leaderWanted && voters != {}
    ensures KeepsTrack(x, LeaderUpdate(s, quorum, voters, s.leaderWanted))
  {
    hide Consistent, Tracks;
    var r := LeaderUpdate(s, quorum, voters, s.leaderWanted);
    if r.Done? {
      var t := s.(leader := s.leaderWanted, quorum := quorum, voters := voters);
      FieldsInRange(x, s);
      CheckedIsSafe(t);
      EmitTracks(x, s, t, QuorumKind);
    }
  }

  /** What `Recover` hands on after the `try` block, if the leader is then the wanted one. */
  lemma EntryTracks(x: Settings, s: State)
    requires Tracks(x, s)
    ensures var r := Recover(Enter(s)); r.Done? && r.state.leader == r.state.leaderWanted ==> OwnTracks(x, r.state)
  {
    hide Tracks, Consistent, SyncUpdate, QuorumUpdate, LeaderUpdate;
    if s.leader != s.leaderWanted {
      var voters := VotersAfterFailover(s);
      assert s.leader in voters;
      if s.sync == {} {
        assert s.voters == {} ==> voters == {s.leader};
        SyncUpdateTracks(x, s, |voters| - s.quorum, voters);
        var r := SyncUpdate(s, |voters| - s.quorum, voters);
        if r.Done? {
          TakeOverTracks(x, r.state, s.quorum, voters);
          assert Enter(s) == LeaderUpdate(r.state, s.quorum, voters, r.state.leaderWanted);
          if Enter(s).Raised? { RepairAfterFailedTakeOver(x, r.state, s.quorum, voters); }
        } else {
          FailedSyncKeepsLeader(s, |voters| - s.quorum, voters);
          RecoverKeeps(Enter(s));
        }
      } else {
        TakeOverTracks(x, s, s.quorum, voters);
        if Enter(s).Raised? { RepairAfterFailedTakeOver(x, s, s.quorum, voters); }
      }
    } else {
      FieldsInRange(x, s);
      QuorumUpdateTracks(x, s, |s.sync| - s.numsync, s.sync, true);
    }
  }

  lemma FailedSyncKeepsLeader(s: State, numsync: int, sync: set<Name>)
    ensures var r := SyncUpdate(s, numsync, sync);
            r.state.leader == s.leader && r.state.leaderWanted == s.leaderWanted
  {
  }

  lemma RecoverKeeps(r: Run)
    ensures Recover(r).state.leader == r.state.leader && Recover(r).state.leaderWanted == r.state.leaderWanted
  {
  }

  lemma EstimateTracks(x: Settings, s: State)
    requires OwnTracks(x, s)
    ensures OwnTracks(x, EstimateConfirmed(s))
  {
  }

  /** A whole run keeps track of what is stored, and of its being safe. */
  lemma GenerateTracks(x: Settings, s: State)
    requires Tracks(x, s)
    ensures KeepsTrack(x, Generate(s))
  {
    hide Tracks, Enter, Recover, EstimateConfirmed, Align, SettleMargin, RemoveGone, AddNew, HandleFactorChange,
        Consistent;
    EntryTracks(x, s);
    var entered := Enter(s);
    if WaitsForReplicas(s, entered) {
      EnteredIsOwn(s);
      RecoverPassesOn(entered);
    } else if Generate(s).Done? {
      var s1 := EstimateConfirmed(Recover(entered).state);
      EstimateTracks(x, Recover(entered).state);
      AlignTracks(x, s1);
      var s2 := Align(s1).state;
      SettleMarginTracks(x, s2);
      var s3 := SettleMargin(s2).state;
      RemoveGoneTracks(x, s3);
      var s4 := RemoveGone(s3).state;
      AddNewTracks(x, s4);
      HandleFactorChangeTracks(x, AddNew(s4).state);
    }
  }

  lemma EnteredIsOwn(s: State)
    ensures Enter(s).Done? ==> Enter(s).state.leader == Enter(s).state.leaderWanted
  {
  }

  lemma RecoverPassesOn(r: Run)
    ensures r.Done? ==> Recover(r) == r
  {
  }

  // ---------------------------------------------------------------- one call of the caller

  /** The resolver as the caller sets it up from what is stored. */
  function Input(x: Settings, confirmed: int, active: set<Name>, wanted: int): State {
    State(x.leader, x.quorum, x.voters, Min(x.numsync, |x.sync|), x.sync, confirmed, active, wanted, x.primary, [])
  }

  /** Wherever the caller stops, what is stored then is safe. */
  lemma RunIsSafe(x: Settings, confirmed: int, active: set<Name>, wanted: int)
    requires Safe(x) && x.primary !in active
    ensures var ts := Resolve(Input(x, confirmed, active, wanted));
            forall k :: 0 <= k <= |ts| ==> Safe(Replay(x, ts[..k]))
  {
    hide Generate, Safe;
    var s := Input(x, confirmed, active, wanted);
    var ts := Resolve(s);
    forall k | 0 <= k <= |ts| ensures Safe(Replay(x, ts[..k])) {
      if Generate(s).Done? {
        var es := Generate(s).state.emitted;
        InputTracks(x, confirmed, active, wanted);
        GenerateTracks(x, s);
        var j := StoppingEarlyIsSeen(x, es, k);
      } else {
        assert ts[..k] == [];
      }
    }
  }

  lemma InputTracks(x: Settings, confirmed: int, active: set<Name>, wanted: int)
    requires Safe(x) && x.primary !in active
    ensures Tracks(x, Input(x, confirmed, active, wanted))
  {}

  /** Where nothing stops the caller and no restart is asked for, the stored settings are the
      fields of the resolver at the end of its run. */
  lemma RunIsStored(x: Settings, confirmed: int, active: set<Name>, wanted: int)
    requires Safe(x) && x.primary !in active
    ensures var s := Input(x, confirmed, active, wanted);
            Generate(s).Done? && (forall t <- Generate(s).state.emitted :: t.kind != RestartKind) ==>
              Replay(x, Resolve(s)) == Stored(Generate(s).state)
  {
    hide Generate;
    var s := Input(x, confirmed, active, wanted);
    if Generate(s).Done? && (forall t <- Generate(s).state.emitted :: t.kind != RestartKind) {
      var es := Generate(s).state.emitted;
      GenerateTracks(x, s);
      MergingPreservesMeaning(x, es);
      NoRestartNoCut(es);
    }
  }

  lemma {:induction false} NoRestartNoCut(ts: seq<Transition>)
    requires forall t <- ts :: t.kind != RestartKind
    ensures BeforeRestart(ts) == ts
  {
    if ts != [] { NoRestartNoCut(ts[1..]); }
  }
}
