/** The state machine that moves the `/sync` key and `synchronous_standby_names`
    to a new target by single-sided steps (patroni/quorum.py).

    `Quorum` holds the states and, for every generator of the program, a function
    from the state before to the state after. `QuorumResolver` holds the class whose
    methods change their fields step by step; each is proved equal to its function. */
module Quorum {
  import opened Names

  datatype Kind = SyncKind | QuorumKind | RestartKind

  /** The new value of one of the two stored settings. */
  datatype Transition = Transition(kind: Kind, leader: Name, num: int, names: set<Name>)

  datatype Fault = QuorumError | AssertionError

  /** The fields of the resolver, and the transitions it has produced so far. */
  datatype State = State(
    leader: Name, quorum: int, voters: set<Name>,
    numsync: int, sync: set<Name>, confirmed: int,
    active: set<Name>, wanted: int, leaderWanted: Name,
    emitted: seq<Transition>)

  /** How a generator ends: normally, or with an exception. */
  datatype Run = Done(state: State) | Raised(state: State, fault: Fault) {
    predicate IsFailure() { Raised? }
    function PropagateFailure(): Run requires Raised? { this }
    function Extract(): State requires Done? { state }
  }

  function Min(a: int, b: int): int { if a <= b then a else b }
  function Max(a: int, b: int): int { if a >= b then a else b }

  function Emit(s: State, kind: Kind): State {
    var (num, names) := if kind == SyncKind then (s.numsync, s.sync) else (s.quorum, s.voters);
    s.(emitted := s.emitted + [Transition(kind, s.leader, num, names)])
  }

  /** The voters' side and the acknowledging side, each with its leader. */
  function VotingSide(s: State): set<Name> { s.voters + {s.leader} }
  function AckSide(s: State): set<Name> { s.sync + {s.leaderWanted} }

  predicate Overlaps(s: State) {
    s.voters == {} || |VotingSide(s) + AckSide(s)| <= s.quorum + s.numsync + 1
  }

  predicate Nested(s: State) {
    VotingSide(s) <= AckSide(s) || AckSide(s) <= VotingSide(s)
  }

  /** `check_invariants` returns instead of raising. */
  predicate Consistent(s: State) {
    Overlaps(s) && Nested(s)
  }

  function Checked(s: State, kind: Kind): Run {
    if Consistent(s) then Done(Emit(s, kind)) else Raised(s, QuorumError)
  }

  /** `quorum_update`; `leader` is a name or "not given", as a set of at most one. */
  function QuorumUpdate(s: State, quorum: int, voters: set<Name>, adjust: bool): Run {
    if quorum < 0 || (quorum > 0 && quorum >= |voters|) then
      Raised(s, QuorumError)
    else
      var reset := s.confirmed == 0 && s.voters == {};
      var v := if reset then {} else voters;
      var q := if reset then 0
               else if adjust then quorum + Max(s.numsync - s.confirmed, 0)
               else quorum;
      if q == s.quorum && v == s.voters && s.voters != {} then
        Done(s)
      else
        var hinted := if q == s.quorum && v == s.voters then Emit(s, RestartKind) else s;
        Checked(hinted.(quorum := q, voters := v), QuorumKind)
  }

  /** `quorum_update` with a new leader. */
  function LeaderUpdate(s: State, quorum: int, voters: set<Name>, leader: Name): Run {
    if quorum < 0 || (quorum > 0 && quorum >= |voters|) then
      Raised(s, QuorumError)
    else
      var moved := s.(leader := leader);
      if leader == s.leader && quorum == s.quorum && voters == s.voters && s.voters != {} then
        Done(moved)
      else
        var hinted := if leader == s.leader && quorum == s.quorum && voters == s.voters
                      then Emit(moved, RestartKind) else moved;
        Checked(hinted.(quorum := quorum, voters := voters), QuorumKind)
  }

  /** `sync_update`. */
  function SyncUpdate(s: State, numsync: int, sync: set<Name>): Run {
    if numsync < 0 || numsync > |sync| then Raised(s, QuorumError)
    else Checked(s.(numsync := numsync, sync := sync), SyncKind)
  }

  /** Case 1 of the non-steady handler: the voters hold more nodes than are synced. */
  function ShrinkVoters(s: State): Run {
    var gone := s.voters - (s.sync + s.active);
    var s1 :- if gone != {} then
                QuorumUpdate(s, |s.voters| - |gone| - s.numsync, s.voters - gone, s.sync - s.active == {})
              else Done(s);
    var novel := (s1.voters * s1.active) - s1.sync;
    if novel != {} then SyncUpdate(s1, s1.numsync, s1.sync + novel) else Done(s1)
  }

  /** Case 2: nodes are synced that are not yet, or no longer, voters.
      First dead nodes are dropped, unless no synced voter would be left. */
  function DropDead(s: State): Run {
    var dead := s.sync - s.active;
    var alive := s.sync - dead;
    if dead != {} && alive != {} && (s.voters == {} || alive * s.voters != {}) then
      SyncUpdate(s, Min(s.numsync, |s.sync| - |dead|), alive)
    else Done(s)
  }

  function AdmitActive(s: State): Run {
    var joined := (s.sync - s.voters) * s.active;
    if joined != {} then
      QuorumUpdate(s, |s.voters + joined| - s.numsync, s.voters + joined, true)
    else Done(s)
  }

  function DropUnvoted(s: State): Run {
    var rest := s.sync - s.voters;
    if rest != {} then SyncUpdate(s, Min(s.numsync, |s.sync| - |rest|), s.sync - rest) else Done(s)
  }

  function GrowVoters(s: State): Run {
    var s1 :- DropDead(s);
    var s2 :- AdmitActive(s1);
    DropUnvoted(s2)
  }

  /** Make the two sets equal again. */
  function Align(s: State): Run {
    if s.sync < s.voters then ShrinkVoters(s)
    else if s.voters < s.sync then GrowVoters(s)
    else Done(s)
  }

  /** Cases 3 and 4: an interrupted change of the replication factor. */
  function SettleMargin(s: State): Run {
    if s.quorum + Min(s.numsync, s.confirmed) - |s.voters + s.sync| > 0 then
      if s.numsync > s.wanted then
        SyncUpdate(s, Max(s.wanted, |s.voters| - s.quorum), s.sync)
      else
        QuorumUpdate(s, |s.sync| - s.numsync, s.voters, true)
    else if s.numsync == s.wanted && s.quorum + s.numsync - |s.voters + s.sync| > 0 && s.numsync > s.confirmed then
      QuorumUpdate(s, |s.sync| - s.numsync, s.voters, true)
    else Done(s)
  }

  function HandleNonSteady(s: State): Run {
    var s1 :- Align(s);
    if s1.voters != s1.sync then Raised(s1, AssertionError) else SettleMargin(s1)
  }

  /** Second half of `__remove_gone_nodes`: give up nodes that must acknowledge every commit. */
  function RemoveRequired(s: State, gone: set<Name>): Run {
    if gone == {} then Done(s)
    else if s.quorum != 0 then Raised(s, AssertionError)
    else
      var numsync := s.numsync - |gone|;
      var sync := s.sync - gone;
      var voters := s.voters - gone;
      var decrease := numsync - Min(s.wanted, |sync|);
      var quorum := if decrease != 0 then Min(decrease, |voters| - 1) else 0;
      var s1 :- QuorumUpdate(s, quorum, voters, false);
      SyncUpdate(s1, numsync, sync)
  }

  /** First half: leave out as many nodes as every quorum can do without. */
  function RemoveSpare(s: State, gone: set<Name>): Run {
    if s.quorum == 0 then Done(s)
    else
      var remove := LastOf(gone, s.quorum);
      var sync := s.sync - remove;
      var numsync := Min(if s.wanted > s.numsync then s.wanted else s.numsync, |sync|);
      var s1 :- SyncUpdate(s, numsync, sync);
      var voters := s1.voters - remove;
      QuorumUpdate(s1, |voters| - s1.numsync, voters, gone * s1.sync == {})
  }

  function RemoveGone(s: State): Run {
    var gone := s.sync - s.active;
    if gone != {} && s.sync == gone then
      var s1 :- QuorumUpdate(s, 0, {}, false);
      SyncUpdate(s1, 0, {})
    else if gone != {} then
      var s1 :- RemoveSpare(s, gone);
      RemoveRequired(s1, gone * s1.sync)
    else Done(s)
  }

  /** First half of `__add_new_nodes`: reach the replication factor asked for. */
  function AddToReachFactor(s: State, novel: set<Name>, wanted: int): Run {
    var increase := wanted - s.numsync;
    if increase > 0 then
      var add := if s.sync != {} then FirstOf(novel, increase) else novel;
      var step := if s.sync != {} then |add| else increase;
      var s1 :- SyncUpdate(s, s.numsync + step, s.sync + add);
      QuorumUpdate(s1, |s1.voters + add| - wanted, s1.voters + add, true)
    else Done(s)
  }

  function AddNew(s: State): Run {
    var novel := s.active - s.sync;
    if novel == {} then Done(s)
    else
      var wanted := Min(s.wanted, |s.sync + novel|);
      var s1 :- AddToReachFactor(s, novel, wanted);
      // the set of nodes still to add is reduced only where nodes have been added
      var left := novel - s1.sync;
      if left == {} then Done(s1) else AddRest(s1, left, wanted)
  }

  /** Second half: the others become voters first. */
  function AddRest(s: State, left: set<Name>, wanted: int): Run {
    var voters := s.voters + left;
    var s1 :- QuorumUpdate(s, |voters| - wanted, voters, wanted > s.confirmed);
    SyncUpdate(s1, wanted, s1.sync + left)
  }

  function HandleFactorChange(s: State): Run {
    var increase := Min(s.wanted, |s.sync|) - s.numsync;
    if increase > 0 then
      var s1 :- SyncUpdate(s, s.numsync + increase, s.sync);
      QuorumUpdate(s1, |s1.voters| - s1.numsync, s1.voters, true)
    else if increase < 0 then
      var s1 :- if s.quorum - increase < |s.voters| then
                  QuorumUpdate(s, |s.voters| - s.numsync - increase, s.voters, s.wanted > s.confirmed)
                else Done(s);
      SyncUpdate(s1, s1.numsync + increase, s1.sync)
    else Done(s)
  }

  function VotersAfterFailover(s: State): set<Name> {
    (s.voters - {s.leaderWanted}) + {s.leader}
  }

  /** The body of the `try` block of `_generate_transitions`. */
  function Enter(s: State): Run {
    if s.leaderWanted != s.leader then
      var voters := VotersAfterFailover(s);
      var s1 :- if s.sync == {} then SyncUpdate(s, |voters| - s.quorum, voters) else Done(s);
      LeaderUpdate(s1, s1.quorum, voters, s1.leaderWanted)
    else if Consistent(s) then Done(s)
    else Raised(s, QuorumError)
  }

  /** The `except` block. */
  function Recover(r: Run): Run {
    match r
    case Done(s) => Done(s)
    case Raised(s, QuorumError) => QuorumUpdate(s, |s.sync| - s.numsync, s.sync, true)
    case Raised(s, AssertionError) => r
  }

  /** Right after a promotion nobody may be connected yet. */
  predicate WaitsForReplicas(s: State, entered: Run) {
    s.leaderWanted != s.leader && entered.Done? && entered.state.sync * entered.state.active == {}
  }

  function EstimateConfirmed(s: State): State {
    if s.confirmed == 0 && s.sync * s.active != {} then
      s.(confirmed := Min(|s.sync * s.active|, |s.voters| - s.quorum))
    else s
  }

  /** What follows once the state is that of a steady point. */
  function Steady(s: State): Run {
    var s1 :- RemoveGone(s);
    var s2 :- AddNew(s1);
    HandleFactorChange(s2)
  }

  /** `_generate_transitions`. */
  function Generate(s: State): Run {
    var entered := Enter(s);
    if WaitsForReplicas(s, entered) then entered
    else
      var s1 :- Recover(entered);
      if s1.leader != s1.leaderWanted then Raised(s1, AssertionError)
      else
        var s2 :- HandleNonSteady(EstimateConfirmed(s1));
        Steady(s2)
  }

  /** What `__iter__` yields of the collected list: of neighbours of one kind only the
      last, and nothing after a restart. */
  function Yielded(ts: seq<Transition>): seq<Transition> {
    if ts == [] then []
    else if |ts| > 1 && ts[0].kind == ts[1].kind then Yielded(ts[1..])
    else if ts[0].kind == RestartKind then [ts[0]]
    else [ts[0]] + Yielded(ts[1..])
  }

  /** The list the caller iterates over; nothing at all when an exception escapes. */
  function Resolve(s: State): seq<Transition> {
    if Generate(s).Done? then Yielded(Generate(s).state.emitted) else []
  }
}
