/** Failsafe mode (patroni/ha.py): a primary that cannot reach the DCS stays primary as long
    as every member of the `/failsafe` topology accepts it. Times are integers. */
module Failsafe {
  import opened Names
  import T = Timeouts

  // ---------------------------------------------------------------- the failsafe object

  /** Whether an acceptance received at `lastUpdate` still counts. */
  predicate Open(lastUpdate: int, ttl: int, now: int) {
    lastUpdate + ttl > now
  }

  /** What a node remembers of the primary's last request. */
  class FailsafeState {
    const ttl: int
    var lastUpdate: int
    var name: Name

    constructor (ttl: int)
      ensures this.ttl == ttl && lastUpdate == 0 && name == ""
    {
      this.ttl := ttl;
      lastUpdate, name := 0, "";
    }

    /** A request of the primary. */
    method Update(leader: Name, now: int)
      modifies this
      ensures lastUpdate == now && name == leader
    {
      lastUpdate, name := now, leader;
    }

    /** On the primary: the time of its last accepted round, or 0 to leave failsafe mode. */
    method SetIsActive(value: int)
      modifies this
      ensures lastUpdate == value && name == if value == 0 then "" else old(name)
    {
      lastUpdate := value;
      if value == 0 { name := ""; }
    }

    predicate IsActive(now: int)
      reads this
    {
      Open(lastUpdate, ttl, now)
    }
  }

  /** The lock in the DCS; it is gone when its lease has run out. */
  datatype Lock = NoLock | Lock(holder: Name, expiry: int) {
    predicate IsFree(now: int) { NoLock? || expiry <= now }
  }

  /** The leader that `load_cluster_from_dcs` finds: the holder of the lock, or else the
      primary that last asked this node, while its acceptance counts. */
  function LeaderSeen(lock: Lock, failsafeMode: bool, lastUpdate: int, ttl: int, asked: Name, now: int): Name {
    if !lock.IsFree(now) then lock.holder
    else if failsafeMode && Open(lastUpdate, ttl, now) then asked
    else ""
  }

  /** `is_healthiest_node`, as far as failsafe mode goes: with a topology, only its members race. */
  predicate MayRace(name: Name, topology: set<Name>) {
    topology == {} || name in topology
  }

  /** `check_failsafe_topology`, given who has accepted. */
  method CheckTopology(name: Name, topology: set<Name>, accepted: set<Name>) returns (agreed: bool)
    ensures agreed <==> name in topology && topology - {name} <= accepted
  {
    if name !in topology { return false; }
    var members := topology - {name};
    if members == {} { return true; }
    return forall m <- members :: m in accepted;
  }

  /** The part of the HA object that a DCS failure touches. */
  class Ha {
    const name: Name
    const ttl: int
    const failsafe: FailsafeState
    var leaderExpiry: int
    var isPrimary: bool

    constructor (name: Name, ttl: int)
      ensures this.name == name && this.ttl == ttl && fresh(failsafe) && failsafe.ttl == ttl
      ensures leaderExpiry == 0 && !isPrimary
    {
      this.name, this.ttl, leaderExpiry, isPrimary := name, ttl, 0, false;
      failsafe := new FailsafeState(ttl);
    }

    /** `_handle_dcs_error`: stay primary exactly if everybody in the topology has accepted,
        and then for a lease from the end of the round; otherwise demote. */
    method HandleDcsError(paused: bool, running: bool, failsafeMode: bool, topology: set<Name>, accepted: set<Name>,
        now: int)
      requires now != 0
      modifies this, failsafe
      ensures paused || !running || !old(isPrimary) ==>
                unchanged(this) && unchanged(failsafe)
      ensures !paused && running && old(isPrimary) ==>
                forall time: int :: failsafe.IsActive(time) <==> time < (if isPrimary then now else 0) + failsafe.ttl
      ensures !paused && running && old(isPrimary) ==>
                && (isPrimary <==> failsafeMode && name in topology && topology - {name} <= accepted)
                && (isPrimary ==>
                      leaderExpiry == now + ttl && failsafe.lastUpdate == now && failsafe.name == old(failsafe.name))
                && (!isPrimary ==> failsafe.lastUpdate == 0 && failsafe.name == "" && leaderExpiry == 0)
    {
      if !paused && running && isPrimary {
        var agreed := false;
        if failsafeMode {
          agreed := CheckTopology(name, topology, accepted);
        }
        if agreed {
          leaderExpiry := now + ttl;
          failsafe.SetIsActive(now);
        } else {
          failsafe.SetIsActive(0);
          leaderExpiry, isPrimary := 0, false;
        }
      }
    }

    /** `update_failsafe`: a node that runs as a primary refuses. */
    method UpdateFailsafe(leader: Name, running: bool, now: int) returns (accepted: bool)
      modifies failsafe
      ensures accepted <==> !(running && isPrimary)
      ensures if accepted then failsafe.lastUpdate == now && failsafe.name == leader else unchanged(failsafe)
      ensures accepted ==> forall time: int :: failsafe.IsActive(time) <==> time < now + failsafe.ttl
    {
      if running && isPrimary { return false; }
      failsafe.Update(leader, now);
      return true;
    }
  }

  // ---------------------------------------------------------------- the protocol

  datatype Config = Config(primary: Name, topology: set<Name>, ttl: int)

  /** A round of requests: when it began, and who has accepted. */
  datatype Round = NoRound | Asking(start: int, accepted: set<Name>)

  /** A standby: its last acceptance, whether its loop has found no leader and is about to
      take the lock, and whether it has been promoted. */
  datatype Standby = Standby(lastUpdate: int, racing: bool, promoted: bool)

  /** `anchor` is the time of the primary's last lease renewal, or the start of its last
      accepted round. */
  datatype System = System(now: int, lock: Lock, running: bool, anchor: int, round: Round, standbys: map<Name, Standby>)

  datatype Action =
    | Tick(time: int)
    | Renew(since: int)       // the primary renews its lease with a request sent at `since`
    | StartRound              // the DCS is out of reach: ask the topology
    | Accept(name: Name)      // a standby accepts the request of the current round
    | LatePost(name: Name)    // a request of an abandoned round arrives
    | FinishRound             // everybody has accepted: stay primary
    | Demote
    | Observe(name: Name)     // a standby's loop reads the DCS
    | TakeLock(name: Name)    // a standby that has found no leader takes the lock
    | Reacquire               // the DCS is back, and the running primary takes the free lock
    | Wake                    // the primary's loop begins a cycle
    | EndCycle                // it ends one in which the lease was renewed

  /** The standby's loop. */
  function AfterObserving(c: Config, s: System, name: Name): Standby
    requires name in s.standbys
  {
    var node := s.standbys[name];
    node.(racing := LeaderSeen(s.lock, true, node.lastUpdate, c.ttl, c.primary, s.now) == "" &&
      MayRace(name, c.topology))
  }

  predicate Enabled(c: Config, s: System, a: Action) {
    match a
    case Tick(time) => time >= s.now
    case Renew(since) => s.running && !s.lock.IsFree(s.now) && s.lock.holder == c.primary && s.anchor <= since <= s.now
    case StartRound => s.running && c.primary in c.topology
    // a node that runs as a primary itself refuses
    case Accept(name) => s.running && s.round.Asking? && name in c.topology && name in s.standbys &&
        !s.standbys[name].promoted
    case LatePost(name) => name in s.standbys && !s.standbys[name].promoted
    case FinishRound => s.running && s.round.Asking? && c.topology - {c.primary} <= s.round.accepted
    case Demote => true
    case Observe(name) => name in s.standbys
    case TakeLock(name) => name in s.standbys && s.standbys[name].racing && s.lock.IsFree(s.now)
    case Reacquire => s.running && s.lock.IsFree(s.now)
    case Wake => s.running
    case EndCycle => s.running
  }

  function Next(c: Config, s: System, a: Action): System
    requires Enabled(c, s, a)
  {
    match a
    case Tick(time) => s.(now := time)
    case Renew(since) => s.(lock := Lock(c.primary, s.now + c.ttl), anchor := since, round := NoRound)
    case StartRound => s.(round := Asking(s.now, {}))
    case Accept(name) =>
      s.(round := s.round.(accepted := s.round.accepted + {name}),
         standbys := s.standbys[name := s.standbys[name].(lastUpdate := s.now)])
    case LatePost(name) => s.(standbys := s.standbys[name := s.standbys[name].(lastUpdate := s.now)])
    case FinishRound => s.(anchor := s.round.start, round := NoRound)
    case Demote => s.(running := false, round := NoRound)
    case Observe(name) => s.(standbys := s.standbys[name := AfterObserving(c, s, name)])
    case TakeLock(name) =>
      s.(lock := Lock(name, s.now + c.ttl),
         standbys := s.standbys[name := s.standbys[name].(racing := false, promoted := true)])
    case Reacquire => s.(lock := Lock(c.primary, s.now + c.ttl), anchor := s.now, round := NoRound)
    case Wake => s
    case EndCycle => s
  }

  ghost predicate IsRun(c: Config, run: seq<System>, actions: seq<Action>) {
    && |run| == |actions| + 1
    && forall i :: 0 <= i < |actions| ==> Enabled(c, run[i], actions[i]) && run[i + 1] == Next(c, run[i], actions[i])
  }

  /** The primary has renewed its lease, and no standby is half-way to the lock. */
  predicate Initial(c: Config, s: System) {
    && c.primary != "" && c.primary !in s.standbys && c.topology - {c.primary} <= s.standbys.Keys
    && s.running && s.anchor == s.now && s.lock == Lock(c.primary, s.now + c.ttl) && s.round == NoRound
    && 0 < c.ttl
    && forall x <- s.standbys :: !s.standbys[x].racing && !s.standbys[x].promoted && s.standbys[x].lastUpdate <= s.now
  }

  /** The primary is punctual: while it runs, a lease has not passed since its anchor. */
  predicate Punctual(c: Config, s: System) {
    s.running ==> s.now < s.anchor + c.ttl
  }

  /** What keeps the other nodes away: the lease, or everybody's acceptance. */
  predicate Covered(c: Config, s: System) {
    || (s.lock.Lock? && s.lock.expiry >= s.anchor + c.ttl)
    || (c.topology != {} && forall x <- c.topology - {c.primary} ::
         x in s.standbys && s.standbys[x].lastUpdate >= s.anchor)
  }

  ghost predicate Invariant(c: Config, s: System) {
    && c.primary != "" && c.primary !in s.standbys && c.topology - {c.primary} <= s.standbys.Keys && 0 < c.ttl
    && (s.running ==>
          && s.lock.Lock? && s.lock.holder == c.primary
          && s.anchor <= s.now
          && (forall x <- s.standbys ::
               !s.standbys[x].racing && !s.standbys[x].promoted && s.standbys[x].lastUpdate <= s.now)
          && Covered(c, s)
          && (s.round.Asking? ==>
                && s.anchor <= s.round.start <= s.now && c.primary in c.topology
                && forall x <- s.round.accepted :: x in s.standbys && s.standbys[x].lastUpdate >= s.round.start))
  }

  /** While the primary is covered and punctual, a standby's loop finds a leader, or the
      standby is outside the topology and disqualifies itself. */
  lemma NobodyRaces(c: Config, s: System, name: Name)
    requires Invariant(c, s) && Punctual(c, s) && s.running && name in s.standbys
    ensures !AfterObserving(c, s, name).racing
  {
    if s.lock.expiry < s.anchor + c.ttl && name in c.topology {
      assert name in c.topology - {c.primary};
    }
  }

  lemma StepKeepsInvariant(c: Config, s: System, a: Action)
    requires Invariant(c, s) && Punctual(c, s) && Enabled(c, s, a)
    ensures Invariant(c, Next(c, s, a))
  {
    var t := Next(c, s, a);
    if s.running && a.Observe? { NobodyRaces(c, s, a.name); }
  }

  /** A standby's loop sets out for the lock exactly if the lease has run out, it has accepted no
      request within a ttl, and it is in the topology where there is one. Without failsafe mode
      only the lease counts. */
  lemma ObservesIff(c: Config, s: System, name: Name)
    requires name in s.standbys && c.primary != "" && (s.lock.Lock? ==> s.lock.holder != "")
    ensures AfterObserving(c, s, name).racing <==>
            && (s.lock.NoLock? || s.lock.expiry <= s.now)
            && s.standbys[name].lastUpdate + c.ttl <= s.now
            && (c.topology != {} ==> name in c.topology)
    ensures forall asked :: LeaderSeen(s.lock, false, s.standbys[name].lastUpdate, c.ttl, asked, s.now) ==
                            (if s.lock.Lock? && s.now < s.lock.expiry then s.lock.holder else "")
  {}

  /** Failsafe mode keeps one primary: as long as the primary is punctual, nobody else holds
      the lock while it runs. */
  lemma {:induction false} OnePrimary(c: Config, run: seq<System>, actions: seq<Action>)
    requires IsRun(c, run, actions) && Initial(c, run[0])
    requires forall i :: 0 <= i < |run| ==> Punctual(c, run[i])
    ensures forall i :: 0 <= i < |run| ==> Invariant(c, run[i])
    ensures forall i :: 0 <= i < |run| && run[i].running ==> run[i].lock.Lock? && run[i].lock.holder == c.primary
  {
    var n := |actions|;
    if n > 0 {
      OnePrimary(c, run[..n], actions[..n - 1]);
      assert Invariant(c, run[..n][n - 1]) && Punctual(c, run[n - 1]);
      StepKeepsInvariant(c, run[n - 1], actions[n - 1]);
      forall i | 0 <= i < |run| ensures Invariant(c, run[i]) {
        if i < n { assert run[..n][i] == run[i]; }
      }
    }
  }

  /** Punctuality is needed: a primary that goes on without renewal or an accepted round can
      be replaced, while it still runs, by any standby that may race. */
  lemma LatePrimaryIsReplaced(c: Config, s: System, name: Name) returns (run: seq<System>, actions: seq<Action>)
    requires Invariant(c, s) && s.running && name in s.standbys && MayRace(name, c.topology)
    ensures IsRun(c, run, actions) && run[0] == s
    ensures var last := run[|run| - 1]; last.running && last.lock.Lock? && last.lock.holder == name && name != c.primary
  {
    var closed := s.standbys[name].lastUpdate + c.ttl;
    var late := if s.lock.expiry >= closed then s.lock.expiry else closed;
    var time := if late >= s.now then late else s.now;
    var s1 := Next(c, s, Tick(time));
    var s2 := Next(c, s1, Observe(name));
    run, actions := [s, s1, s2, Next(c, s2, TakeLock(name))], [Tick(time), Observe(name), TakeLock(name)];
  }

  // ---------------------------------------------------------------- the primary's loop

  /** The times the loop goes by: the interval between cycles, the time after which a request to
      the DCS is given up, and the longest time a round takes. */
  datatype Pace = Pace(loopWait: nat, retryTimeout: nat, roundTime: nat) {
    /** The longest time from an anchor to the beginning of the next cycle. */
    function Gap(): nat { if roundTime > loopWait then roundTime else loopWait }
  }

  /** Where the loop is: asleep until `due`, waiting for the DCS, asking the topology, or, with
      its lease renewed, doing what else there is to do. */
  datatype Phase =
    | Asleep(due: int)
    | Requesting(begin: int)
    | Polling(begin: int, start: int)
    | Serving(begin: int, since: int)

  /** The time at which a phase is over. A cycle makes two requests, and the loop does not
      overrun: a cycle that renews the lease is over an interval after it asked for that. */
  function Deadline(p: Pace, phase: Phase): int {
    match phase
    case Asleep(due) => due
    case Requesting(begin) => begin + 2 * p.retryTimeout
    case Polling(_, start) => start + p.roundTime
    case Serving(_, since) => since + p.loopWait
  }

  /** What the loop does in a phase. A cycle renews the lease, or ends in a round, or with the
      demotion of the node. */
  predicate Allows(p: Pace, now: int, phase: Phase, a: Action) {
    match a
    case Tick(time) => time <= Deadline(p, phase)
    case Wake => phase.Asleep?
    case Renew(since) => phase.Requesting? && phase.begin <= since && now <= since + p.loopWait
    case Reacquire => phase.Requesting?
    case StartRound => phase.Requesting? || phase.Serving?
    case FinishRound => phase.Polling?
    case EndCycle => phase.Serving?
    case _ => true
  }

  /** The next cycle is due an interval after this one began, or at once. */
  function NextDue(p: Pace, begin: int, now: int): Phase {
    Asleep(if begin + p.loopWait > now then begin + p.loopWait else now)
  }

  function NextPhase(p: Pace, s: System, phase: Phase, a: Action): Phase
    requires Allows(p, s.now, phase, a)
  {
    match a
    case Wake => Requesting(s.now)
    case Renew(since) => Serving(phase.begin, since)
    case Reacquire => Serving(phase.begin, s.now)
    case StartRound => Polling(phase.begin, s.now)
    case FinishRound => NextDue(p, phase.begin, s.now)
    case EndCycle => NextDue(p, phase.begin, s.now)
    case _ => phase
  }

  /** A run on which the primary, as long as it runs, keeps to its loop. */
  ghost predicate IsPacedRun(c: Config, p: Pace, run: seq<System>, actions: seq<Action>, phases: seq<Phase>) {
    && IsRun(c, run, actions) && Initial(c, run[0])
    && |phases| == |run| && phases[0] == Serving(run[0].anchor, run[0].anchor)
    && forall i :: 0 <= i < |actions| && run[i].running ==>
         Allows(p, run[i].now, phases[i], actions[i]) && phases[i + 1] == NextPhase(p, run[i], phases[i], actions[i])
  }

  /** How far the loop is from the anchor in each phase. */
  ghost predicate InPace(p: Pace, s: System, phase: Phase) {
    s.running ==>
      && s.now <= Deadline(p, phase)
      && match phase
         case Asleep(due) => due <= s.anchor + p.Gap()
         case Requesting(begin) => begin <= s.now && begin <= s.anchor + p.Gap()
         case Polling(begin, start) =>
           && begin <= start <= s.now && start <= s.anchor + p.Gap() + 2 * p.retryTimeout
           && s.round.Asking? && s.round.start == start
         case Serving(begin, since) => begin <= since == s.anchor <= s.now
  }

  lemma StepKeepsPace(c: Config, p: Pace, s: System, phase: Phase, a: Action)
    requires InPace(p, s, phase) && s.running && Enabled(c, s, a) && Allows(p, s.now, phase, a)
    ensures InPace(p, Next(c, s, a), NextPhase(p, s, phase, a))
  {}

  lemma {:induction false} RunKeepsPace(c: Config, p: Pace, run: seq<System>, actions: seq<Action>, phases: seq<Phase>)
    requires IsPacedRun(c, p, run, actions, phases)
    ensures forall i :: 0 <= i < |run| ==> InPace(p, run[i], phases[i])
  {
    var n := |actions|;
    if n > 0 {
      RunKeepsPace(c, p, run[..n], actions[..n - 1], phases[..n]);
      assert InPace(p, run[..n][n - 1], phases[..n][n - 1]);
      if run[n - 1].running { StepKeepsPace(c, p, run[n - 1], phases[n - 1], actions[n - 1]); }
      forall i | 0 <= i < |run| ensures InPace(p, run[i], phases[i]) {
        if i < n { assert run[..n][i] == run[i] && phases[..n][i] == phases[i]; }
      }
    }
  }

  /** The lease outlasts the gap between cycles, the requests and the round. */
  predicate FitsLease(p: Pace, ttl: int) {
    p.Gap() + 2 * p.retryTimeout + p.roundTime < ttl
  }

  ghost predicate AllPunctual(c: Config, run: seq<System>) {
    forall i :: 0 <= i < |run| ==> Punctual(c, run[i])
  }

  lemma PacedRunIsPunctual(c: Config, p: Pace, run: seq<System>, actions: seq<Action>, phases: seq<Phase>)
    requires IsPacedRun(c, p, run, actions, phases) && FitsLease(p, c.ttl)
    ensures AllPunctual(c, run)
  {
    RunKeepsPace(c, p, run, actions, phases);
    forall i | 0 <= i < |run| ensures Punctual(c, run[i]) {
      assert InPace(p, run[i], phases[i]);
    }
  }

  /** While the primary runs, it holds the lock. */
  ghost predicate KeepsLock(c: Config, run: seq<System>) {
    forall i :: 0 <= i < |run| && run[i].running ==> run[i].lock.Lock? && run[i].lock.holder == c.primary
  }

  lemma PacedRunKeepsLock(c: Config, p: Pace, run: seq<System>, actions: seq<Action>, phases: seq<Phase>)
    requires IsPacedRun(c, p, run, actions, phases) && FitsLease(p, c.ttl)
    ensures KeepsLock(c, run)
  {
    PacedRunIsPunctual(c, p, run, actions, phases);
    OnePrimary(c, run, actions);
  }

  /** Failsafe mode keeps one primary, with a loop that keeps its pace, exactly if the lease has
      room for the round as well; and exactly then that loop is punctual. */
  lemma BudgetForRounds(p: Pace, ttl: int)
    requires 0 < ttl
    ensures (forall c: Config, run, actions, phases | c.ttl == ttl && IsPacedRun(c, p, run, actions, phases) ::
               KeepsLock(c, run)) <==> FitsLease(p, ttl)
    ensures (forall c: Config, run, actions, phases | c.ttl == ttl && IsPacedRun(c, p, run, actions, phases) ::
               AllPunctual(c, run)) <==> FitsLease(p, ttl)
  {
    if FitsLease(p, ttl) {
      forall c: Config, run, actions, phases | c.ttl == ttl && IsPacedRun(c, p, run, actions, phases)
        ensures AllPunctual(c, run) && KeepsLock(c, run)
      {
        PacedRunIsPunctual(c, p, run, actions, phases);
        PacedRunKeepsLock(c, p, run, actions, phases);
      }
    } else {
      var c, run, actions, phases := LateRun(p, ttl);
    }
  }

  /** A paced run and where it has got to. */
  ghost predicate Reaches(c: Config, p: Pace, run: seq<System>, actions: seq<Action>, phases: seq<Phase>, s: System,
      phase: Phase) {
    IsPacedRun(c, p, run, actions, phases) && run[|run| - 1] == s && phases[|run| - 1] == phase
  }

  lemma GoOn(c: Config, p: Pace, run: seq<System>, actions: seq<Action>, phases: seq<Phase>, s: System, phase: Phase,
      a: Action)
    returns (run': seq<System>, actions': seq<Action>, phases': seq<Phase>, t: System, next: Phase)
    requires Reaches(c, p, run, actions, phases, s, phase) && s.running && Enabled(c, s, a) &&
        Allows(p, s.now, phase, a)
    ensures t == Next(c, s, a) && next == NextPhase(p, s, phase, a)
    ensures Reaches(c, p, run', actions', phases', t, next)
  {
    t, next := Next(c, s, a), NextPhase(p, s, phase, a);
    run', actions', phases' := run + [t], actions + [a], phases + [next];
  }

  /** Two nodes, the primary and a standby that may race. */
  function Pair(ttl: int): Config { Config("primary", {"primary", "standby"}, ttl) }

  lemma PairIsTwo()
    ensures "primary" != "standby"
  {
    assert "primary"[0] != "standby"[0];
  }

  /** The last cycle: the round begins late and takes as long as it may. The standby, not asked
      in time, takes the lock of the running primary. */
  lemma LateCycle(p: Pace, ttl: int, run: seq<System>, actions: seq<Action>, phases: seq<Phase>, s: System,
      phase: Phase)
    returns (run': seq<System>, actions': seq<Action>, phases': seq<Phase>)
    requires Reaches(Pair(ttl), p, run, actions, phases, s, phase) && s.running && phase == Requesting(s.now)
    requires s.lock == Lock("primary", ttl) && "standby" in s.standbys &&
        s.standbys["standby"] == Standby(s.anchor, false, false)
    requires s.anchor >= 0 && s.anchor + ttl <= s.now + 2 * p.retryTimeout + p.roundTime
    ensures IsPacedRun(Pair(ttl), p, run', actions', phases') && !AllPunctual(Pair(ttl), run') &&
        !KeepsLock(Pair(ttl), run')
  {
    hide Reaches, IsPacedRun;
    PairIsTwo();
    var c, s, phase := Pair(ttl), s, phase;
    run', actions', phases' := run, actions, phases;
    run', actions', phases', s, phase :=
      GoOn(c, p, run', actions', phases', s, phase, Tick(s.now + 2 * p.retryTimeout));
    run', actions', phases', s, phase := GoOn(c, p, run', actions', phases', s, phase, StartRound);
    run', actions', phases', s, phase := GoOn(c, p, run', actions', phases', s, phase, Tick(s.now + p.roundTime));
    run', actions', phases', s, phase := GoOn(c, p, run', actions', phases', s, phase, Observe("standby"));
    run', actions', phases', s, phase := GoOn(c, p, run', actions', phases', s, phase, TakeLock("standby"));
    ReachesEnd(c, p, run', actions', phases', s, phase);
    assert !Punctual(c, s) && s.lock.holder == "standby";
  }

  lemma ReachesEnd(c: Config, p: Pace, run: seq<System>, actions: seq<Action>, phases: seq<Phase>, s: System,
      phase: Phase)
    requires Reaches(c, p, run, actions, phases, s, phase)
    ensures IsPacedRun(c, p, run, actions, phases) && run != [] && run[|run| - 1] == s
  {}

  /** The DCS fails after a renewal. If a round takes longer than the interval, it is the second
      one that ends too late. */
  lemma LateRun(p: Pace, ttl: int)
    returns (c: Config, run: seq<System>, actions: seq<Action>, phases: seq<Phase>)
    requires 0 < ttl && !FitsLease(p, ttl)
    ensures c.ttl == ttl && IsPacedRun(c, p, run, actions, phases) && !AllPunctual(c, run) && !KeepsLock(c, run)
  {
    PairIsTwo();
    c := Pair(ttl);
    var s := System(0, Lock("primary", ttl), true, 0, NoRound, map["standby" := Standby(0, false, false)]);
    var phase := Serving(0, 0);
    run, actions, phases := [s], [], [phase];
    assert Reaches(c, p, run, actions, phases, s, phase);
    hide Reaches, IsPacedRun;
    run, actions, phases, s, phase := GoOn(c, p, run, actions, phases, s, phase, EndCycle);
    run, actions, phases, s, phase := GoOn(c, p, run, actions, phases, s, phase, Tick(p.loopWait));
    run, actions, phases, s, phase := GoOn(c, p, run, actions, phases, s, phase, Wake);
    if p.roundTime > p.loopWait {
      run, actions, phases, s, phase := GoOn(c, p, run, actions, phases, s, phase, StartRound);
      run, actions, phases, s, phase := GoOn(c, p, run, actions, phases, s, phase, Accept("standby"));
      run, actions, phases, s, phase := GoOn(c, p, run, actions, phases, s, phase, Tick(s.now + p.roundTime));
      run, actions, phases, s, phase := GoOn(c, p, run, actions, phases, s, phase, FinishRound);
      run, actions, phases, s, phase := GoOn(c, p, run, actions, phases, s, phase, Wake);
    }
    run, actions, phases := LateCycle(p, ttl, run, actions, phases, s, phase);
  }

  /** The pace that a configuration sets. */
  function PaceOf(config: T.Config, roundTime: nat): Pace
    requires T.AboveMinima(config)
  {
    Pace(T.Value(config, T.LoopWait), T.Value(config, T.RetryTimeout), roundTime)
  }

  /** Each round begins by the end of the lease. */
  ghost predicate RoundsBeginInTime(c: Config, run: seq<System>, phases: seq<Phase>) {
    |phases| == |run| &&
    forall i :: 0 <= i < |run| && run[i].running && phases[i].Polling? ==> phases[i].start <= run[i].anchor + c.ttl
  }

  lemma PacedRoundsBeginInTime(c: Config, p: Pace, run: seq<System>, actions: seq<Action>, phases: seq<Phase>)
    requires IsPacedRun(c, p, run, actions, phases) && p.Gap() + 2 * p.retryTimeout <= c.ttl
    ensures RoundsBeginInTime(c, run, phases)
  {
    RunKeepsPace(c, p, run, actions, phases);
    forall i | 0 <= i < |run| && run[i].running && phases[i].Polling?
      ensures phases[i].start <= run[i].anchor + c.ttl
    {
      assert InPace(p, run[i], phases[i]);
    }
  }

  /** Adjusted timeouts, and rounds no longer than the interval: the primary begins them by the
      end of its lease, and failsafe mode keeps one primary exactly if the rule that was adjusted
      to leaves room for the round. */
  lemma AdjustedTimeoutsKeepOnePrimary(before: T.Config, after: T.Config, roundTime: nat)
    requires T.IsAdjusted(before, after) && roundTime <= T.Value(after, T.LoopWait)
    ensures var p, ttl := PaceOf(after, roundTime), T.Value(after, T.Ttl);
            && (forall c: Config, run, actions, phases | c.ttl == ttl && IsPacedRun(c, p, run, actions, phases) ::
                  RoundsBeginInTime(c, run, phases))
            && ((forall c: Config, run, actions, phases | c.ttl == ttl && IsPacedRun(c, p, run, actions, phases) ::
                   KeepsLock(c, run)) <==>
                T.Value(after, T.LoopWait) + 2 * T.Value(after, T.RetryTimeout) + roundTime < ttl)
  {
    var p, ttl := PaceOf(after, roundTime), T.Value(after, T.Ttl);
    BudgetForRounds(p, ttl);
    forall c: Config, run, actions, phases | c.ttl == ttl && IsPacedRun(c, p, run, actions, phases)
      ensures RoundsBeginInTime(c, run, phases)
    {
      PacedRoundsBeginInTime(c, p, run, actions, phases);
    }
  }
}
