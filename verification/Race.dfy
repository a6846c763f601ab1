/** The leader race (patroni/ha.py): whether a node may promote, given what the other nodes
    answer, and whether a leader may give up its lock. WAL positions are integers. */
module Race {
  import opened Names
  import opened Wrappers

  /** `/sync` as read from the DCS; it is empty when it has no leader. */
  datatype SyncKey = SyncKey(leader: Option<Name>, voters: set<Name>, quorum: int) {
    function Members(): set<Name> {
      if leader.None? then {} else {leader.value} + voters
    }
    predicate LeaderIs(name: Name) { leader == Some(name) }
  }

  /** A node as registered in the DCS. */
  datatype Member = Member(name: Name, hasApi: bool, nofailover: bool)

  /** A node's answer to a status request; an unreachable node has answered nothing. */
  datatype Status = Status(
    name: Name, reachable: bool, nofailover: bool, watchdogFailed: bool,
    inRecovery: Option<bool>, position: int, priority: int, timeline: int)
  {
    /** `failover_limitation()` is None. */
    predicate MayPromote() { reachable && !nofailover && !watchdogFailed }
  }

  /** What the node that races knows of itself and of the cluster. */
  datatype Racer = Racer(
    name: Name, position: int, priority: int,
    publishedLsn: int, maximumLag: int,
    timelineChecked: bool, timeline: Option<int>, clusterTimeline: int,
    syncMode: bool, quorumMode: bool, sync: SyncKey)
  {
    predicate SyncActive() { syncMode && sync.leader.Some? }
    predicate QuorumActive() { quorumMode && sync.leader.Some? }
    predicate IsLagging(p: int) { publishedLsn - p > maximumLag }

    function VotingSet(): set<Name> { if QuorumActive() then sync.Members() else {} }
    function RequiredVotes(): int { if QuorumActive() then sync.quorum else 0 }
  }

  /** The nodes whose status is asked for. */
  predicate IsPolled(r: Racer, m: Member) {
    m.name != r.name && m.hasApi && (!m.nofailover || m.name in r.VotingSet())
  }

  function Polled(r: Racer, members: seq<Member>): seq<Member> {
    if members == [] then []
    else (if IsPolled(r, members[0]) then [members[0]] else []) + Polled(r, members[1..])
  }

  function NamesOf(members: seq<Member>): set<Name> {
    set j | 0 <= j < |members| :: members[j].name
  }

  /** One answer for each node asked, in whatever order they came in. */
  ghost predicate Answers(members: seq<Member>, statuses: seq<Status>) {
    && Distinct(statuses)
    && (forall i :: 0 <= i < |statuses| ==> statuses[i].name in NamesOf(members))
    && (forall n :: n in NamesOf(members) ==> exists i :: 0 <= i < |statuses| && statuses[i].name == n)
  }

  ghost predicate Distinct(statuses: seq<Status>) {
    forall i, j :: 0 <= i < j < |statuses| ==> statuses[i].name != statuses[j].name
  }

  /** The former leader, whose priority does not count. */
  function FormerLeader(r: Racer, leader: Option<Name>): Option<Name> {
    if r.SyncActive() then r.sync.leader else leader
  }

  predicate IsAhead(r: Racer, st: Status) { st.MayPromote() && r.position < st.position }

  predicate IsVote(r: Racer, st: Status) {
    st.MayPromote() && 0 < st.position <= r.position && st.name in r.VotingSet()
  }

  /** An answer that ends the race for the asking node. */
  predicate Vetoes(r: Racer, former: Option<Name>, st: Status) {
    st.MayPromote() &&
    ( || st.inRecovery == Some(false)
      || (r.position < st.position && !(r.SyncActive() && r.sync.LeaderIs(st.name)))
      || (&& 0 < st.position == r.position && r.priority < st.priority
          && former != Some(st.name)
          && (!r.QuorumActive() || st.name in r.VotingSet())))
  }

  /** Conditions on the node itself. */
  predicate FitToRace(r: Racer, checkLag: bool) {
    && !(checkLag && r.IsLagging(r.position))
    && (r.timelineChecked ==> r.timeline.Some? && r.timeline.value >= r.clusterTimeline)
  }

  /** Those counted for the node: itself, if it has a vote, and the answers that are votes. */
  function Supporters(r: Racer, statuses: seq<Status>): set<Name> {
    (if r.name in r.VotingSet() then {r.name} else {}) + Voters(r, statuses)
  }

  function Voters(r: Racer, statuses: seq<Status>): set<Name> {
    NamesWhere(statuses, Votes(r))
  }

  function Votes(r: Racer): Status -> bool {
    st => IsVote(r, st)
  }

  function NamesWhere(statuses: seq<Status>, p: Status -> bool): set<Name> {
    if statuses == [] then {}
    else
      var last := statuses[|statuses| - 1];
      NamesWhere(statuses[..|statuses| - 1], p) + (if p(last) then {last.name} else {})
  }

  lemma {:induction false} NamesWhereMeans(statuses: seq<Status>, p: Status -> bool)
    ensures forall x :: x in NamesWhere(statuses, p) <==>
              exists i :: 0 <= i < |statuses| && statuses[i].name == x && p(statuses[i])
  {
    if statuses != [] {
      var n := |statuses| - 1;
      NamesWhereMeans(statuses[..n], p);
      forall x ensures x in NamesWhere(statuses, p) <==>
                exists i :: 0 <= i < |statuses| && statuses[i].name == x && p(statuses[i])
      {
        if x in NamesWhere(statuses[..n], p) {
          var i :| 0 <= i < n && statuses[..n][i].name == x && p(statuses[..n][i]);
          assert statuses[i].name == x && p(statuses[i]);
        }
        if i :| 0 <= i < |statuses| && statuses[i].name == x && p(statuses[i]) {
          if i < n { assert statuses[..n][i].name == x && p(statuses[..n][i]); }
        }
      }
    }
  }

  /** One more answer adds its name, and no name twice. */
  lemma NamesWhereGrow(statuses: seq<Status>, p: Status -> bool, n: nat)
    requires n < |statuses| && Distinct(statuses)
    ensures NamesWhere(statuses[..n + 1], p) ==
        NamesWhere(statuses[..n], p) + (if p(statuses[n]) then {statuses[n].name} else {})
    ensures statuses[n].name !in NamesWhere(statuses[..n], p)
  {
    var xs, ys := statuses[..n], statuses[..n + 1];
    assert ys[..n] == xs;
    NamesWhereMeans(xs, p);
  }

  /** A node wins by votes: more of the voting set support it than the quorum leaves out. */
  predicate WinsByVotes(r: Racer, statuses: seq<Status>) {
    |Supporters(r, statuses)| > r.RequiredVotes()
  }

  /** A node wins as the former leader: nobody reached is ahead of it. */
  predicate WinsAsFormerLeader(r: Racer, statuses: seq<Status>) {
    r.sync.LeaderIs(r.name) && forall i :: 0 <= i < |statuses| ==> !IsAhead(r, statuses[i])
  }

  /** What `_is_healthiest_node` decides, whatever the order of the answers. */
  predicate Healthiest(r: Racer, statuses: seq<Status>, checkLag: bool, leader: Option<Name>) {
    && FitToRace(r, checkLag)
    && (forall i :: 0 <= i < |statuses| ==> !Vetoes(r, FormerLeader(r, leader), statuses[i]))
    && (r.QuorumActive() ==> WinsByVotes(r, statuses) || WinsAsFormerLeader(r, statuses))
  }

  lemma SupportersGrow(r: Racer, statuses: seq<Status>, n: nat)
    requires n < |statuses| && Distinct(statuses) && statuses[n].name != r.name
    ensures |Supporters(r, statuses[..n + 1])| ==
            |Supporters(r, statuses[..n])| + (if IsVote(r, statuses[n]) then 1 else 0)
  {
    NamesWhereGrow(statuses, Votes(r), n);
    assert Supporters(r, statuses[..n + 1]) ==
           Supporters(r, statuses[..n]) + (if IsVote(r, statuses[n]) then {statuses[n].name} else {});
  }

  lemma NobodyAskedYet(r: Racer)
    ensures |Supporters(r, [])| == if r.name in r.VotingSet() then 1 else 0
  {
  }

  /** `_is_healthiest_node`. The answers may have come in any order. */
  method IsHealthiestNode(r: Racer, members: seq<Member>, statuses: seq<Status>, checkLag: bool, leader: Option<Name>)
    returns (healthiest: bool)
    requires Answers(Polled(r, members), statuses)
    ensures healthiest == Healthiest(r, statuses, checkLag, leader)
  {
    hide Answers, Supporters, Polled;
    if checkLag && r.IsLagging(r.position) { return false; }
    if r.timelineChecked {
      if r.timeline.None? { return false; }
      if r.timeline.value < r.clusterTimeline { return false; }
    }
    var quorum, votingSet := 0, {};
    if r.QuorumActive() {
      quorum, votingSet := r.sync.quorum, r.sync.Members();
    }
    var quorumVotes := if r.name in votingSet then 0 else -1;
    var nodesAhead := 0;
    var leaderName := if r.SyncActive() then r.sync.leader else leader;
    NobodyAskedYet(r);
    assert statuses[..0] == [];
    for i := 0 to |statuses|
      invariant forall j :: 0 <= j < i ==> !Vetoes(r, leaderName, statuses[j])
      invariant quorumVotes == |Supporters(r, statuses[..i])| - 1
      invariant nodesAhead >= 0
      invariant nodesAhead == 0 <==> forall j :: 0 <= j < i ==> !IsAhead(r, statuses[j])
    {
      var st := statuses[i];
      AnswersAreNotSelf(r, members, statuses, i);
      SupportersGrow(r, statuses, i);
      if st.MayPromote() {
        if st.inRecovery == Some(false) {
          return false;
        }
        if r.position < st.position {
          nodesAhead := nodesAhead + 1;
          if !r.SyncActive() || !r.sync.LeaderIs(st.name) {
            return false;
          }
        } else if st.position > 0 {
          var quorumVote := st.name in votingSet;
          var lowPriority := r.position == st.position && r.priority < st.priority;
          if lowPriority && leaderName == Some(st.name) {
            lowPriority := false;
          }
          if lowPriority && (!r.QuorumActive() || quorumVote) {
            return false;
          }
          if quorumVote {
            quorumVotes := quorumVotes + 1;
          }
        }
      }
    }
    assert statuses[..|statuses|] == statuses;
    return !r.QuorumActive() || quorumVotes >= quorum || (nodesAhead == 0 && r.sync.LeaderIs(r.name));
  }

  lemma AnswersAreNotSelf(r: Racer, members: seq<Member>, statuses: seq<Status>, i: nat)
    requires Answers(Polled(r, members), statuses) && i < |statuses|
    ensures Distinct(statuses) && statuses[i].name != r.name
  {
    PolledIsNotSelf(r, members);
    var polled := Polled(r, members);
    assert statuses[i].name in NamesOf(polled);
    var j :| 0 <= j < |polled| && polled[j].name == statuses[i].name;
    assert polled[j] in polled;
  }

  lemma {:induction false} PolledIsNotSelf(r: Racer, members: seq<Member>)
    ensures forall m <- Polled(r, members) :: IsPolled(r, m) && m in members
    ensures forall m <- members :: IsPolled(r, m) ==> m in Polled(r, members)
  {
    if members != [] { PolledIsNotSelf(r, members[1..]); }
  }

  // ---------------------------------------------------------------- giving up the lock

  /** The `/failover` key. */
  datatype FailoverKey = FailoverKey(leader: Option<Name>, candidate: Option<Name>)

  /** `get_failover_candidates`: who may be asked to take over from node `r`. */
  predicate IsCandidate(r: Racer, failover: Option<FailoverKey>, exclude: bool, m: Member) {
    && !(r.SyncActive() && m.name !in r.sync.voters && !(failover.Some? && failover.value.leader.None?))
    && m.name != r.name
    && !(failover.Some? && exclude && failover.value.candidate == Some(m.name))
    && !m.nofailover && m.hasApi
    && (exclude || failover.None? || failover.value.candidate.None? || failover.value.candidate == Some(m.name))
  }

  function Candidates(r: Racer, failover: Option<FailoverKey>, exclude: bool, members: seq<Member>): seq<Member> {
    if members == [] then []
    else (if IsCandidate(r, failover, exclude, members[0]) then [members[0]] else []) +
         Candidates(r, failover, exclude, members[1..])
  }

  /** A candidate good enough to take over. A given `lsn` is to be reached exactly; without
      one, the published position less the tolerated lag is. */
  predicate IsReady(r: Racer, lsn: int, checkTimeline: bool, st: Status) {
    && st.MayPromote()
    && (if lsn != 0 then st.position >= lsn else !r.IsLagging(st.position))
    && (checkTimeline ==> st.timeline != 0 && st.timeline >= r.clusterTimeline)
  }

  function Ready(r: Racer, lsn: int, checkTimeline: bool): Status -> bool {
    st => IsReady(r, lsn, checkTimeline, st)
  }

  predicate ChecksQuorum(r: Racer, failover: Option<FailoverKey>, exclude: bool) {
    r.QuorumActive() && !(failover.Some? && failover.value.candidate.Some? && !exclude)
  }

  /** What `is_failover_possible` decides. */
  predicate FailoverPossible(r: Racer, failover: Option<FailoverKey>, exclude: bool, lsn: int, checkTimeline: bool,
      statuses: seq<Status>) {
    var ready := NamesWhere(statuses, Ready(r, lsn, checkTimeline));
    ready != {} && (ChecksQuorum(r, failover, exclude) ==> |ready| > r.sync.quorum)
  }

  /** `is_failover_possible`. */
  method IsFailoverPossible(r: Racer, failover: Option<FailoverKey>, exclude: bool, members: seq<Member>,
                            lsn: int, checkTimeline: bool, statuses: seq<Status>) returns (possible: bool)
    requires Answers(Candidates(r, failover, exclude, members), statuses)
    ensures possible == FailoverPossible(r, failover, exclude, lsn, checkTimeline, statuses)
  {
    hide Candidates;
    var quorumVotes := -1;
    ghost var p := Ready(r, lsn, checkTimeline);
    assert statuses[..0] == [];
    for i := 0 to |statuses|
      invariant quorumVotes == |NamesWhere(statuses[..i], p)| - 1
    {
      var st := statuses[i];
      NamesWhereGrow(statuses, p, i);
      var late := if lsn != 0 then st.position < lsn else r.IsLagging(st.position);
      var behind := checkTimeline && (st.timeline == 0 || st.timeline < r.clusterTimeline);
      if st.MayPromote() && !late && !behind {
        quorumVotes := quorumVotes + 1;
      }
    }
    assert statuses[..|statuses|] == statuses;
    if ChecksQuorum(r, failover, exclude) && quorumVotes < r.sync.quorum { return false; }
    return quorumVotes >= 0;
  }
}
