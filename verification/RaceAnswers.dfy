/** What the race and the test before giving up the lock answer, in terms of the fields that
    nodes report and nothing else. */
module RaceAnswers {
  import opened Names
  import opened Wrappers
  import opened Race
  import opened RaceProperties

  // ---------------------------------------------------------------- who is asked

  /** In the race: every other node with an API, and of those that must not be promoted the ones
      that have a vote in quorum mode. */
  lemma PolledIff(r: Racer, members: seq<Member>, m: Member)
    ensures m in Polled(r, members) <==>
            && m in members && m.name != r.name && m.hasApi
            && (m.nofailover ==> r.quorumMode && r.sync.leader.Some? && m.name in {r.sync.leader.value} + r.sync.voters)
  {
    PolledIsNotSelf(r, members);
  }

  /** Before giving up the lock: every other node with an API that may be promoted; in
      synchronous mode only voters, but for a failover that names no leader; and a named
      candidate alone, or everybody but that one. */
  lemma CandidatesIff(r: Racer, failover: Option<FailoverKey>, exclude: bool, members: seq<Member>, m: Member)
    ensures m in Candidates(r, failover, exclude, members) <==>
            && m in members && m.name != r.name && m.hasApi && !m.nofailover
            && (r.syncMode && r.sync.leader.Some? && (failover.None? || failover.value.leader.Some?) ==>
                  m.name in r.sync.voters)
            && (failover.Some? && failover.value.candidate.Some? ==>
                  (failover.value.candidate.value == m.name <==> !exclude))
  {
    CandidatesAreEligible(r, failover, exclude, members);
  }

  lemma {:induction false} CandidatesAreEligible(r: Racer, failover: Option<FailoverKey>, exclude: bool,
      members: seq<Member>)
    ensures forall m :: m in Candidates(r, failover, exclude, members) <==>
        m in members && IsCandidate(r, failover, exclude, m)
  {
    if members != [] { CandidatesAreEligible(r, failover, exclude, members[1..]); }
  }

  // ---------------------------------------------------------------- who passes

  /** A node that can be reached and may be promoted. */
  predicate Counts(st: Status) { st.reachable && !st.nofailover && !st.watchdogFailed }

  /** Distinct members of `/sync`: the node itself, or others that reported a positive position no
      later than its own. */
  ghost predicate AreBackers(r: Racer, statuses: seq<Status>, backers: set<Name>)
    requires r.sync.leader.Some?
  {
    && backers <= {r.sync.leader.value} + r.sync.voters
    && forall x <- backers :: x == r.name || IsBacker(r, statuses, x)
  }

  ghost predicate IsBacker(r: Racer, statuses: seq<Status>, x: Name) {
    exists i :: 0 <= i < |statuses| && statuses[i].name == x && Counts(statuses[i]) &&
                0 < statuses[i].position <= r.position
  }

  /** In quorum mode a node passes with more backers than the quorum, or as the leader in `/sync`
      if nobody that counts is ahead. */
  lemma QuorumIsMetIff(r: Racer, statuses: seq<Status>)
    requires r.quorumMode && r.sync.leader.Some?
    ensures WinsByVotes(r, statuses) <==>
            exists backers :: AreBackers(r, statuses, backers) && |backers| >= r.sync.quorum + 1
    ensures WinsAsFormerLeader(r, statuses) <==>
            && r.sync.leader.value == r.name
            && forall i :: 0 <= i < |statuses| && Counts(statuses[i]) ==> statuses[i].position <= r.position
  {
    SupportersAreBackers(r, statuses);
    forall backers | AreBackers(r, statuses, backers) ensures |backers| <= |Supporters(r, statuses)| {
      BackersAreSupporters(r, statuses, backers);
    }
    hide Supporters, AreBackers;
  }

  lemma SupportersAreBackers(r: Racer, statuses: seq<Status>)
    requires r.quorumMode && r.sync.leader.Some?
    ensures AreBackers(r, statuses, Supporters(r, statuses))
  {
    NamesWhereMeans(statuses, Votes(r));
    VotesAreReal(r, statuses);
    forall x <- Supporters(r, statuses) ensures x == r.name || IsBacker(r, statuses, x) {
      if x != r.name {
        var i :| 0 <= i < |statuses| && statuses[i].name == x && Votes(r)(statuses[i]);
      }
    }
  }

  lemma BackersAreSupporters(r: Racer, statuses: seq<Status>, backers: set<Name>)
    requires r.quorumMode && r.sync.leader.Some? && AreBackers(r, statuses, backers)
    ensures backers <= Supporters(r, statuses) && |backers| <= |Supporters(r, statuses)|
  {
    NamesWhereMeans(statuses, Votes(r));
    forall x <- backers ensures x in Supporters(r, statuses) {
      if x != r.name {
        var i :| 0 <= i < |statuses| && statuses[i].name == x && Counts(statuses[i]) &&
                 0 < statuses[i].position <= r.position;
        assert Votes(r)(statuses[i]);
      }
    }
    SubsetSize(backers, Supporters(r, statuses));
  }

  /** A node passes the race if and only if it is recent itself, on a timeline it knows and that
      is not old, where that is checked; no node that counts runs as a primary, is ahead (but
      for the leader in `/sync`, in synchronous mode) or is level with a higher priority (but for
      the former leader, and in quorum mode for nodes without a vote); and the quorum is met. */
  lemma HealthiestIff(r: Racer, statuses: seq<Status>, checkLag: bool, leader: Option<Name>)
    ensures Healthiest(r, statuses, checkLag, leader) <==>
            && (checkLag ==> r.publishedLsn - r.position <= r.maximumLag)
            && (r.timelineChecked ==> r.timeline.Some? && r.timeline.value >= r.clusterTimeline)
            && (forall i :: 0 <= i < |statuses| && Counts(statuses[i]) ==>
                  var st := statuses[i];
                  && st.inRecovery != Some(false)
                  && (st.position > r.position ==> r.syncMode && r.sync.leader == Some(st.name))
                  && (st.position == r.position > 0 && st.priority > r.priority ==>
                        || (r.syncMode && r.sync.leader.Some? && r.sync.leader.value == st.name)
                        || (!(r.syncMode && r.sync.leader.Some?) && leader == Some(st.name))
                        || (r.quorumMode && r.sync.leader.Some? && st.name !in {r.sync.leader.value} + r.sync.voters)))
            && (r.quorumMode && r.sync.leader.Some? ==> WinsByVotes(r, statuses) || WinsAsFormerLeader(r, statuses))
  {
    hide WinsByVotes, WinsAsFormerLeader;
    var former := FormerLeader(r, leader);
    if forall i :: 0 <= i < |statuses| ==> !Vetoes(r, former, statuses[i]) {
      forall i | 0 <= i < |statuses| && Counts(statuses[i])
        ensures !Vetoes(r, former, statuses[i]) {}
    }
  }

  // ---------------------------------------------------------------- whether a fail-over is possible

  /** Distinct candidates that count and are good enough: at the position given or, if none is
      given, behind what is published by no more than is tolerated; and on a timeline that is
      known and not old, where that is checked. */
  ghost predicate AreReady(r: Racer, lsn: int, checkTimeline: bool, statuses: seq<Status>, ready: set<Name>) {
    forall x <- ready :: exists i ::
      0 <= i < |statuses| && statuses[i].name == x && GoodEnough(r, lsn, checkTimeline, statuses[i])
  }

  predicate GoodEnough(r: Racer, lsn: int, checkTimeline: bool, st: Status) {
    && Counts(st)
    && (lsn != 0 ==> st.position >= lsn)
    && (lsn == 0 ==> r.publishedLsn - st.position <= r.maximumLag)
    && (checkTimeline ==> st.timeline != 0 && st.timeline >= r.clusterTimeline)
  }

  /** A fail-over is possible if and only if there is such a candidate; and in quorum mode, unless
      one candidate is named and asked for, if there are more of them than the quorum. */
  lemma FailoverPossibleIff(r: Racer, failover: Option<FailoverKey>, exclude: bool, lsn: int, checkTimeline: bool,
      statuses: seq<Status>)
    ensures FailoverPossible(r, failover, exclude, lsn, checkTimeline, statuses) <==>
            exists ready :: AreReady(r, lsn, checkTimeline, statuses, ready) && |ready| >= 1 &&
              ((r.quorumMode && r.sync.leader.Some? &&
                (exclude || failover.None? || failover.value.candidate.None?)) ==>
                 |ready| >= r.sync.quorum + 1)
  {
    var names := NamesWhere(statuses, Ready(r, lsn, checkTimeline));
    NamesWhereMeans(statuses, Ready(r, lsn, checkTimeline));
    forall x <- names
      ensures exists i :: 0 <= i < |statuses| && statuses[i].name == x && GoodEnough(r, lsn, checkTimeline, statuses[i])
    {
      var i :| 0 <= i < |statuses| && statuses[i].name == x && Ready(r, lsn, checkTimeline)(statuses[i]);
      assert GoodEnough(r, lsn, checkTimeline, statuses[i]);
    }
    assert AreReady(r, lsn, checkTimeline, statuses, names);
    forall ready | AreReady(r, lsn, checkTimeline, statuses, ready) ensures ready <= names && |ready| <= |names| {
      forall x <- ready ensures x in names {
        var i :| 0 <= i < |statuses| && statuses[i].name == x && GoodEnough(r, lsn, checkTimeline, statuses[i]);
        assert Ready(r, lsn, checkTimeline)(statuses[i]);
      }
      SubsetSize(ready, names);
    }
  }
}
