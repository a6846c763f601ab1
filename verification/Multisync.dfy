/** Synchronous replication with one or more standbys (patroni/ha.py): the order in which
    `/sync` and `synchronous_standby_names` are written. */
module Multisync {
  import opened Names

  /** `/sync` names the leader and the standbys that may be promoted; the primary waits for
      `numsync` of `sync`. */
  datatype Settings = Settings(leader: Name, voters: set<Name>, sync: set<Name>, numsync: int)

  /** Whoever may be promoted is waited for. */
  predicate Ordered(x: Settings) { x.voters <= x.sync }

  /** What the primary observes: the nodes it wants to sync, and those of them known to be
      synchronous. */
  datatype Observed = Observed(picked: set<Name>, confirmed: set<Name>)

  /** The synchronous nodes are among those synced and those wanted. */
  predicate Sound(o: Observed, sync: set<Name>) {
    o.confirmed <= o.picked && o.confirmed <= sync
  }

  /** Those who are synchronous in the end: the primary looks again if some were not. */
  function CaughtUp(o: Observed, later: set<Name>): set<Name> {
    if o.picked != {} && o.confirmed != o.picked then later else o.confirmed
  }

  const WILDCARD: Name := "*"

  ghost predicate AllOrdered(trail: seq<Settings>) {
    forall i :: 0 <= i < |trail| ==> Ordered(trail[i])
  }

  /** Whoever newly gets a vote was seen to be synchronous. */
  predicate Vouched(x: Settings, first: Settings, o: Observed, later: set<Name>) {
    x.voters == first.voters || x.voters <= o.confirmed || x.voters <= later
  }

  ghost predicate AllVouched(trail: seq<Settings>, first: Settings, o: Observed, later: set<Name>) {
    forall i :: 0 <= i < |trail| ==> Vouched(trail[i], first, o, later)
  }

  /** Before the `changed`-th state the primary waits for the nodes it did at first; from there on
      all states are ordered, whatever was found. */
  ghost predicate OrderedFrom(trail: seq<Settings>, changed: nat, first: Settings) {
    && (forall i :: 0 <= i < |trail| && i < changed ==> trail[i].sync == first.sync)
    && (forall i :: changed <= i < |trail| ==> Ordered(trail[i]))
  }

  /** One write changes one of the two settings. */
  predicate OneSided(a: Settings, b: Settings) {
    (a.sync == b.sync && a.numsync == b.numsync) || (a.leader == b.leader && a.voters == b.voters)
  }

  ghost predicate IsTrail(trail: seq<Settings>, first: Settings, last: Settings) {
    && trail != [] && trail[0] == first && trail[|trail| - 1] == last
    && forall i :: 0 <= i < |trail| - 1 ==> OneSided(trail[i], trail[i + 1])
  }

  lemma TrailGrows(trail: seq<Settings>, first: Settings, a: Settings, b: Settings, o: Observed, later: set<Name>)
    requires IsTrail(trail, first, a) && OneSided(a, b)
    ensures AllVouched(trail, first, o, later) && Vouched(b, first, o, later) ==>
        AllVouched(trail + [b], first, o, later)
    ensures IsTrail(trail + [b], first, b)
    ensures forall changed: nat | changed <= |trail| && Ordered(b) && OrderedFrom(trail, changed, first) ::
        OrderedFrom(trail + [b], changed, first)
    ensures OrderedFrom(trail, |trail|, first) && b.sync == first.sync ==> OrderedFrom(trail + [b], |trail| + 1, first)
    ensures AllOrdered(trail) && Ordered(b) ==> AllOrdered(trail + [b])
    ensures AllOrdered(trail) ==> Ordered(a)
  {}

  class Primary {
    const name: Name
    var settings: Settings

    constructor (name: Name, settings: Settings)
      ensures this.name == name && this.settings == settings
    {
      this.name, this.settings := name, settings;
    }

    /** Atomic compare-and-set of `/sync`: fails if another node has changed it. */
    method WriteSyncState(voters: set<Name>, outdated: bool) returns (written: bool)
      modifies this
      ensures written == !outdated
      ensures settings == if written then old(settings).(leader := name, voters := voters) else old(settings)
    {
      written := !outdated;
      if written { settings := settings.(leader := name, voters := voters); }
    }

    /** Without a number all the nodes are waited for. */
    method SetSynchronousStandbyNames(sync: set<Name>)
      modifies this
      ensures settings == old(settings).(sync := sync, numsync := |sync|)
    {
      settings := settings.(sync := sync, numsync := |sync|);
    }

    /** The first half: correct `/sync` where it disagrees with what is observed. */
    method CorrectSyncKey(o: Observed, outdated: nat -> bool, ghost later: set<Name>)
      returns (failed: bool, ghost trail: seq<Settings>)
      requires Sound(o, settings.sync)
      modifies this
      ensures IsTrail(trail, old(settings), settings)
      ensures settings.sync == old(settings).sync && settings.numsync == old(settings).numsync
      ensures OrderedFrom(trail, |trail|, old(settings))
      ensures Ordered(old(settings)) ==> AllOrdered(trail)
      ensures AllVouched(trail, old(settings), o, later)
      ensures !failed && o.picked == {} ==>
                (settings.voters == {} <==> old(settings).leader != name || old(settings).voters == {})
      ensures old(settings).leader != name && |trail| > 1 ==> trail[1] == old(settings).(leader := name, voters := {})
      ensures !failed ==>
                var kept := if old(settings).leader != name && o.picked != {} then {} else old(settings).voters;
                settings.voters * o.confirmed == kept * o.confirmed
      ensures !failed ==> settings.leader == name && (settings.voters == o.picked ==> o.confirmed == o.picked)
      ensures failed ==> exists i :: outdated(i)
    {
      trail, failed := [settings], false;
      if name != settings.leader {
        var written := WriteSyncState({}, outdated(0));
        if !written { return true, trail; }
        trail := trail + [settings];
      }
      if o.picked == settings.voters && settings.voters != o.confirmed {
        var written := WriteSyncState(o.confirmed, outdated(1));
        if !written { return true, trail; }
        trail := trail + [settings];
      }
    }

    /** Nobody is synced, nobody has a vote, and that is what is stored. */
    predicate NothingToWrite(x: Settings) {
      x.sync == {} && x.numsync == 0 && (x.leader != name || x.voters == {})
    }

    /** `_process_multisync_replication`. `outdated(i)` says whether the i-th write of `/sync`
        fails; `later` is who is synchronous when the primary looks again.

        Every state passed through is ordered, if the first one is, even if a write fails; and
        whatever was found, it is ordered from `changed` on, where the primary is made to wait
        for other nodes.
        Whoever gets a vote was seen to be synchronous. If no write fails, the primary waits
        for what was picked, and those that have caught up may be promoted. */
    method ProcessMultisyncReplication(o: Observed, strict: bool, outdated: nat -> bool, later: set<Name>)
      returns (ghost trail: seq<Settings>, ghost changed: nat)
      requires Sound(o, settings.sync) && WILDCARD !in o.picked
      requires later <= o.picked  // once these are what the primary waits for
      modifies this
      ensures IsTrail(trail, old(settings), settings)
      ensures Ordered(old(settings)) ==> AllOrdered(trail)
      ensures OrderedFrom(trail, changed, old(settings))
      ensures changed < |trail| ==> trail[changed].sync in {o.picked, {WILDCARD}}
      ensures AllVouched(trail, old(settings), o, later)
      ensures (forall i :: !outdated(i)) ==>
        && settings.leader == name
        && settings.numsync == |settings.sync|
        && settings.sync == (if strict && o.picked == {} &&
             !NothingToWrite(old(settings)) then {WILDCARD} else o.picked)
        && settings.voters == (if CaughtUp(o, later) != {} then CaughtUp(o, later)
                               else if old(settings).leader != name then {} else old(settings).voters * o.confirmed)
    {
      hide IsTrail, AllOrdered, AllVouched, OrderedFrom;
      ghost var first := settings;
      var failed;
      failed, trail := CorrectSyncKey(o, outdated, later);
      changed := |trail|;
      if failed { return; }
      var picked, allowPromote, voters := o.picked, o.confirmed, settings.voters;
      if picked == voters == settings.sync && settings.numsync == |picked| { return; }

      var common := voters * allowPromote;
      if common != voters {
        ghost var before := settings;
        var written := WriteSyncState(common, outdated(2));
        if !written { return; }
        TrailGrows(trail, first, before, settings, o, later);
        trail := trail + [settings];
        changed := |trail|;
      }
      if strict && picked == {} { picked := {WILDCARD}; }
      ghost var before := settings;
      SetSynchronousStandbyNames(picked);
      TrailGrows(trail, first, before, settings, o, later);
      trail := trail + [settings];
      if picked != {} && picked != {WILDCARD} && allowPromote != picked { allowPromote := later; }
      if allowPromote != {} && allowPromote != common {
        before := settings;
        var written := WriteSyncState(allowPromote, outdated(3));
        TrailGrows(trail, first, before, settings, o, later);
        if written { trail := trail + [settings]; }
      }
    }
  }
}
