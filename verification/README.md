# Patroni in Dafny

This project models the protocols by which Patroni keeps a PostgreSQL cluster from losing
commits and from having two primaries, and proves what they promise.

- **Quorum commit** (`Quorum*.dfy`, `Names.dfy`). Two settings are stored apart: the `/sync` key
  (leader, quorum, voters) and `synchronous_standby_names` (numsync, sync). A resolver moves them
  to a target in one-sided steps, and its caller may stop after any of them. `QuorumResolver` has
  the resolver as a class whose methods change its fields step by step; each is proved equal to a
  function of `Quorum`, and everything else is proved about those functions, over all finite sets
  of nodes and all numbers. Names are lower-cased values, and the model sorts them as such.
- **The leader race** (`Race*.dfy`): whether a node may promote, and whether a leader may give up
  its lock. `QuorumCommit` puts race, promotion and resolver together into runs of the cluster,
  and `QuorumElections` follows a commit over a history of elections.
- **Failsafe mode** (`Failsafe.dfy`, `Timeouts.dfy`): one primary while the DCS is out of reach, as
  timed steps, and the time budget it relies on.
- **Write order with several synchronous standbys** (`Multisync.dfy`).
- **Side cores**: the replica tree that `patronictl` prints (`Topology.dfy`), values with units
  (`Units.dfy`), `Retry` (`Retry.dfy`), the executor of long tasks in every interleaving
  (`AsyncExecutor.dfy`), configuration trees (`ConfigTree.dfy`), and the case-insensitive set
  (`Collections.dfy`). `Wrappers.dfy` has the optional value.

WAL positions and times are integers. Clocks, jitter, answers of other nodes, the outcome of DCS
writes and what PostgreSQL reports are parameters, quantified over in the theorems.

The DCS backends, the handler of `synchronous_standby_names` and the PostgreSQL handlers are not
part of this model. It relies on the following: a write of `/sync` is an atomic compare-and-set; a
lock expires `ttl` after its renewal; the members of `/sync` are its leader and its voters; the
nodes reported as active do not include the primary itself; confirmed nodes are active and synced.

## What the proofs show about the code

Where a promise does not hold of the code, the code is kept, and the exact condition is proved.

- `patroni/quorum.py:67` speaks of steps from any arbitrary state. The resolver raises, and so
  changes nothing, on some consistent states. `QuorumConvergence.OwnRun` says exactly on which,
  for every well-formed state of a leader that holds `/sync`: `RunRaises`. Well-formed states
  (`QuorumRuns.WellFormed`) ask for at most as many nodes as are synced, and for at least one
  unless the voters are the synced nodes, as after the promotion of a former leader without votes
  (`QuorumElections.FormerLeadersStateIsOwn`). `RunRaises` covers the assertion at
  `patroni/quorum.py:296` (`AlignFails`; an input is in `InterruptedRunRaises`), and the failed
  checks reached from `patroni/quorum.py:361-367` and `patroni/quorum.py:390-393`
  (`RaisesFromPoint`; inputs are in `GrowingRunRaises` and `ShrinkingRunRaises`).
- A run may leave a quorum that is larger than the number of voters, because the adjustment for
  unconfirmed nodes comes after the check of the range (`patroni/quorum.py:185-198`). Then nobody
  can be elected by votes (`QuorumElections.ElectableIff`), and the former leader, which passes
  without votes, prepares its promotion with a negative number of nodes
  (`QuorumElections.OvershootIsReached` gives a run from the optimal state). Exactly when:
  `QuorumConvergence.RunLeavesElectableIff`, `QuorumElections.WinnersCountsAreValidIff`. While
  the same nodes are active, a run corrects it exactly if it finds one of them confirmed and is
  not asked for fewer nodes than are required already (`QuorumConvergence.OvershootIsCorrectedIff`). The theorems on runs include these promotions.
- A take-over raises exactly if the quorum is not 0, equals the number of voters, and the new
  leader was one of them (`QuorumHandover.TakeOverFails`; an input is in `TakeOverMayFail`);
  `TakeOverFailureIsFatal` shows that the repair that follows does not save the run.
- A former leader passes the race without votes if nobody it reaches is ahead. This keeps all
  acknowledged commits exactly if it is still the primary, or too few other nodes are synced to
  acknowledge a commit without it (`QuorumCommit.FormerLeaderExemption`).
- Where timelines are checked, a node on an old timeline that is ahead of all others leaves the
  race without a winner (`patroni/ha.py:1399-1405` keeps it from passing, `patroni/ha.py:1483-1489`
  everybody else; `RaceProperties.StaleNodeBlocksRace`). There is a winner exactly if some unbeaten
  contender is recent (`RaceProperties.RaceHasLevelWinners`).
- Failsafe mode needs a punctual primary (`Failsafe.LatePrimaryIsReplaced`). The rule
  `loop_wait + 2 * retry_timeout <= ttl` lets a loop that does not overrun, and whose rounds take no
  longer than `loop_wait`, begin each round by the end of the lease. On all its runs nobody
  else holds the lock while the primary runs exactly if the lease has room for the round as well,
  strictly (`Failsafe.BudgetForRounds`).
- Scheduling a task while an earlier one or a cancellation is not over may lead to two bodies
  executing at once (`AsyncExecutor.ScheduleIff`), and to a `cancel` that returns while a body
  executes (`AsyncExecutor.CancelMissesIff`; `CancelMissesBody` has a run from the start). Each of
  the two is possible exactly if something before the `schedule` is not over.
- A unit with a large multiplier may not read back: 65536 units of 16384kB print as `1TB`, which
  parses as something else (`Units.LargeMultiplierLoses`; `Units.RoundTripIff` says exactly when).
- `patch_config` removes a key that holds a missing value without reporting a change
  (`ConfigTree.ChangesIff`; an input is in `DroppedNullIsNotReported`), and applied twice it
  differs from once exactly if the first application put a missing value into the tree
  (`ConfigTree.TwiceIff`; an input is in `TwiceMayDiffer`).

## Model

| member | source | states |
|---|---|---|
| QuorumCommit.NoLostCommit | patroni/quorum.py:142-165 | over every run of resolver rounds cut anywhere and of promotions, whatever number of nodes these compute, a node that wins the race by votes holds every commit acknowledged under the settings then in force |
| QuorumElections.NoLostCommitAcrossElections | patroni/ha.py:1078-1112 | a commit acknowledged at the beginning of a history is held by whoever is elected at any later time, over chains of elections and of changes that ask no more of a commit than before |
| QuorumElections.CommitIsKept | patroni/ha.py:1078-1112 | along such a history the commit counts as acknowledged under the settings of each primary in turn |
| QuorumElections.ElectionKeepsAcknowledged | patroni/ha.py:1091-1112 | if a node wins by votes, or as a former leader that is still the primary, at least as many of the nodes it will wait for have the commit as it waits for |
| QuorumElections.ElectableIff | patroni/ha.py:1407-1516 | somebody can pass the race by votes if and only if the quorum is below the number of members of `/sync` |
| QuorumElections.CountIsValidIff | patroni/ha.py:1091-1097 | the number prepared for a promotion is not negative if and only if the members without the winner are as many as the quorum |
| QuorumElections.WinnersCountsAreValidIff | patroni/ha.py:1091-1097 | every node that can win, by votes or as the former leader, prepares a number that is not negative, if and only if somebody can be elected by votes |
| QuorumElections.OvershootIsReached | patroni/quorum.py:390-393 | from the optimal state of five nodes the resolver reaches a quorum of six, where nobody is elected by votes and the former leader prepares for minus one node |
| QuorumElections.FormerLeadersStateIsOwn | patroni/ha.py:1091-1112 | what a former leader prepares that is promoted again, a negative number of nodes included, is a well-formed and consistent state for its resolver |
| QuorumCommit.RunsStaySafe | patroni/ha.py:955-987 | every state of such a run is safe: any quorum + 1 of leader and voters meet the primary and any numsync of its synced nodes |
| QuorumCommit.VotesMeetAcknowledgement | patroni/quorum.py:142-165 | the pigeonhole behind it: among any quorum + 1 members of `/sync` there is a holder of the commit |
| QuorumCommit.ElectedHoldsCommits | patroni/ha.py:1483-1516 | an elected node holds all acknowledged commits, whether it won by votes or is a former leader that is still the primary |
| QuorumCommit.FormerLeaderExemption | patroni/ha.py:1512-1516 | electing the former leader without votes is sound if and only if it is still the primary or fewer than numsync other nodes are synced |
| QuorumCommit.LostByFormerLeader | patroni/ha.py:1512-1516 | otherwise there are answers and positions with which the exempt former leader misses a commit |
| QuorumCommit.VotesLeaveEnoughToSync | patroni/ha.py:1091-1096 | a winner by votes never prepares its promotion with a negative numsync |
| QuorumCommit.PromotionIsSafe | patroni/ha.py:1091-1112 | preparing any promotion keeps the settings safe |
| QuorumCommit.Primary.RunOnce | patroni/ha.py:955-986 | one round leaves exactly the settings that the transitions before the first one given up lead to, and tells whether another round follows |
| QuorumCommit.Primary.ProcessQuorumReplication | patroni/ha.py:931-992 | the loop is the composition of its rounds, up to the first that does not end with a restart in time, and leaves safe settings safe however it ends |
| QuorumCommit.RoundsAreSafe | patroni/ha.py:931-992 | any number of rounds, each given up at any transition by timeout or by a lost race for `/sync`, keeps the settings safe |
| QuorumCommit.UndisturbedRoundReachesTarget | patroni/ha.py:954-987 | a round that nobody stops, on which the resolver finds a live synced node and does not raise, stores the active nodes on both sides, the wanted numsync, the primary as leader, and the stated quorum, with which somebody can be elected if and only if the run does not overshoot |
| QuorumRounds.GoesOnIff | patroni/ha.py:986-992 | a round is followed by another one if and only if its run asks for a restart, all transitions are carried out and there is time; otherwise the call ends with what this round stored |
| QuorumRounds.OwnRoundGoesOnIff | patroni/ha.py:986-992 | the same for a leader that holds `/sync`, as a condition on the nodes it finds |
| QuorumRounds.StopsAtFirst | patroni/ha.py:966-978 | a round stops at the first transition at which the time is up, or which would be stored in a `/sync` changed by another node, and nowhere else |
| QuorumRounds.FirstRound | patroni/ha.py:954-987 | from nothing stored, the first round syncs the active nodes and asks for a restart |
| QuorumRounds.StartWithinOneCall | patroni/ha.py:931-992 | within one call of the loop a second round that finds a node caught up gives all active nodes their votes |
| QuorumSafety.GenerateTracks | patroni/quorum.py:395-437 | along a whole run of the resolver the fields are what replaying the yielded transitions stores, and every state passed through is safe |
| QuorumSafety.RunIsSafe | patroni/quorum.py:235-253 | wherever the caller stops, what is stored is safe, for arbitrary active, confirmed and wanted |
| QuorumSafety.RunIsStored | patroni/quorum.py:235-253 | if no restart was asked for, the stored settings are the resolver's fields at the end |
| QuorumSafety.MergingPreservesMeaning | patroni/quorum.py:235-253 | replaying the merged list reaches the same settings as replaying the collected list up to its first restart |
| QuorumSafety.StoppingEarlyIsSeen | patroni/quorum.py:235-253 | every state seen while replaying a prefix of the merged list is also seen while replaying the collected one |
| QuorumConvergence.OwnRun | patroni/quorum.py:395-437 | for every well-formed state of a leader that holds `/sync`: a run raises if and only if `RunRaises`, and otherwise ends with both sets equal to the active nodes, numsync as wanted and the quorum `LeftQuorum`, or, with no live synced node, in the state that waits for nodes to catch up |
| QuorumEstimates.LeadersEstimate | patroni/quorum.py:424-427 | a leader's run with no node reported confirmed goes on as one told that the live synced nodes are, but no more of them than the voters exceed the quorum |
| QuorumEstimates.ReportedIsKept | patroni/quorum.py:424-427 | a number that is reported, or one with no live synced node, is used as it is |
| QuorumEstimates.NewLeadersEstimate | patroni/quorum.py:424-427 | after a take-over the estimate is that of the settings taken over |
| QuorumEstimates.RepairedEstimate | patroni/quorum.py:418-427 | after a repair it is that of the repaired settings |
| QuorumRestarts.RestartIff | patroni/quorum.py:200-205 | a run that does not raise asks for a restart if and only if it sets out with no live synced node while some node is active |
| QuorumConvergence.RunLeavesElectableIff | patroni/quorum.py:375-393 | a run leaves at most as many votes required as there are voters if and only if it does not overshoot: the factor goes down by more nodes than are confirmed, to more than are confirmed, or the quorum was too large before and is left alone |
| QuorumConvergence.OvershootIsCorrectedIff | patroni/quorum.py:298-311 | a target with too large a quorum is corrected by the next run over the same active nodes if and only if that finds a confirmed node and is not asked for fewer nodes than are required already |
| QuorumConvergence.InterruptedRunRaises | patroni/quorum.py:277-296 | an interrupted state on which the run ends in the assertion |
| QuorumConvergence.ShrinkingRunRaises | patroni/quorum.py:390-393 | a steady state on which lowering the factor raises |
| QuorumConvergence.GrowingRunRaises | patroni/quorum.py:361-367 | a steady state on which adding a node raises |
| QuorumConvergence.SteadyRunIsTotal | patroni/quorum.py:295-393 | from a steady state with all live nodes confirmed, where none joins or numsync already suffices, the whole run raises nothing; if no node is asked for, the quorum is to go with that |
| QuorumConvergence.BrokenStateIsRepaired | patroni/quorum.py:418-422 | a state that violates the invariant and asks for a node is repaired by the first transition, which makes all synced nodes voters and leaves out no more than are confirmed |
| QuorumConvergence.NoRepairWithoutNodes | patroni/quorum.py:418-422 | one that asks for no node is not repaired, and the run raises |
| QuorumConvergence.SecondRunIsOptimal | patroni/quorum.py:300-311 | a second run with everybody confirmed lowers the quorum to the optimal one |
| QuorumConvergence.OptimalIsStable | patroni/quorum.py:395-437 | in the optimal state a run yields nothing and changes nothing |
| QuorumConvergence.BootstrapCompletes | patroni/quorum.py:191-205 | after a start from nothing, the first run that finds a confirmed node gives the nodes their votes |
| QuorumConvergence.ThreeRunsReachOptimum | patroni/quorum.py:51-82 | a run that does not raise, then one with everybody confirmed, reach the optimum, and a third yields nothing |
| QuorumRuns.RunFromPoint | patroni/quorum.py:295-393 | from a state between changes: exactly when a run raises, as a condition on the caller's input, and where it arrives, the quorum included |
| QuorumRuns.OvershootsIff | patroni/quorum.py:375-393 | the quorum left exceeds the number of voters if and only if `Overshoots`, a condition on the counts before the run |
| QuorumRuns.OvershootIsNew | patroni/quorum.py:375-393 | a quorum that is left alone exceeds the voters only if it did before |
| QuorumRuns.AlignRepairs | patroni/quorum.py:255-296 | an interrupted run is repaired if and only if not `AlignFails`, a condition on the two sets, the active nodes and the counts; otherwise exactly the named state is reached |
| QuorumRuns.AddAtPoint | patroni/quorum.py:348-373 | adding nodes raises if and only if there are too few newcomers for the growth of numsync (`TooFew`) and the confirmed nodes do not make up for it; otherwise all active nodes are synced and vote, with the quorum stated |
| QuorumRuns.AddsFirstNodes | patroni/quorum.py:360-367 | the nodes that fill the replication factor are the first in sorted order, and are synced by the first transition |
| QuorumRuns.AddFromNothing | patroni/quorum.py:191-205 | the first nodes are synced, `/sync` stays empty, and a restart is asked for |
| QuorumRuns.FactorAtPoint | patroni/quorum.py:375-393 | changing numsync raises exactly if the quorum that makes up for the decrease is withheld because it would reach the number of voters; otherwise numsync is as wanted, and the quorum is kept or recomputed as stated |
| QuorumRuns.SteadyFromNothing | patroni/quorum.py:313-322 | when all synced nodes are gone both sides are emptied and filled anew |
| QuorumSteps.ConsistentWhenLed | patroni/quorum.py:142-165 | what the invariant comes down to once the two leaders agree: one set contains the other, and the larger has at most quorum + numsync nodes |
| QuorumSteps.QuorumUpdateWhenLed | patroni/quorum.py:167-211 | exactly when a change of `/sync` succeeds, and the state it leaves |
| QuorumSteps.SyncUpdateWhenLed | patroni/quorum.py:213-233 | exactly when a change of numsync and sync succeeds, and the state it leaves |
| QuorumSteps.AdjustmentCoversUnconfirmed | patroni/quorum.py:200-211 | after an adjusted change any quorum + 1 nodes meet the leader plus any min(numsync, confirmed) voters |
| QuorumSteps.SettleAtPoint | patroni/quorum.py:298-311 | what the last non-steady case leaves of a margin an interrupted run left, and exactly when it raises: if a margin is there although no node is asked for |
| QuorumSteps.RemoveSpareAtPoint | patroni/quorum.py:324-337 | leaving out nodes that every quorum can do without: the last quorum many of the gone nodes in sorted order |
| QuorumSteps.RemoveRequiredAtPoint | patroni/quorum.py:338-346 | leaving out nodes that must acknowledge: numsync goes down with them |
| QuorumSteps.RemoveSome | patroni/quorum.py:313-346 | removing gone nodes never raises and leaves exactly the live synced nodes, with numsync and quorum as stated |
| QuorumHandover.PreparePromotion | patroni/ha.py:1091-1112 | the nodes and the number set before promotion overlap exactly: leaders, voters and synced nodes together are quorum + numsync + 1 |
| QuorumHandover.HandoverKeepsOverlap | patroni/quorum.py:404-415 | the new leader takes `/sync` over unless `TakeOverFails`, with the old leader among the voters, keeping the invariant whether or not it was a voter itself; the overlap is exact afterwards |
| QuorumHandover.HandoverRun | patroni/quorum.py:395-437 | the whole first run of a new leader: exactly when it raises, and where it arrives, the quorum included |
| QuorumHandover.TakeOverMayFail | patroni/quorum.py:404-415 | a prepared promotion of one of two voters on which the take-over fails |
| QuorumHandover.TakeOverFailureIsFatal | patroni/quorum.py:418-422 | a take-over that fails makes the whole run raise |
| QuorumResolver.QuorumStateResolver.CheckInvariants | patroni/quorum.py:142-165 | returns without error if and only if the invariant holds, and changes nothing |
| QuorumResolver.QuorumStateResolver.UpdateQuorum | patroni/quorum.py:167-211 | the new fields, yielded transitions and error are those of the specification |
| QuorumResolver.QuorumStateResolver.UpdateLeader | patroni/quorum.py:167-211 | the same, with a leader given |
| QuorumResolver.QuorumStateResolver.UpdateSync | patroni/quorum.py:213-233 | the new fields, yielded transitions and error are those of the specification |
| QuorumResolver.QuorumStateResolver.HandleNonSteadyCases | patroni/quorum.py:255-311 | likewise for the three interrupted cases in order |
| QuorumResolver.QuorumStateResolver.RemoveGoneNodes | patroni/quorum.py:313-346 | likewise for nodes that are gone |
| QuorumResolver.QuorumStateResolver.AddNewNodes | patroni/quorum.py:348-373 | likewise for nodes that are new |
| QuorumResolver.QuorumStateResolver.HandleReplicationFactorChange | patroni/quorum.py:375-393 | likewise for a new replication factor |
| QuorumResolver.QuorumStateResolver.GenerateTransitions | patroni/quorum.py:395-437 | the whole generator, take-over and repair included |
| QuorumResolver.QuorumStateResolver.Iterate | patroni/quorum.py:235-253 | yields the merged list, and nothing if the run raises |
| QuorumResolver.MergedTransitions | patroni/quorum.py:243-253 | the loop keeps the last of neighbours of one kind and ends at a restart |
| Race.IsHealthiestNode | patroni/ha.py:1375-1516 | the loop over the answers decides a condition that does not depend on their order: fit to race, no answer vetoes, and enough distinct supporters or the former leader's exemption |
| Race.IsFailoverPossible | patroni/ha.py:1518-1558 | true if and only if some candidate is ready, and in quorum mode more distinct ones than the quorum |
| RaceAnswers.HealthiestIff | patroni/ha.py:1390-1516 | passing in terms of the reported fields: recent, on a known timeline that is not old where that is checked, no live primary, nobody ahead and nobody level with a higher priority but for the exceptions named, and the quorum met |
| RaceAnswers.QuorumIsMetIff | patroni/ha.py:1407-1516 | the quorum is met if and only if there are quorum + 1 distinct backers among the members of `/sync`, or the node is the leader there and nobody that counts is ahead |
| RaceAnswers.FailoverPossibleIff | patroni/ha.py:1534-1558 | a fail-over is possible if and only if there is a candidate that may promote, has the position given or, without one, lags no more than tolerated, and is on a timeline that passes; in quorum mode, unless a candidate is named and asked for, more of them than the quorum |
| RaceAnswers.PolledIff | patroni/ha.py:1414-1417 | who is asked in the race: other nodes with an API, and of those not to be promoted the ones with a vote |
| RaceAnswers.CandidatesIff | patroni/ha.py:2748-2776 | who is asked before the lock is given up: by tags, API, `/sync` and the `/failover` key |
| Race.NamesWhereMeans | patroni/ha.py:1414-1428 | the names counted are exactly those of the answers that qualify |
| RaceProperties.VoteSoundness | patroni/ha.py:1407-1516 | a winner in quorum mode has quorum + 1 distinct members of `/sync` at or behind its position, possibly itself, or is the former leader with nobody reached ahead |
| RaceProperties.VotesAreReal | patroni/ha.py:1407-1428 | every counted vote is a member of `/sync` that reported a position at or behind the winner's |
| RaceProperties.RaceSelectsMaximum | patroni/ha.py:1390-1516 | without synchronous mode a contender passes if and only if it lags no more than tolerated, is on a timeline that passes where that is checked, and no other contender is ahead, or level with a higher priority |
| RaceProperties.RaceHasLevelWinners | patroni/ha.py:1390-1516 | some contender passes if and only if an unbeaten one is recent; with all on timelines that pass, any that does not lag suffices; any two that pass have the same position and, if it is positive, the same priority |
| RaceProperties.StaleNodeBlocksRace | patroni/ha.py:1399-1405 | a snapshot with a recent contender in which nobody passes |
| RaceProperties.MaximumExists | patroni/ha.py:1443-1516 | among any contenders one is beaten by none |
| RaceProperties.ReleaseLeavesWinner | patroni/ha.py:1518-1558 | if the departing leader found a fail-over possible at its position, some voter passes the race whatever order it gets its answers in |
| RaceProperties.ReadyAreVoters | patroni/ha.py:2748-2776 | the ready candidates of a departing leader are more than quorum many voters, all at or past its position |
| Failsafe.OnePrimary | patroni/ha.py:2606-2618 | over every run of renewals, rounds, late requests, standby loops and lock acquisitions: while the primary is punctual, nobody else holds the lock as long as it runs |
| Failsafe.NobodyRaces | patroni/ha.py:404-417 | a covered and punctual primary is seen by every standby's loop, or the standby disqualifies itself |
| Failsafe.ObservesIff | patroni/ha.py:404-417 | a standby's loop sets out for the lock if and only if the lease has run out, no request was accepted within a ttl, and it is in the topology where there is one; without failsafe mode only the lease counts |
| Failsafe.StepKeepsInvariant | patroni/ha.py:1338-1363 | each single step keeps the primary covered by its lease or by all acceptances |
| Failsafe.LatePrimaryIsReplaced | patroni/ha.py:1681-1690 | a primary that is not punctual can be replaced by any standby that may race, while it still runs |
| Failsafe.BudgetForRounds | patroni/__main__.py:203-221 | on all runs of a loop that keeps its pace (cycles due an interval after one another or at once, two requests given up, a bounded round, no overrun after a renewal) nobody else holds the lock while the primary runs, if and only if the lease has room for the gap between cycles, the requests and the round; exactly then the loop is punctual |
| Failsafe.PacedRunIsPunctual | patroni/__main__.py:203-221 | every run of the protocol on which the primary keeps that pace is punctual, if the lease has the room |
| Failsafe.LateRun | patroni/__main__.py:203-221 | without the room there is a paced run of two nodes on which the primary is late and the other node takes the lock while it runs |
| Failsafe.AdjustedTimeoutsKeepOnePrimary | patroni/config.py:309-323 | with adjusted timeouts and rounds no longer than the interval a paced primary begins its rounds by the end of its lease, and nobody else holds the lock while it runs, on all such runs, if and only if the adjusted rule holds strictly with the round added |
| Failsafe.CheckTopology | patroni/ha.py:1313-1363 | the round succeeds if and only if the node is in the topology and all others in it accept |
| Failsafe.Ha.HandleDcsError | patroni/ha.py:2606-2618 | the node stays primary exactly if failsafe mode is on and the round succeeds, and is then active for a ttl and has a lease from the end of the round; otherwise it demotes and leaves failsafe mode |
| Failsafe.Ha.UpdateFailsafe | patroni/ha.py:1278-1288 | a running primary refuses; any other node accepts and is active for a ttl |
| Timeouts.Validator.GetAndMaybeAdjust | patroni/config.py:265-283 | a value below its minimum is raised to it, and nothing else changes |
| Timeouts.Validator.ValidateAndAdjust | patroni/config.py:285-323 | establishes the budget rule by the least change: loop_wait gives way first, retry_timeout only when it must, ttl and all else stay; nothing changes if the rule held |
| Timeouts.AdjustmentIsUnique | patroni/config.py:285-323 | that promise fixes each of the three values |
| Timeouts.DefaultsFit | patroni/config.py:89-90 | the defaults 10, 10 and 30 need no adjustment and use the whole lease; the least values are 1, 3 and 20 |
| Multisync.Primary.ProcessMultisyncReplication | patroni/ha.py:994-1060 | every state passed through keeps the voters among the synced nodes, also when a write fails; whatever was found, every state from the change of the synced nodes on does; only nodes seen to be synchronous get a vote; if no write fails, the nodes waited for, their number, the wildcard of strict mode and the voters are exactly as stated |
| Multisync.Primary.CorrectSyncKey | patroni/ha.py:1012-1026 | correcting `/sync` keeps the order at each write, clears the voters of another leader first, and fails only if a write failed |
| Topology.TopologySort | patroni/ctl.py:1527-1536 | for every graph of replicatefrom tags, cycles included: exactly the leader and the replicas whose parents lead to the root, each once, at its level, after its parent with only lower rows between, and siblings in the order of the members |
| Topology.LevelsFromTags | patroni/ctl.py:1528-1533 | what the levels are: the first leader, the replicas that follow nobody, themselves or no replica, and below each printed replica those that follow it |
| Topology.SiblingsAreInOrder | patroni/ctl.py:1505-1506 | the replicas under one node are printed in the order of the members |
| Topology.DisplayShape | patroni/ctl.py:1499-1500 | a name begins two columns further on each level, behind a plus sign |
| Topology.GenerateTopology | patroni/ctl.py:1497-1506 | the walk ends and yields the rows of the specification |
| Topology.FillTopology | patroni/ctl.py:1527-1534 | the dictionary lists under each node the replicas shown there, in order |
| Topology.LevelIsUnique | patroni/ctl.py:1497-1506 | no replica is at two levels |
| Topology.ChainIsShort | patroni/ctl.py:1497-1506 | a chain of parents has no more nodes than there are replicas, hence the walk ends |
| Topology.RowsAreBelow | patroni/ctl.py:1497-1506 | every row stands for a node below the one the walk began at, at its level |
| Topology.BelowHasRow | patroni/ctl.py:1497-1506 | every node below it has a row |
| Topology.NamesAreDistinct | patroni/ctl.py:1497-1506 | no name is printed twice |
| Topology.ParentsComeFirst | patroni/ctl.py:1497-1506 | each row follows that of its parent, with only rows of the same subtree between |
| Units.PlainRoundTrip | patroni/utils.py:510-521 | for every integer and each of B, kB, MB, ms, s and min, what is printed parses as the same value |
| Units.RoundTripIff | patroni/utils.py:323-364 | for any base unit with a multiplier: the printed unit is the largest that represents the value exactly, and the value reads back if and only if it is a multiple of the next smaller unit |
| Units.PrintsLargest | patroni/utils.py:355-364 | the loop over the table finds the largest unit that represents the value, and the number of them |
| Units.RepresentableIff | patroni/utils.py:361-364 | the remainder test accepts a unit if and only if the value is a whole number of it |
| Units.RoundingKeepsIff | patroni/utils.py:308-320 | rounding to the next smaller unit keeps a value if and only if it is a multiple of it |
| Units.FactorIsRatio | patroni/utils.py:51-79 | every entry of the conversion table is the ratio of the sizes of two units in bytes or microseconds |
| Units.TableIsComplete | patroni/utils.py:51-79 | a table has all units of its kind, the largest first |
| Units.RoundsToNearest | patroni/utils.py:308-320 | rounding takes the nearest integer, and of two the even one |
| Units.SignedReads | patroni/utils.py:234-240 | white space and a sign before a number; without a number the text is left over, and 1 is assumed if not strict |
| Units.HexMagnitude | patroni/utils.py:234-240 | after 0x hexadecimal digits are read, as many as there are |
| Units.OctalMagnitude | patroni/utils.py:234-240 | after another leading zero octal digits |
| Units.DecimalsMagnitude | patroni/utils.py:234-240 | otherwise decimal digits |
| Units.RadixReadsBack | patroni/utils.py:234-240 | digits in any of these notations denote the number they are printed for |
| Units.FractionReads | patroni/utils.py:268-274 | digits after a decimal point are read as tenths, hundredths and so on (`DecimalsAre`) |
| Units.ExponentReads | patroni/utils.py:268-274 | an exponent shifts the point (`ShiftsAre`) |
| Units.FractionIsParsed | patroni/utils.py:507-521 | a number with a decimal point is parsed with its fraction |
| Units.PrintedOutcome | patroni/utils.py:308-321 | no result if and only if the unit is not in the table of the base unit, and an error if and only if the base unit has the multiplier zero |
| Units.UnknownBase | patroni/utils.py:308-321 | nothing is printed or parsed for an unknown base unit |
| Units.NoUnitReads | patroni/utils.py:513-515 | a number without a unit is taken as it is |
| Units.StrReadsBack | patroni/utils.py:234-240 | the number at the front of a printed value, sign and zero included, is read as decimal, and the unit is left over |
| Units.DecimalReadsBack | patroni/utils.py:234-240 | decimal digits read back as the number, with no leading zero |
| Units.LargeMultiplierLoses | patroni/utils.py:308-320 | a value in units of 16384kB that does not read back |
| Retry.Retry.Call | patroni/utils.py:736-779 | ends at the first call that is not followed by another, for the reason that holds there; calls and sleeps are those specified, no sleep ends at or after the stop time, and a count allows at most max_tries + 1 calls |
| Retry.DelayBounds | patroni/utils.py:703-711 | delays never shrink and stay between the first one and the maximum |
| Retry.DelayIs | patroni/utils.py:703-711 | the i-th delay is the first one times the i-th power of the factor, cut off at the maximum |
| Retry.ContinuesIff | patroni/utils.py:763-779 | when a call is followed by another, and which error ends the loop, in terms of tries, own sleep time, delay, jitter and deadline |
| Retry.AllTriesAreUsed | patroni/utils.py:763-767 | without a deadline a failing function is retried exactly as often as allowed |
| Retry.TimePasses | patroni/utils.py:757-779 | after n sleeps the clock has moved on by at least n delays |
| Retry.DeadlineLimits | patroni/utils.py:757-779 | with a deadline, n retries take n delays less than the deadline: infinite tries end as well |
| Retry.WithinLimit | patroni/utils.py:757-779 | a count or a deadline bounds the calls of every run |
| Retry.NoDelayNoEnd | patroni/utils.py:757-779 | without a positive delay a failing function with infinite tries is called forever if and only if the clock never gets to the stop time |
| AsyncExecutor.OrderlyRunIsExclusive | patroni/async_executor.py:158-178 | if each task is scheduled when all before it is over, no interleaving has two bodies executing |
| AsyncExecutor.UndisturbedRun | patroni/async_executor.py:122-128 | without cancellation every interleaving is exclusive, and the action stays scheduled while its body is pending or executes |
| AsyncExecutor.CancelStops | patroni/async_executor.py:203-220 | once `cancel` has returned and nothing was scheduled meanwhile, no body executes or will start |
| AsyncExecutor.CancelWakesUp | patroni/async_executor.py:160-178 | a waiting cancellation can go on unless a body executes or a run is at its end |
| AsyncExecutor.ScheduleIff | patroni/async_executor.py:109-128 | a successful schedule can lead to two bodies, with no further cancellation, if and only if something before it is not over |
| AsyncExecutor.CancelMissesIff | patroni/async_executor.py:203-220 | after a successful schedule the next cancellation can return while a body executes, with nothing scheduled meanwhile, if and only if something before that schedule is not over |
| AsyncExecutor.CancelMissesBody | patroni/async_executor.py:203-220 | a reachable state with two bodies, and one in which `cancel` returns at once though a body executes |
| AsyncExecutor.StepKeepsInv | patroni/async_executor.py:158-220 | each step of any thread keeps the invariant, one body included |
| AsyncExecutor.AsyncExecutor.Schedule | patroni/async_executor.py:122-128 | refuses while something is scheduled and changes nothing then; otherwise the three fields are set as the interleaving model has it |
| AsyncExecutor.AsyncExecutor.BeginRun | patroni/async_executor.py:160-165 | goes on if and only if not cancelled, clearing the event only then |
| ConfigTree.SetsFlattenedPath | patroni/ctl.py:2044-2046 | setting a dotted path sets the path whose part after postgresql.parameters is one key |
| ConfigTree.SetsParameter | patroni/ctl.py:2044-2068 | whatever follows postgresql.parameters. on the command line, dots included, is the name of the parameter that is set |
| ConfigTree.SplitJoins | patroni/ctl.py:2044-2068 | joining a split path gives its text back |
| ConfigTree.SetReadsBack | patroni/ctl.py:2048-2062 | a value set is read back, and after setting null the path is gone |
| ConfigTree.SetKeepsUnrelated | patroni/ctl.py:2048-2062 | paths that are neither above nor below look the same before and after |
| ConfigTree.AncestorsArePruned | patroni/ctl.py:2056-2062 | every ancestor of the path is a dictionary with entries or is gone |
| ConfigTree.SetThenRemoveIff | patroni/ctl.py:2048-2062 | removing what was just set restores the tree if and only if the path was new and led through no scalar and no empty dictionary |
| ConfigTree.PatchConfig | patroni/utils.py:122-156 | the loop, visiting names in any order, yields the patched tree and the specified answer |
| ConfigTree.PatchIsObeyed | patroni/utils.py:137-156 | under each name the tree has what the patch asks for: nothing for a missing value, a merged dictionary over a dictionary, and otherwise a value that prints as the patch's, which is put there if what was there did not; all other names are unchanged |
| ConfigTree.ObedienceIsUnique | patroni/utils.py:137-156 | only one tree is so |
| ConfigTree.ReportIsExact | patroni/utils.py:137-156 | on a tree without missing values the answer is true if and only if the tree changed |
| ConfigTree.ChangesIff | patroni/utils.py:137-156 | on any tree: it changed if and only if the answer is true or a missing value was dropped |
| ConfigTree.DroppedNullIsNotReported | patroni/utils.py:139-141 | a tree and a patch with a change that is not reported |
| ConfigTree.TwiceIff | patroni/utils.py:137-156 | applying a patch again changes nothing if and only if the first application put no missing value into the tree |
| ConfigTree.TwiceMayDiffer | patroni/utils.py:153-155 | a patch whose second application changes the tree |
| ConfigTree.NullFreeIsClean | patroni/utils.py:137-156 | a patch without missing values puts none into the tree, so it can be applied again |
| Collections.CaseInsensitiveSet.Add | patroni/collections.py:82-90 | adds the lower-cased name and remembers the last spelling |
| Collections.CaseInsensitiveSet.Discard | patroni/collections.py:92-99 | removes the name in any spelling and keeps the others |
| Collections.CaseInsensitiveSet.IsSubset | patroni/collections.py:101-107 | decides inclusion of the sets of lower-cased names |
| Collections.SameNameIff | patroni/collections.py:90 | two spellings are one name if and only if they differ in the case of letters only |
| Names.FirstOfIsSmallest | patroni/quorum.py:361 | a slice of the sorted nodes: so many of them, and the smallest |
| Names.LastOfIsLargest | patroni/quorum.py:327-329 | a slice of the reversely sorted nodes: so many of them, and the largest |
| Names.BeforeIff | patroni/quorum.py:329 | the order of names is that of the dictionary |

## Left out

- QuorumCommit.NoLostCommit: commits acknowledged only under an earlier `synchronous_standby_names` are covered as far as `QuorumElections.NoLostCommitAcrossElections` goes, that is up to the first change that asks more of a commit; which backends and nodes have caught up with such a change is tracked by code that is not part of this model. `numsync_confirmed` is an arbitrary number in the safety results.
- QuorumCommit.PromotionIsSafe: a negative number of nodes is stored as it is computed; what the handler of `synchronous_standby_names` makes of it is not part of this model.
- QuorumCommit.Primary.ProcessQuorumReplication: does not model the bump of the number of nodes to `min_synchronous_nodes` (`patroni/ha.py:979-985`), which asks for more nodes than the resolver knows of; logging, the one second's sleep and the first enabling of synchronous mode are left out too.
- QuorumConvergence.ThreeRunsReachOptimum: supposes that the first run has a live synced node; `OwnRun` and `BootstrapCompletes` cover the rest.
- QuorumHandover.PreparePromotion: covers quorum mode; otherwise `/sync` is reset to the node alone.
- Race.IsHealthiestNode: compares WAL positions; the comparison of MySQL GTID sets is not part of this model. `/failover` requests, paused mode and manual promotion, which go past the vote on purpose, are left out.
- RaceProperties.ReleaseLeavesWinner: supposes no `/failover` key and no timeline check, as the departing leader's own test does.
- Failsafe.Ha.HandleDcsError: watchdog, replication slots and the demotion itself are left out; the lease it grants is counted from the end of the round, while what the other nodes guarantee is counted from its start, which is the time `OnePrimary` uses.
- Failsafe.BudgetForRounds: supposes that each cycle renews the lease, ends in a round that all accept, or demotes the node, and that a cycle which renews the lease does not overrun its interval; the rest of a cycle, such as the changes of `/sync`, may take up to `loop_wait` by itself. A cycle that ends in a round may overrun.
- Failsafe.OnePrimary: supposes a shared `/failsafe` topology, no pause, clocks that advance alike, and requests that arrive in any order.
- Multisync.Primary.ProcessMultisyncReplication: the two seconds' wait for nodes to become synchronous is a parameter, the set found afterwards.
- Topology.TopologySort: names are not empty; the rows keep name and level, and `Row.Display` shows how they are printed.
- Units.PlainRoundTrip: exact arithmetic; floating-point error, white space outside ASCII and numbers too large for a float are left out, and what a fraction and a unit together convert to is stated through the functions.
- Retry.Retry.Call: terminates under the two bounds its callers give it; `NoBoundNoEnd` shows that with neither the loop goes on. The call, the clock and the sleep are parameters.
- AsyncExecutor.CancelStops: the cancelled subprocess is left out, so a body may end at any time; `critical_task` and the waking of the HA loop are left out. Sections under one lock are single steps.
- ConfigTree.PatchConfig: trees are values, so sharing of parts between patch and tree is not modelled; keys are strings, and `str` is an arbitrary function.
- Collections.CaseInsensitiveSet.IsSubset: lower-casing is that of ASCII.
- Names.FirstOfIsSmallest: the source sorts the spellings last used, the model the lower-cased names; which of several nodes comes first may differ, how many are taken does not.
- Names.LastOfIsLargest: likewise.
- DCS backends, REST API, HTTP, logging, YAML files, PostgreSQL and MySQL handlers, rewind and watchdog: input, output and plumbing.
