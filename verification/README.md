# Consensus, storage and MVCC of a replicated key-value store

A Dafny model of the three layers of the repository and proofs of what they promise.

* **Consensus.** `RaftNode` handlers are atomic steps (`NodeModel`, class `RaftNodes.RaftNode`). A cluster
  is a map of nodes plus the requests and replies sent so far (`Clusters`). Requests never leave the network, so they may be
  lost, delayed, duplicated and reordered. `ClusterRuns` holds the guarantees over whole runs, `ClusterClients` what the
  answers given to clients are worth, and `ClusterElections` and `ClusterProgress` that no reachable state is a dead end.
* **Storage.** Records of the write-ahead log, bloom filter, blocks, tables, memtable, manifest, leveled compaction and
  the tree that joins them, down to the bytes in the files (`Wals` to `LsmTrees`).
* **MVCC.** Versioned keys over a sorted map, reads and scans at a revision, optimistic transactions and
  garbage collection (`Version` to `Transactions`); `MvccHistory` ties every field of an answer to the history of writes.

An object that the source updates in place is a class whose methods are proved equal to functions on values; the
theorems are about those functions. Checksum, hashes and filter sizing are arbitrary functions; they are parameters.

Hypotheses of the replication runs, all written into `Clusters.Enabled` or `Clusters.Init`:

* A vote is recorded only in the election round that asked for it, and a leader processes an append reply only in the
  term of the request it answers. The handlers do not check this themselves; the event loop in
  `crates/raft-server/src/server.rs` awaits its replies before it moves on. Without it one late reply gives a term two
  leaders (`LateVotes.LateVoteElectsTwo`).
* Membership is fixed, every node lists every other node once, log writes succeed, and there is no snapshot or restart.

Hypothesis of the transaction runs in `TxnRuns`: a commit is one step. `TxnSplit` drops it.

Results that differ from what the source intends, and the conditions under which the code is right:

* Compaction keeps the first listed entry of a key. Level 0 is always listed oldest first, so a merge of level 0 can bring
  an overwritten value back (`Lsm.OverwrittenValueReturns`). The exact condition under which a key survives is
  `LevelCompaction.CompactExactly`; `Lsm.LevelZeroCompactionExactly` states it for the lists the code produces.
* A scan of a key's versions does not re-check the user key. The key sets for which all reads are right are
  characterised by `MvccModel.KeySetsExactly`; `MvccModel.GetFinds` says what every other read returns.
* A range scan can miss stored keys: proper prefixes of its end bound (`MvccScan.PrefixOfEndIsMissed`), and with an end
  of 0xFF bytes nearly all keys (`MvccScan.AllFFEndMisses`). `MvccScan.ScanExactly` says exactly when one scan is the
  snapshot of its range, `MvccScan.ScanRangesExactly` which ranges are always right over which keys.
* A leader hands out read indices before it has committed what earlier terms left in its log, and such a read can be
  confirmed and stale (`StaleReads.ConfirmedReadCanBeStale`). With that commit, and acknowledgements given after
  registration, confirmed reads are linearizable (`ClusterRuns.RunReadsAreLinearizable`).
* The log writer never cuts a torn tail off. What is appended later can be relied on if and only if the file ended at a
  record boundary (`Wals.TornTailExactly`, `TornLogs.TornLogExactly`, and for the whole tree
  `LsmTrees.WritesAfterCrashExactly`). An operation too long for a record is written and stops the next recovery
  (`TornLogs.OversizedOpStopsRecovery`).
* Truncating the Raft log does not rewrite its file. A restart finds the log in memory if and only if no truncation of
  the history removed anything (`RaftLogs.RestartAfterHistory`); else an index can come back twice
  (`RaftLogs.ReplacedEntryReturns`).
* `commit` holds no lock between validation and the allocation of its revision. Runs with such commits are serial if and
  only if no transaction publishes after a value it read has changed (`TxnSplit.SplitRunsExactly`); `TxnSplit.LostUpdate`
  is a run that is not.
* A winner is made only by a vote that arrives, so the node of a cluster of one never leads
  (`ClusterElections.LoneNodeNeverLeads`). Every majority of two or more can elect, commit and deliver
  (`ClusterElections.MajorityCanServe`).
* The comment in `lsm.rs` says that opening truncates the log; the code keeps it, and the model follows the code.

## Model

| member | source | states |
|---|---|---|
| `ClusterRuns.StateMachineSafety` | crates/raft-consensus/src/node.rs:474-486 | In every run, the delivered entries of any two nodes at any two moments are prefix-comparable, and each node delivers indices 1, 2, 3, ... once each and in order (Raft section 5.4.3) |
| `ClusterRuns.EveryLaterLeaderHasIt` | crates/raft-consensus/src/node.rs:886-969 | Leader completeness: what a node has committed while in term T is in the log of every leader of a later term, seen before or after |
| `ClusterRuns.CommittedPrefixesAgree` | crates/raft-consensus/src/node.rs:354-364 | Whatever two nodes have committed, at any two moments, one is a prefix of the other |
| `ClusterRuns.ElectionSafety` | crates/raft-consensus/src/node.rs:130-292 | Over every run at most one node ever leads a given term, with pre-votes, TimeoutNow and same-term demotion (section 5.2) |
| `ClusterRuns.LogMatching` | crates/raft-consensus/src/node.rs:319-352 | Equal terms at an index mean equal logs up to it, across nodes and across time (section 5.3) |
| `ClusterRuns.RunAcknowledgementsAreTruthful` | crates/raft-consensus/src/node.rs:332-363 | After a successful append the follower's whole log is a prefix of the leader's, and the reported match index is its length |
| `ClusterRuns.AcknowledgementsAreTruthful` | crates/raft-consensus/src/node.rs:297-364 | The same from any state of the invariant |
| `ClusterRuns.NextIndexStaysInLog` | crates/raft-consensus/src/node.rs:406-467 | Match indices never pass the leader's end and next indices stay between 1 and one past it |
| `ClusterRuns.RunTransferTargetIsCaughtUp` | crates/raft-consensus/src/node.rs:682-705 | A transfer target had acknowledged the leader's full log in that term; while it stays in the term the logs are equal |
| `ClusterRuns.TransferTargetIsCaughtUp` | crates/raft-consensus/src/node.rs:682-705 | The same from any state of the invariant, and the target's term is not behind |
| `ClusterRuns.RunReadsAreLinearizable` | crates/raft-consensus/src/node.rs:605-639 | In every run: if at registration the leader had committed everything that earlier terms left in its log and every acknowledgement was given after it, a confirmed read has a read index at least every index committed anywhere at registration |
| `ClusterRuns.ReadIndexIsLinearizable` | crates/raft-consensus/src/read_index.rs:28-40 | The bound that a majority of acknowledgements given after registration certifies, for a leader that had committed what earlier terms left |
| `ClusterRuns.ConfirmedReadIsLinearizable` | crates/raft-consensus/src/read_index.rs:72-121 | Under the same two conditions the node's own confirmation test gives that bound |
| `ClusterClients.ServedReadSeesEverything` | crates/raft-server/src/kv_service.rs:54-96 | Linearizable reads end to end: a client that was told an index, saw the read confirmed (same two conditions) and is served once the node has applied that index finds all that any node had committed, and so all that any had delivered, when it asked |
| `ClusterClients.AnswerBoundsCommits` | crates/raft-consensus/src/node.rs:605-622 | Under the two conditions the index returned to the client is at least every index committed anywhere when it asked |
| `ClusterClients.TakenIndexIsTheAnswer` | crates/raft-consensus/src/node.rs:637-639 | At any later moment of any run a pending read is handed out with exactly the index its client was told, and then it is gone |
| `ClusterClients.AcceptedAppendCommits` | crates/raft-consensus/src/node.rs:406-440 | When a follower accepts an append a leader made, it has committed at least what the leader had committed when it made it |
| `ClusterClients.AcceptedAppendIsDelivered` | crates/raft-consensus/src/node.rs:474-486 | The next time that follower hands out entries it has delivered all of the leader's committed prefix |
| `ClusterClients.ProposalStandsAtItsIndex` | crates/raft-consensus/src/node.rs:369-403 | The index returned for a proposal was free and now holds exactly the proposed data in the leader's term |
| `ClusterClients.ProposalIsWhatIsDelivered` | crates/raft-consensus/src/node.rs:369-403 | Whenever any node delivers an entry of the proposal's term at the returned index, before or after, it is the proposed data |
| `ClusterClients.RunMovesUp` | crates/raft-consensus/src/node.rs:354-364 | Over every run commit indices never move back and nothing delivered is taken back |
| `ClusterElections.MajorityCanServe` | crates/raft-consensus/src/node.rs:130-486 | From every reachable state, every majority of two or more and every datum, there is a continuation of the run after which all of them have delivered one log that contains whatever any node had committed and ends with the datum |
| `ClusterElections.MajorityCanElect` | crates/raft-consensus/src/node.rs:155-292 | From every such state every majority of two or more can make one of its nodes leader |
| `ClusterElections.CandidateCanWin` | crates/raft-consensus/src/node.rs:155-292 | A candidate whose log is at least as up to date as those of a majority that has not passed its term can win its next term |
| `ClusterElections.LoneNodeNeverLeads` | crates/raft-consensus/src/node.rs:194-233 | In every run of a cluster of one no vote is ever asked for or given and nobody leads |
| `ClusterElections.PreVoteTellsTheTruth` | crates/raft-consensus/src/node.rs:247-263 | A pre-vote changes nothing and is granted exactly when a real vote at that later term would be |
| `ClusterElections.PreVoteAsksTheSame` | crates/raft-consensus/src/node.rs:130-153 | A pre-vote asks for the vote that the election after it asks for |
| `ClusterElections.PreVoteQuorumExactly` | crates/raft-consensus/src/node.rs:236-242 | A pre-vote has a quorum exactly when the nodes that granted it and the asking one are more than half; nothing but the count has changed |
| `ClusterElections.LeaderLogIsFreshest` | crates/raft-consensus/src/election.rs:43-54 | In or below a leader's term nobody's log is more up to date than the leader's |
| `ClusterElections.LaterTermForgets` | crates/raft-consensus/src/node.rs:916-933 | Any message of a later term leaves no pending read, no transfer and no pending configuration |
| `ClusterElections.OutdatedSendersGiveUp` | crates/raft-consensus/src/node.rs:200-207 | An outdated candidate or leader that hears an answer steps down to the term of whoever answered |
| `ClusterElections.FirstAppendsAreShort` | crates/raft-consensus/src/node.rs:886-914 | The first appends of a new leader are anchored at its old end and carry its no-op alone |
| `ClusterProgress.CatchUp` | crates/raft-consensus/src/node.rs:443-471 | However far apart the logs are, an undisturbed leader brings a follower that has not passed its term up to date, one refusal and one step back at a time |
| `ClusterProgress.CommitAll` | crates/raft-consensus/src/node.rs:935-969 | With a majority, itself included, the leader then commits its whole log |
| `ClusterProgress.LeaderDelivers` | crates/raft-consensus/src/node.rs:406-486 | And every node of that majority delivers it |
| `ClusterProgress.AnswerShape` | crates/raft-consensus/src/node.rs:297-364 | A reply to a request that is not outdated carries the request's term and the follower's own end, and is a success if there is no anchor to check |
| `ClusterPlays.RunSteady` | crates/raft-consensus/src/node.rs:886-914 | In every reachable state a leader has its maps, knows its own end, and has a next index for every peer |
| `ClusterHints.RedirectsAreRight` | crates/raft-consensus/src/node.rs:369-376 | A refusal that names a leader names the one node that ever leads that term |
| `ClusterHints.AppendHints` | crates/raft-consensus/src/node.rs:297-330 | A node that handled an append of its term or a later one sends proposals and reads to the sender |
| `ClusterHints.TransferExactly` | crates/raft-consensus/src/node.rs:650-680 | Each refusal of a transfer under exactly its condition; else it is recorded, blocks proposals, and goes only when it expires |
| `ClusterHints.LeadershipCanMove` | crates/raft-consensus/src/node.rs:650-773 | From any reachable state with a leader, leadership can be moved to any follower of its term or below with any majority that has not left the term |
| `ClusterElections.TransferCanSucceed` | crates/raft-consensus/src/node.rs:732-773 | The TimeoutNow sent to a named target lets it win with any such majority |
| `ClusterReads.QuorumConfirmsCommit` | crates/raft-consensus/src/node.rs:605-622 | If a leader's uncommitted entries are all of its own term and a majority has not left the term, nobody has committed beyond it |
| `ClusterReads.OldCommittedExactly` | crates/raft-consensus/src/node.rs:886-914 | That condition holds of a leader if and only if it has committed at least as many entries as it had when it won its election |
| `ClusterReads.OwnCommitSuffices` | crates/raft-consensus/src/node.rs:605-622 | A committed entry of its own term is enough for it |
| `StaleReads.ConfirmedReadCanBeStale` | crates/raft-consensus/src/node.rs:605-622 | A reachable run of two nodes: a new leader that has not committed what it inherited registers a read, an acknowledgement given afterwards confirms it, and it lies below an index committed before registration |
| `ClusterRuns.RunInv` | crates/raft-consensus/src/node.rs:126-772 | Every reachable cluster state satisfies the invariant |
| `ClusterRuns.StepKeepsInv` | crates/raft-consensus/src/node.rs:126-772 | No handler and no delivery breaks the invariant |
| `ClusterSteps.CampaignStep` | crates/raft-consensus/src/node.rs:156-191 | Starting an election keeps the invariant |
| `ClusterSteps.PreVoteStep` | crates/raft-consensus/src/node.rs:130-152 | Starting a pre-vote keeps the invariant |
| `ClusterSteps.TimeoutNowStepOk` | crates/raft-consensus/src/node.rs:732-772 | An immediate election, or a stale TimeoutNow, keeps the invariant |
| `ClusterSteps.VoteRequestStepOk` | crates/raft-consensus/src/node.rs:247-292 | Handling any vote request ever sent keeps the invariant |
| `ClusterSteps.VoteReplyStepOk` | crates/raft-consensus/src/node.rs:194-233 | Counting a vote, winning or stepping down keeps the invariant |
| `ClusterSteps.AppendRequestStepOk` | crates/raft-consensus/src/node.rs:297-364 | Handling any append ever sent, late or repeated, keeps the invariant |
| `ClusterSteps.AcceptingHandler` | crates/raft-consensus/src/node.rs:319-364 | The handler computes the overlay of the shipped prefix, and commit and match index as section 5.3 wants them although it uses its own last index |
| `ClusterLeaderSteps.AppendReplyStepOk` | crates/raft-consensus/src/node.rs:443-471 | Recording a reply and advancing the commit index keeps the invariant |
| `ClusterLeaderSteps.ProposeStepOk` | crates/raft-consensus/src/node.rs:369-403 | Proposing keeps the invariant |
| `ClusterLeaderSteps.SentRequestOk` | crates/raft-consensus/src/node.rs:406-440 | Every append carries, or is anchored at, an entry of the leader's own term |
| `ClusterLeaderSteps.TakeStepOk` | crates/raft-consensus/src/node.rs:474-486 | Delivering committed entries keeps the invariant |
| `ClusterReads.RequestReadStepOk` | crates/raft-consensus/src/node.rs:605-622 | Registering a read keeps the invariant |
| `ClusterReads.ReadAckStepOk` | crates/raft-consensus/src/node.rs:626-629 | Acknowledging pending reads keeps the invariant |
| `Replication.LeaderCompleteness` | crates/raft-consensus/src/node.rs:935-969 | A commit of a term is a prefix of every later leader's log, in the protocol without messages |
| `Replication.CommittedComparable` | crates/raft-consensus/src/node.rs:935-969 | Any two committed prefixes are comparable |
| `ReplicationSteps.GrantInv` | crates/raft-consensus/src/election.rs:12-54 | Granting a vote keeps every promise made to earlier terms |
| `ReplicationSteps.UpToDateHas` | crates/raft-consensus/src/election.rs:43-54 | A log at least as up to date contains what the voter must preserve |
| `ReplicationSteps.WinInv` | crates/raft-consensus/src/node.rs:886-914 | Winning keeps the protocol invariant |
| `ReplicationSteps.WinnerHas` | crates/raft-consensus/src/node.rs:886-914 | A winner holds everything an earlier term may have committed |
| `ReplicationSteps.AcceptInv` | crates/raft-consensus/src/node.rs:332-363 | Accepting an append keeps the protocol invariant |
| `ReplicationSteps.AcceptedLogIsPrefix` | crates/raft-consensus/src/node.rs:332-363 | After an append the whole follower log is a prefix of the leader's log |
| `ReplicationSteps.ExtendInv` | crates/raft-consensus/src/node.rs:383-400 | Extending the leader's log keeps the protocol invariant |
| `ReplicationSteps.CommitInv` | crates/raft-consensus/src/node.rs:935-969 | Committing keeps the protocol invariant |
| `CommitRule.AdvanceIsGreatest` | crates/raft-consensus/src/node.rs:935-969 | Trying only the listed match values finds the greatest of all indices that the rule of section 5.4.2 allows, under plain or joint quorums, and nothing moves when there is none |
| `CommitRule.LeadersAdvanceToTheGreatest` | crates/raft-consensus/src/node.rs:935-969 | The same for every leader of every reachable state |
| `LateVotes.LateVoteElectsTwo` | crates/raft-consensus/src/node.rs:194-233 | A run of three nodes that meets every hypothesis, and a reply sent in it: when it is handled after its round, two nodes lead the same term |
| `NodeModel.UpToDateIsTotalOrder` | crates/raft-consensus/src/election.rs:43-54 | The log comparison is a total preorder, antisymmetric on last term and index |
| `AppendMerge.MergeShape` | crates/raft-consensus/src/node.rs:332-352 | The conflict loop keeps the log, or cuts it at the first mismatch and appends the rest |
| `AppendMerge.MergeIsOverlay` | crates/raft-consensus/src/node.rs:332-352 | On logs of one history the loop yields the overlay of the shipped prefix |
| `AppendMerge.MergeTwice` | crates/raft-consensus/src/node.rs:332-352 | Merging the same entries again changes nothing |
| `AppendMerge.AppendIsIdempotent` | crates/raft-consensus/src/node.rs:297-364 | Handling the same well-formed append twice has the effect of once, with the same reply |
| `RaftNodes.RaftNode.StartPreVote` | crates/raft-consensus/src/node.rs:130-152 | Computes the pre-vote step and its requests; term and vote stay on disk |
| `RaftNodes.RaftNode.StartElection` | crates/raft-consensus/src/node.rs:156-191 | Computes the election step; the new term and vote are on disk |
| `RaftNodes.RaftNode.HandleTimeoutNow` | crates/raft-consensus/src/node.rs:732-772 | Ignores a stale message, else starts an election |
| `RaftNodes.RaftNode.StepDown` | crates/raft-consensus/src/node.rs:916-933 | Computes the step down, reads and change aborted, on disk |
| `RaftNodes.RaftNode.BecomeLeader` | crates/raft-consensus/src/node.rs:886-914 | Computes leadership with its no-op entry and leader maps |
| `RaftNodes.NewLeaderState` | crates/raft-consensus/src/state.rs:75-86 | The loop builds next and match index for exactly the peers |
| `RaftNodes.RaftNode.HandleVoteResponse` | crates/raft-consensus/src/node.rs:194-233 | Computes the vote count and the outcome |
| `RaftNodes.RaftNode.HandleVoteRequest` | crates/raft-consensus/src/node.rs:247-292 | Computes grant or refusal; a granted vote is on disk before the reply |
| `RaftNodes.RaftNode.Merge` | crates/raft-consensus/src/node.rs:332-352 | The loop over the entries computes the merge |
| `RaftNodes.RaftNode.HandleAppendEntries` | crates/raft-consensus/src/node.rs:297-364 | Computes every branch of the append handler |
| `RaftNodes.RaftNode.Propose` | crates/raft-consensus/src/node.rs:369-403 | Computes the proposal or its refusal |
| `RaftNodes.RaftNode.CreateAppendRequests` | crates/raft-consensus/src/node.rs:406-440 | One request per peer, with the whole suffix and the commit index |
| `RaftNodes.RaftNode.HandleAppendResponse` | crates/raft-consensus/src/node.rs:443-471 | Computes the leader maps and the commit index |
| `RaftNodes.RaftNode.TryAdvanceCommit` | crates/raft-consensus/src/node.rs:935-969 | The descending scan finds the greatest listed candidate |
| `RaftNodes.DescendingValues` | crates/raft-consensus/src/node.rs:944-945 | The match values, sorted downwards, none lost and none invented |
| `RaftNodes.RaftNode.TakeCommittedEntries` | crates/raft-consensus/src/node.rs:474-486 | The loop delivers the entries between applied and commit index |
| `RaftNodes.RaftNode.RequestReadIndex` | crates/raft-consensus/src/node.rs:605-622 | Registers a read at the commit index |
| `RaftNodes.RaftNode.ReadIndexAck` | crates/raft-consensus/src/node.rs:626-629 | Acknowledges and lists exactly the confirmed reads |
| `RaftNodes.RaftNode.TakeReadIndex` | crates/raft-consensus/src/node.rs:637-639 | Hands out a read index once |
| `RaftNodes.RaftNode.TransferLeadership` | crates/raft-consensus/src/node.rs:650-678 | Starts a transfer or names the reason it cannot |
| `RaftNodes.RaftNode.CheckTransferProgress` | crates/raft-consensus/src/node.rs:682-705 | Names the target once, when it is caught up |
| `RaftNodes.RaftNode.CheckTransferTimeout` | crates/raft-consensus/src/node.rs:709-723 | Aborts an expired transfer |
| `RaftLogs.Log.TruncateKeepsExactlyThePrefix` | crates/raft-consensus/src/log.rs:113-123 | After a truncation lookups up to the cut are unchanged and nothing lies beyond |
| `RaftLogs.Log.CompactForgetsExactlyTheSnapshot` | crates/raft-consensus/src/log.rs:135-147 | Compaction forgets exactly the indices up to the snapshot, keeps the rest and answers the snapshot term |
| `RaftLogs.Log.CompactCompose` | crates/raft-consensus/src/log.rs:135-147 | Two compactions are the later one |
| `RaftLogs.EntryRoundTrip` | crates/raft-consensus/src/log.rs:157-193 | An entry survives its encoding exactly when its data length fits 32 bits |
| `RaftLogs.ReplayRestores` | crates/raft-consensus/src/log.rs:23-43 | Reopening restores exactly the appended entries |
| `RaftLogs.RestartAfterHistory` | crates/raft-consensus/src/log.rs:113-123 | After any history of appends and truncations the file replays to everything ever appended; that is the log in memory if and only if no truncation found anything to remove |
| `RaftLogs.ReplacedEntryReturns` | crates/raft-consensus/src/log.rs:113-123 | Append two entries, cut to one, append another second one: the replayed log has index 2 twice and is not contiguous |
| `RaftLogs.RaftLog.Open` | crates/raft-consensus/src/log.rs:23-43 | The replay loop, with its error |
| `RaftLogs.RaftLog.Append` | crates/raft-consensus/src/log.rs:46-54 | Log and file both grow by the entries |
| `RaftLogs.RaftLog.TruncateAfter` | crates/raft-consensus/src/log.rs:113-123 | The truncation; the file stays |
| `RaftLogs.RaftLog.Compact` | crates/raft-consensus/src/log.rs:135-147 | The compaction; the file stays |
| `MembershipStates.QuorumsOverlapThroughChange` | crates/raft-consensus/src/membership.rs:126-222 | Through any sequence of operations, quorums accepted before, during and after a change pairwise intersect (section 6) |
| `MembershipStates.InvThroughAnySequence` | crates/raft-consensus/src/membership.rs:157-222 | Members stay distinct and non-empty, and a pending configuration differs by one node |
| `MembershipStates.QuorumIsMajority` | crates/raft-consensus/src/membership.rs:126-152 | A quorum is a majority of the member ids, and during a change of the new ones as well |
| `MembershipStates.RemoveNodeExactly` | crates/raft-consensus/src/membership.rs:157-222 | Removing a node: each error exactly under its condition; else the new configuration is exactly the other members in their order, the old one stays current, and finalizing, applying and aborting lead to the one or the other |
| `MembershipStates.AddNodeExactly` | crates/raft-consensus/src/membership.rs:157-222 | The same for adding: the new member, with its address, comes last |
| `MembershipStates.VotersAfterChange` | crates/raft-consensus/src/membership.rs:225-227 | During a change the old members and the named node vote; after it the added node does and the removed one does not, all others as before |
| `MembershipStates.MembershipState.BeginChange` | crates/raft-consensus/src/membership.rs:157-196 | Begins a change or reports which of the four errors applies, state unchanged |
| `MembershipStates.MembershipState.FinalizeJoint` | crates/raft-consensus/src/membership.rs:201-209 | Moves to the pending configuration if there is one |
| `MembershipStates.MembershipState.AbortChange` | crates/raft-consensus/src/membership.rs:219-222 | Drops the pending configuration |
| `ReadIndexes.Reads.ConfirmationIsStable` | crates/raft-consensus/src/read_index.rs:28-121 | Acknowledgements and new requests never unconfirm a request |
| `ReadIndexes.ConfirmedExactly` | crates/raft-consensus/src/read_index.rs:28-96 | A request is confirmed exactly when the nodes that acknowledged it and the leader are more than half, and hands out the index it was registered with, once |
| `ReadIndexes.ReadIndexState.RecordAck` | crates/raft-consensus/src/read_index.rs:82-90 | Acknowledges all pending requests and lists, once each, exactly those with a quorum |
| `Wals.PrefixRecovery` | crates/raft-storage/src/wal/reader.rs:31-52 | Cut the log at any byte: recovery returns exactly the records wholly contained in the rest, in order, for any checksum function |
| `Wals.SomeSurvive` | crates/raft-storage/src/wal/reader.rs:31-52 | For every cut there is such a number of records |
| `Wals.ReadBack` | crates/raft-storage/src/wal/record.rs:32-87 | What was written within the size limit is what is read |
| `Wals.ReadAllExactly` | crates/raft-storage/src/wal/reader.rs:30-52 | For any bytes and any checksum: recovery returns the records that stand there one after the other, each framed with its length and checksum, such that no further record follows; and nothing else does |
| `Wals.DamagedDataExactly` | crates/raft-storage/src/wal/record.rs:75-81 | Other bytes in place of a record's data are read exactly when their checksum is the same; else reading stops |
| `Wals.DamagedChecksum` | crates/raft-storage/src/wal/record.rs:75-81 | Other bytes in place of the checksum always stop reading |
| `TornLogs.StopsAtDamageExactly` | crates/raft-storage/src/lsm.rs:118-142 | Recovery stops behind the logged operations exactly when what follows them is no record |
| `TornLogs.DamagedLogExactly` | crates/raft-storage/src/lsm.rs:118-142 | A log with the data of one record overwritten recovers exactly the operations before it if the checksum tells the two apart, and else replays the damaged bytes |
| `TornLogs.DamagedChecksumStops` | crates/raft-storage/src/lsm.rs:118-142 | A log with one checksum overwritten recovers exactly the operations before that record |
| `Wals.TornTailExactly` | crates/raft-storage/src/wal/writer.rs:20-38 | Behind a record cut anywhere, all records within the size limit that are appended later are read back, whatever they are, if and only if nothing of the torn record is in the file, for every checksum function |
| `Wals.AppendsAfterTornRecordAreLost` | crates/raft-storage/src/wal/writer.rs:20-38 | Behind a torn record whose header is whole, nothing at all is read as long as the appended bytes do not fill the gap |
| `TornLogs.AppendIsCrashAtomic` | crates/raft-storage/src/lsm.rs:327-338 | After a crash inside an append, recovery finds the operation if all its bytes are there and else exactly the operations before it |
| `TornLogs.TornLogExactly` | crates/raft-storage/src/lsm.rs:118-142 | The operations logged after a crash are all recovered if and only if the crash left the log at a record boundary, for every log, torn operation and checksum function |
| `TornLogs.OversizedOpStopsRecovery` | crates/raft-storage/src/wal/record.rs:52-60 | An operation longer than the record limit is written, and recovery stops in front of it, losing it and all later ones |
| `Wals.ReadRecord` | crates/raft-storage/src/wal/record.rs:45-87 | Decodes one record from the stream, with end of file and corruption told apart |
| `Wals.ReadAllRecords` | crates/raft-storage/src/wal/reader.rs:31-52 | The recovery loop |
| `Wals.WalWriter.Append` | crates/raft-storage/src/wal/writer.rs:33-38 | Appends one encoded record |
| `Blooms.InsertKeeps` | crates/raft-storage/src/bloom.rs:51-70 | An inserted key is found and no insertion hides a key |
| `Blooms.FilterExactly` | crates/raft-storage/src/bloom.rs:51-70 | After any insertions the filter says yes exactly when every probe of the key coincides with a probe of some inserted key |
| `Blooms.BloomRoundTrip` | crates/raft-storage/src/bloom.rs:40-75 | A filter written as bytes and read back is the same filter |
| `Blooms.BloomFilter.Insert` | crates/raft-storage/src/bloom.rs:51-57 | Switches on exactly the probes of the key |
| `Blooms.BloomFilter.MayContainKey` | crates/raft-storage/src/bloom.rs:61-70 | True exactly when all probes are on |
| `Blocks.EntryRoundTripExactly` | crates/raft-storage/src/sstable/block.rs:62-144 | An entry survives the block format if and only if its key length fits 32 bits and its value length stays below the tombstone marker |
| `Blocks.BlockRoundTrip` | crates/raft-storage/src/sstable/block.rs:62-144 | A block whose entries fit the format reads back, tombstones included |
| `Blocks.FooterRoundTrip` | crates/raft-storage/src/sstable/footer.rs:25-52 | The footer reads back |
| `Blocks.ReadBlock` | crates/raft-storage/src/sstable/block.rs:88-144 | The reading loop, with its truncation errors |
| `Blocks.BinarySearch` | crates/raft-storage/src/sstable/block.rs:147-149 | Position of the key, or its insertion point |
| `Blocks.BlockBuilder.Add` | crates/raft-storage/src/sstable/block.rs:39-46 | Appends an entry and keeps the size estimate exact |
| `Blocks.BlockBuilder.Build` | crates/raft-storage/src/sstable/block.rs:62-80 | The bytes of the block |
| `SSTables.OpenTable` | crates/raft-storage/src/sstable/reader.rs:27-67 | Opening any finished file succeeds and serves exactly the entries written, for any block boundaries |
| `SSTables.OpenRoundTrip` | crates/raft-storage/src/sstable/reader.rs:27-67 | Opening a file gives back its index and filter |
| `SSTables.IndexRoundTrip` | crates/raft-storage/src/sstable/reader.rs:143-183 | The index parses back |
| `SSTables.Get` | crates/raft-storage/src/sstable/reader.rs:71-92 | Lookup through filter, index and block equals lookup in the entries written: live, tombstone or absent |
| `SSTables.FindBlock` | crates/raft-storage/src/sstable/reader.rs:131-141 | The last block whose first key is at most the key, or the first block |
| `SSTables.Iter` | crates/raft-storage/src/sstable/reader.rs:95-104 | All blocks in turn, stopping at a damaged one |
| `SSTables.IterIsAll` | crates/raft-storage/src/sstable/reader.rs:95-104 | On a finished table iteration yields exactly the entries written |
| `SSTables.Scan` | crates/raft-storage/src/sstable/reader.rs:107-117 | The scanning loop with its early exit, and its error |
| `SSTables.TakeRangeIsBetween` | crates/raft-storage/src/sstable/reader.rs:107-117 | On sorted entries the early exit loses nothing |
| `TableWriters.SSTableWriter.Add` | crates/raft-storage/src/sstable/writer.rs:51-59 | Adds one entry; filter, index and data stay in step, closed blocks are full and the open one is not |
| `TableWriters.SSTableWriter.FlushBlock` | crates/raft-storage/src/sstable/writer.rs:113-131 | Moves the current block to the file and the index |
| `TableWriters.SSTableWriter.Finish` | crates/raft-storage/src/sstable/writer.rs:62-111 | The file is a table holding exactly the entries added, laid out in well packed blocks |
| `TableWriters.PackingIsUnique` | crates/raft-storage/src/sstable/writer.rs:51-59 | The entries and the block size determine the blocks |
| `TableWriters.WriteTable` | crates/raft-storage/src/sstable/writer.rs:37-111 | Writing a run gives a table with exactly its entries, packed into blocks of the size |
| `MemTables.MemTable.Put` | crates/raft-storage/src/memtable/mod.rs:35-48 | Writes the key and keeps the size account exact |
| `MemTables.MemTable.Delete` | crates/raft-storage/src/memtable/mod.rs:51-59 | Writes a tombstone; the size account stays exact without recounting |
| `MemTables.MemTable.Scan` | crates/raft-storage/src/memtable/mod.rs:68-77 | Exactly the entries in range, in order |
| `MemTables.Traverse` | crates/raft-storage/src/memtable/mod.rs:63-65 | In-order iteration |
| `Manifests.Manifest.AddSSTable` | crates/raft-storage/src/compaction/manifest.rs:44-50 | The table is the last one of its level, every other level is as before, and the set of tables grows by it alone |
| `Manifests.Manifest.RemoveSSTables` | crates/raft-storage/src/compaction/manifest.rs:53-57 | Keeps exactly the tables with other ids, in order |
| `Manifests.Manifest.NextSstId` | crates/raft-storage/src/compaction/manifest.rs:37-41 | The id differs from that of every listed table, and the counter stays above all of them |
| `Manifests.IdsNeverReturn` | crates/raft-storage/src/compaction/manifest.rs:37-57 | Through any history of additions and removals ids stay distinct and below the counter, and a retired id never comes back |
| `Manifests.Manifest.NeedsCompaction` | crates/raft-storage/src/compaction/leveled.rs:47-63 | Finds the level to compact |
| `Manifests.FirstOverIsFirst` | crates/raft-storage/src/compaction/leveled.rs:53-62 | It is the first level over its target, and never the last level |
| `Manifests.NeedsLevelExactly` | crates/raft-storage/src/compaction/leveled.rs:47-64 | Nothing is compacted exactly when level 0 is below the trigger and each further level but the last is within trigger times its power of the ratio; else the first level that breaks this |
| `Compactions.MergeEntries` | crates/raft-storage/src/compaction/leveled.rs:111-123 | Stable sort and dedup give the ordered run in which the first listed entry of each key survives |
| `Compactions.SortByKey` | crates/raft-storage/src/compaction/leveled.rs:112-112 | Sorted and stable: the entries of each key keep number and order |
| `Compactions.Dedup` | crates/raft-storage/src/compaction/leveled.rs:113-123 | Keeps the first entry of each key |
| `Compactions.MergeIsLookup` | crates/raft-storage/src/compaction/leveled.rs:104-123 | Listed in search order, the merge picks for every key what a lookup finds |
| `Compactions.LiveOnlyFind` | crates/raft-storage/src/compaction/leveled.rs:146-150 | Dropping tombstones removes exactly the deleted keys |
| `Levels.CompactionExactly` | crates/raft-storage/src/compaction/leveled.rs:67-192 | For any replacement of tables by a merged one: a key reads the same if and only if a level above hides it or the merge chose what reads like the newest replaced entry |
| `LevelCompaction.CompactExactly` | crates/raft-storage/src/compaction/leveled.rs:67-192 | The same for the compaction as coded, tombstone dropping included |
| `LevelCompaction.CompactPreserves` | crates/raft-storage/src/compaction/leveled.rs:67-192 | With overlapping sources listed newest first no lookup changes |
| `LevelCompaction.DeepLevelsNeedNoOrder` | crates/raft-storage/src/compaction/leveled.rs:104-109 | From level 1 on any listing order will do |
| `LevelCompaction.CompactInv` | crates/raft-storage/src/compaction/leveled.rs:177-180 | Ids stay distinct, ranges right, and levels 1 and up pairwise disjoint |
| `LsmShape.TablesReplacedExactly` | crates/raft-storage/src/compaction/leveled.rs:67-190 | A compaction replaces exactly the tables of its level and those of the next one that meet their key range; all others stay, with their content; the files of the replaced ones go unless nothing was kept |
| `LsmShape.LastLevelHasNoTombstones` | crates/raft-storage/src/compaction/leveled.rs:125-151 | After every history from the empty tree the last level holds no tombstones |
| `LsmShape.LevelZeroStaysShort` | crates/raft-storage/src/lsm.rs:249-278 | After every write that flushed, level 0 holds fewer tables than the trigger |
| `LsmShape.MemtableStaysBelowLimit` | crates/raft-storage/src/lsm.rs:327-352 | After every write the memtable is below its limit |
| `LsmShape.SizeIsBytes` | crates/raft-storage/src/memtable/mod.rs:35-61 | The size the memtable counts is what its entries take in a block, but for eight bytes each |
| `LevelCompaction.OldestFirstIsWrongWay` | crates/raft-storage/src/compaction/manifest.rs:49-49 | Two level 0 tables that share a key are never listed in search order |
| `Lsm.OverwrittenValueReturns` | crates/raft-storage/src/compaction/leveled.rs:104-123 | Put, flush, overwrite, flush, compact level 0, for any key and values: the tree reads the first value where the map has the second |
| `Lsm.HistoryRefines` | crates/raft-storage/src/lsm.rs:281-424 | After any sequence of puts, deletes, flushes and compactions (merge precondition) reads equal those of a plain map |
| `Lsm.FromEmpty` | crates/raft-storage/src/lsm.rs:281-424 | The same from an empty tree |
| `Lsm.FlushPreserves` | crates/raft-storage/src/lsm.rs:175-246 | A flush changes no read and keeps the shape of the levels |
| `Lsm.LevelZeroCompactionExactly` | crates/raft-storage/src/lsm.rs:249-277 | After every history level 0 is listed oldest first, and exactly which keys its compaction preserves |
| `WalOps.OpRoundTrip` | crates/raft-storage/src/lsm.rs:27-80 | An operation whose lengths fit the format survives the log encoding |
| `WalOps.RecoverLog` | crates/raft-storage/src/lsm.rs:125-138 | Replaying the log gives the memtable its operations made |
| `LsmDisk.FlushIsCrashAtomic` | crates/raft-storage/src/lsm.rs:175-246 | After any number of a flush's effects on the disk, opening rebuilds a tree with the same reads |
| `LsmDisk.UnlistedFileIsInvisible` | crates/raft-storage/src/lsm.rs:144-154 | A file the manifest does not list is invisible, whatever bytes it holds |
| `LsmDisk.EmptyDiskIsEmptyTree` | crates/raft-storage/src/lsm.rs:118-172 | An empty directory opens as the empty tree of seven levels |
| `LsmCache.LookupTables` | crates/raft-storage/src/lsm.rs:306-322 | The first hit in search order is the answer of the levels |
| `LsmCache.ScanTables` | crates/raft-storage/src/lsm.rs:382-394 | Inserting from the deepest and oldest up leaves the answers of the levels |
| `LsmTrees.LsmTree.Open` | crates/raft-storage/src/lsm.rs:118-172 | Rebuilds the value the files stand for; it succeeds on every disk that a crash inside a flush or a write may leave, and says whether the log has a torn tail |
| `LsmTrees.WriteIsCrashAtomic` | crates/raft-storage/src/lsm.rs:327-373 | Cut the log record of a put or delete at any byte: opening finds the tree after the write or the tree before it |
| `LsmTrees.WritesAfterCrashExactly` | crates/raft-storage/src/lsm.rs:118-172 | Writes made after such an opening are found by the next one, whatever they are, if and only if the crash had left the log at a record boundary |
| `LsmTrees.FlushStaysClean` | crates/raft-storage/src/lsm.rs:175-246 | Every disk state during a flush can be opened |
| `LsmTrees.LsmTree.Get` | crates/raft-storage/src/lsm.rs:281-325 | Returns the read of the value: memtables, then tables |
| `LsmTrees.LsmTree.Scan` | crates/raft-storage/src/lsm.rs:375-419 | Exactly the live pairs in range, in key order |
| `LsmTrees.LsmTree.FlushMemtable` | crates/raft-storage/src/lsm.rs:175-246 | Computes the flush; while the log is whole every disk state on the way recovers to the same reads, and afterwards the log is whole |
| `LsmTrees.LsmTree.CompactLevel` | crates/raft-storage/src/compaction/leveled.rs:67-192 | Computes the compaction on files and manifest |
| `LsmTrees.LsmTree.MaybeCompact` | crates/raft-storage/src/lsm.rs:249-277 | Compacts the chosen level, saves the manifest and reopens the tables |
| `LsmTrees.LsmTree.Put` | crates/raft-storage/src/lsm.rs:327-352 | Log, memtable, and the flush and merge it sets off, for operations of any length; whether the log is still whole |
| `LsmTrees.LsmTree.Delete` | crates/raft-storage/src/lsm.rs:354-373 | The same for a tombstone |
| `LsmTrees.LsmTree.Durable` | crates/raft-storage/src/lsm.rs:118-172 | At every operation boundary, while the log is whole, the files recover to the value in memory |
| `LsmTrees.WriteReads` | crates/raft-storage/src/lsm.rs:327-373 | A put or delete changes the read of its key and of no other, flush and merge included (merge precondition) |
| `Engines.TreeServesEngine` | crates/raft-storage/src/engine.rs:4-19 | A scan of a tree that refines a map is a scan of the map |
| `Version.KeyRoundTrip` | crates/raft-mvcc/src/version.rs:18-32 | Decoding an internal key undoes encoding |
| `Version.BigEndianOrder` | crates/raft-mvcc/src/version.rs:18-23 | Big-endian bytes sort like numbers |
| `Version.NewestFirst` | crates/raft-mvcc/src/version.rs:18-23 | Versions of a key sort newest first |
| `Version.IncrementBytes` | crates/raft-mvcc/src/version.rs:53-63 | The loop with carry computes the increment |
| `Version.AddOneShape` | crates/raft-mvcc/src/version.rs:53-63 | The increment keeps the bytes before the last one below 0xFF, raises that one and clears the rest; the carry leaves exactly for all 0xFF |
| `Version.RangeExactly` | crates/raft-mvcc/src/version.rs:36-50 | The scan range of a key that is not all 0xFF holds, among compatible keys and revisions below the maximum, exactly its own versions |
| `Version.LongerKeyIntrudes` | crates/raft-mvcc/src/version.rs:36-50 | Every version of a longer key lies in the range of its prefix, unless that prefix is all 0xFF |
| `Version.AllFFRangeIsInverted` | crates/raft-mvcc/src/version.rs:40-63 | The range of a key of 0xFF bytes is inverted; the ordered map of the memtable panics on it |
| `Version.EmptyKeyIsUnreadable` | crates/raft-mvcc/src/version.rs:40-63 | Versions of the empty key with a revision below 2^64 - 2^57 - 1 lie outside its range |
| `Version.ValueRoundTrip` | crates/raft-mvcc/src/version.rs:81-121 | A stored value decodes to itself, live or deleted, with negative lease and TTL |
| `MvccModel.GetIsRight` | crates/raft-mvcc/src/mvcc.rs:62-87 | The byte-level loop returns exactly the last version at or below the revision |
| `MvccModel.KeySetsExactly` | crates/raft-mvcc/src/mvcc.rs:62-87 | All reads over a set of keys are accepted and right if and only if no key is a proper prefix of another and none is empty or all 0xFF |
| `MvccModel.AcceptedExactly` | crates/raft-mvcc/src/mvcc.rs:62-67 | The range of a key is not inverted if and only if the key is empty or not all 0xFF |
| `MvccModel.GetFinds` | crates/raft-mvcc/src/mvcc.rs:62-87 | Over any stored keys a read finds the first version in the byte range of its key, of whatever key, that is not too new |
| `MvccModel.SeenIsLatest` | crates/raft-mvcc/src/mvcc.rs:62-87 | Beside compatible keys that is the last version of the key itself |
| `MvccModel.ReadsAreStable` | crates/raft-mvcc/src/mvcc.rs:62-87 | A read depends only on versions at or below its revision |
| `Mvcc.SnapshotsAreStable` | crates/raft-mvcc/src/mvcc.rs:90-149 | Later writes never change a read at a reached revision |
| `Mvcc.WriteIsSeen` | crates/raft-mvcc/src/mvcc.rs:95-149 | A write is what reads from its revision on see, of its key only |
| `MvccHistory.ReadsTellHistory` | crates/raft-mvcc/src/mvcc.rs:62-149 | Over every history of puts, deletes and commits and at every revision: a read answers nothing exactly for a key never written or deleted last, and else the value, modification revision and lease of its last write and, as creation revision, that of the first put after its last delete |
| `MvccScan.ScanExactly` | crates/raft-mvcc/src/mvcc.rs:157-203 | For every start, end and revision: the scan is the ordered list of exactly the live keys in range, each as a read shows it, if and only if the visible version of each such key sorts before the internal end |
| `MvccScan.ScanLists` | crates/raft-mvcc/src/mvcc.rs:157-203 | In general it lists the live keys in range whose visible version sorts before the internal end, in order |
| `MvccScan.ScanRangesExactly` | crates/raft-mvcc/src/mvcc.rs:157-203 | Over a set of compatible keys, all scans of a range are right whatever is stored if and only if revision 1 of each key in range sorts before the internal end |
| `MvccScan.ScanIsRight` | crates/raft-mvcc/src/mvcc.rs:157-203 | That is so for an end that is not all 0xFF and of which no stored key is a proper prefix |
| `MvccScan.ScanLoopExactly` | crates/raft-mvcc/src/mvcc.rs:168-202 | The loop with its last key lists the first acceptable version of each key |
| `MvccScan.PrefixOfEndIsMissed` | crates/raft-mvcc/src/mvcc.rs:163-166 | With revisions below 2^56, a key that is a proper prefix of the end bound, the next byte of which is below 0xFE, is in range and yet not scanned |
| `MvccScan.ScanCoversExactly` | crates/raft-mvcc/src/mvcc.rs:163-166 | For every end bound, a version of a non-empty key in range is scanned if and only if: with an end of 0xFF bytes, the key starts with a zero byte; else the key is no prefix of the end bound, or the rest of the end bound is all 0xFF, or its increment exceeds the revision bytes |
| `MvccScan.AllFFEndMisses` | crates/raft-mvcc/src/mvcc.rs:163-166 | A scan from the empty key to 0xFF is accepted and misses the key 0x41 at every revision |
| `MvccScan.BoundsExactly` | crates/raft-mvcc/src/mvcc.rs:163-166 | The bounds of a scan are inverted if and only if the start lies behind the incremented end |
| `MvccScan.BoundsNotInverted` | crates/raft-mvcc/src/mvcc.rs:163-166 | Ordered bounds are never inverted, unless the end is all 0xFF |
| `Mvcc.MvccStore.GetAtRevision` | crates/raft-mvcc/src/mvcc.rs:62-87 | For every accepted key the first version in its byte range that is not too new; beside compatible keys the read at the revision |
| `Mvcc.MvccStore.LatestVersionInfo` | crates/raft-mvcc/src/mvcc.rs:206-218 | The first version in the byte range; beside compatible keys the latest version |
| `Mvcc.MvccStore.PutWithOptions` | crates/raft-mvcc/src/mvcc.rs:95-123 | Adds one version for every accepted key; the creation revision is that of the live version found; beside compatible keys it carries over while the key is live |
| `Mvcc.MvccStore.Delete` | crates/raft-mvcc/src/mvcc.rs:126-149 | Adds a delete marker and tells whether a live version was found; beside compatible keys, whether the key was live |
| `Mvcc.MvccStore.ScanAtRevision` | crates/raft-mvcc/src/mvcc.rs:157-203 | For every accepted range the loop over the scanned pairs; over compatible keys exactly the live keys that the internal end does not hide, and the snapshot if and only if it hides none |
| `TxnRuns.EveryRunIsSerial` | crates/raft-mvcc/src/transaction.rs:35-105 | With commits as single steps, every interleaved run equals a serial one: each revision is the plain map after that many actions, writing transactions run wholly at their commit revision, read-only ones at their start revision |
| `TxnOutcomes.CommitOutcomeExactly` | crates/raft-mvcc/src/transaction.rs:63-105 | In every such run a writing commit ends in a conflict exactly when something it read from the store has changed, leaving the store alone; else it returns its place in the serial order, and a read-only one the revision at which all its reads are right |
| `TxnSplit.SplitRunsExactly` | crates/raft-mvcc/src/transaction.rs:63-105 | With other clients writing between validation and revision: the serial order explains all answers if and only if no transaction published its writes after the value of a key it had read changed; then the store is serial as well |
| `TxnSplit.AnswersStillRight` | crates/raft-mvcc/src/transaction.rs:68-80 | What a transaction was told is what it would read at the end of the log if and only if no value it read from the store has changed |
| `TxnSplit.LostUpdate` | crates/raft-mvcc/src/transaction.rs:63-105 | A run in which two transactions read the same absent key, both validate and both commit, and neither order explains what they read |
| `TxnRuns.StepKeepsInv` | crates/raft-mvcc/src/transaction.rs:23-106 | No step of any client breaks that equivalence |
| `TxnRuns.ValidatedReads` | crates/raft-mvcc/src/transaction.rs:68-77 | Validation means that all reads would answer the same at the commit point |
| `TxnRuns.CommitIsSerial` | crates/raft-mvcc/src/transaction.rs:79-104 | The committed writes are the serial effect of the program, repeated writes included |
| `TxnModel.SerialReadsBuffer` | crates/raft-mvcc/src/transaction.rs:35-41 | Reading the buffer first is reading the map with the own writes applied |
| `TxnModel.SameModSameValue` | crates/raft-mvcc/src/transaction.rs:44-46 | Equal modification revisions, zero for absence, mean equal values |
| `Transactions.Transaction.Get` | crates/raft-mvcc/src/transaction.rs:35-49 | Own writes first, else what the store shows at the snapshot, recorded in the read set; beside compatible keys the read of the model |
| `Transactions.Transaction.Commit` | crates/raft-mvcc/src/transaction.rs:63-105 | Read-only, conflict or all writes at one revision, for all accepted keys; beside compatible keys the commit of the serializable runs |
| `Transactions.CommittedIsCommit` | crates/raft-mvcc/src/transaction.rs:63-105 | Over keys compatible with the stored ones and each other, the commit as coded on bytes is the commit of the model |
| `Transactions.Transaction.Validate` | crates/raft-mvcc/src/transaction.rs:68-77 | True exactly when no key of the read set shows another modification revision than it did |
| `Gc.ReadsAfterGc` | crates/raft-mvcc/src/gc.rs:25-62 | A read of any accepted key is unchanged if it saw the latest version of its key or one at or above the threshold, or if the key lies behind the fixed scan range, and otherwise returns nothing |
| `Gc.ScannableExactly` | crates/raft-mvcc/src/gc.rs:26-29 | The collector reaches all versions of a key or none: none exactly when the key starts with 32 bytes of 0xFF |
| `Gc.GarbageCollector.Collect` | crates/raft-mvcc/src/gc.rs:25-62 | Removes exactly the superseded versions below the threshold and returns their number |
| `Gc.CollectLoopExactly` | crates/raft-mvcc/src/gc.rs:35-54 | The loop lists exactly the pairs that follow another version of their key and lie below the threshold |

## Left out

- gRPC, HTTP, command line, metrics, client retries, leases, watches, TTL sweep, backup and the chaos simulators: they would only add easy members.
- Timers and random timeouts: an election, a TimeoutNow and the expiry of a transfer are steps that may happen at any time.
- Liveness: the progress results say that a continuation exists from every reachable state; that timers and the network ever produce it is not modelled.
- Snapshot files and the install RPC, which is a stub; compaction of the Raft log is modelled as a log operation only.
- Restart of a Raft node: the persistent state file is modelled as a field that is current at every method boundary, not as a file that is read back.
- Membership changes inside replication runs: elections count the static peer list, commits the membership, so runs keep it fixed.
- Overflow of terms, indices, ids and revisions: revisions stay below the 64 bit maximum by precondition, the others are unbounded.
- `LeaderState` and `ElectionState` are values inside the node object.
- A crash in the middle of a compaction, and thread interleavings inside the tree and the store: operations are sequential steps.
- CRC32, SipHash, JSON and the floating-point sizing of the filter: arbitrary functions, the manifest file holds the manifest itself, and table files are named by id.
- LsmTrees.LsmTree.Put: asks for runs whose entries fit the table format; that a longer entry does not survive it is Blocks.EntryRoundTripExactly.
- LsmTrees.LsmTree.Delete: asks for the same as Put.
- LsmTrees.LsmTree.FlushMemtable: asks for entries that fit the table format.
- LsmTrees.LsmTree.Scan: asks for an ordered range, because the ordered map panics on an inverted one.
- Mvcc.MvccStore.GetAtRevision: asks for a key whose range is not inverted, because the ordered map panics on the others; these are the keys of 0xFF bytes.
- Mvcc.MvccStore.LatestVersionInfo: asks for the same as GetAtRevision.
- Mvcc.MvccStore.PutWithOptions: asks for the same, and for a revision counter below the 64 bit maximum.
- Mvcc.MvccStore.Delete: asks for the same as PutWithOptions.
- Mvcc.MvccStore.ScanAtRevision: asks for internal bounds that are not inverted; over keys that are prefixes of one another it is stated through the loop only.
- Transactions.Transaction.Get: asks for a key whose range is not inverted.
- Transactions.Transaction.Validate: asks for read keys whose ranges are not inverted.
- Transactions.Transaction.Commit: asks for keys whose ranges are not inverted and for values that fit their length field.
- TxnSplit.SplitRunsExactly: the allocation of a revision and the writes at it are one step, so readers between them are not modelled.
- MvccScan.ScanExactly: is stated for stored keys that are compatible; over others the loop may meet the versions of a key out of order.
- Gc.GarbageCollector.Collect: is stated for stored keys that are compatible; over others the scan may meet the versions of a key out of order.
- Gc.ReadsAfterGc: does not speak of keys of 0xFF bytes, which the store refuses.
- ClusterRuns.RunReadsAreLinearizable: assumes that the leader had committed what earlier terms left, which the code does not check, and that acknowledgements answer appends handled after registration, which the code does not record. That the first condition cannot be dropped is shown by one run; it is sufficient, not proved necessary for every single read.
