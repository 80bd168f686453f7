/**
 What the answers of the handlers are worth to whoever asked, over every run: the index of a
 proposal, the index of a read, and the commit index that travels with an append.
 */
module ClusterClients {
  import opened Common
  import opened Bytes
  import opened RaftTypes
  import opened NodeModel
  import opened Replication
  import opened ReplicationSteps
  import opened Clusters
  import opened ClusterSteps
  import opened ClusterReads
  import opened ClusterRuns

  // -------------------------------------------------- commit indices never move back

  lemma AdvanceMovesUp(s: Node)
    ensures TryAdvanceCommit(s).commitIndex >= s.commitIndex
  {
    if s.leader.Some? && CommitCandidates(s, s.leader.value) != {} {
      assert Greatest(CommitCandidates(s, s.leader.value)) in CommitCandidates(s, s.leader.value);
    }
  }

  lemma ReplyMovesUp(s: Node, from: NodeId, resp: AppendResponse)
    ensures HandleAppendResponse(s, from, resp).commitIndex >= s.commitIndex
  {
    hide TryAdvanceCommit, RecordResponse;
    if resp.term <= s.term && s.role == Leader && s.leader.Some? {
      AdvanceMovesUp(s.(leader := Some(RecordResponse(s.leader.value, from, resp))));
    }
  }

  lemma AppendMovesUp(c: Cluster, n: NodeId, req: AppendRequest)
    requires ClusterInv(c) && n in c.nodes && (n, req) in c.appendRequests
    ensures var (s', resp) := HandleAppendEntries(c.nodes[n], req);
            && s'.commitIndex >= c.nodes[n].commitIndex
            && (resp.success ==>
                  s'.commitIndex >= req.leaderCommit && |s'.log.entries| >= req.prevLogIndex + |req.entries|)
  {
    hide HandleAppendEntries;
    assert AppendRequestOk(c.h, (n, req).1);
    if HandleAppendEntries(c.nodes[n], req).1.success {
      var c1 := if req.term > c.nodes[n].term then Stepped(c, n, req.term) else c;
      if req.term > c.nodes[n].term { SteppedOk(c, n, req.term); }
      AcceptedAtTerm(c1, n, req, c.nodes[n]);
    } else {
      RefusalKeepsCommit(c.nodes[n], req);
    }
  }

  lemma RefusalKeepsCommit(s: Node, req: AppendRequest)
    requires !HandleAppendEntries(s, req).1.success
    ensures HandleAppendEntries(s, req).0.commitIndex == s.commitIndex
  {
    hide MergeEntries;
  }

  /** Stepping down first changes nothing about what the handler does. */
  lemma SteppedHandlesSame(s: Node, req: AppendRequest)
    requires req.term > s.term
    ensures HandleAppendEntries(StepDown(s, req.term), req) == HandleAppendEntries(s, req)
  {
    hide MergeEntries;
  }

  /** An accepting handler adopts the shipped prefix and commit index. */
  lemma AcceptCommits(a: State, s: Node, req: AppendRequest)
    requires InvViews(a) && InvLeaders(a) && s.id in a.views && a.views[s.id] == ViewOf(s)
    requires s.log.snapshotIndex == 0 && s.log.Contiguous()
    requires AppendRequestOk(a.h, req) && req.term == s.term && HandleAppendEntries(s, req).1.success
    ensures var s' := HandleAppendEntries(s, req).0;
            && s'.commitIndex >= s.commitIndex && s'.commitIndex >= req.leaderCommit
            && |s'.log.entries| >= req.prevLogIndex + |req.entries|
  {
    hide HandleAppendEntries, InvViews, InvLeaders, AppendRequestOk, Overlay, LogOk;
    AcceptingHandler(a, s, req);
    AcceptedLogIsPrefix(a, s.id, req.prevLogIndex + |req.entries|);
  }

  lemma Ready(c: Cluster, n: NodeId)
    requires ClusterInv(c) && n in c.nodes
    ensures InvViews(Abs(c)) && InvLeaders(Abs(c)) && c.nodes[n].id == n && AppliedOk(c, n)
  {
    assert NodeOk(c, n);
  }

  lemma AcceptedAtTerm(c: Cluster, n: NodeId, req: AppendRequest, before: Node)
    requires ClusterInv(c) && n in c.nodes && AppendRequestOk(c.h, req) && HandleAppendEntries(before, req).1.success
    requires c.nodes[n] == if req.term > before.term then StepDown(before, req.term) else before
    ensures var s' := HandleAppendEntries(before, req).0;
            && s'.commitIndex >= before.commitIndex && s'.commitIndex >= req.leaderCommit
            && |s'.log.entries| >= req.prevLogIndex + |req.entries|
  {
    hide HandleAppendEntries, ClusterInv, InvViews, InvLeaders, AppendRequestOk, AppliedOk;
    if req.term > before.term { SteppedHandlesSame(before, req); }
    SuccessMeansNotOlder(c.nodes[n], req);
    Ready(c, n);
    NodeLog(c, n);
    AcceptCommits(Abs(c), c.nodes[n], req);
  }

  lemma SuccessMeansNotOlder(s: Node, req: AppendRequest)
    requires HandleAppendEntries(s, req).1.success
    ensures req.term >= s.term
  {
    hide MergeEntries;
  }

  lemma ElectionStepsKeepCommit(c: Cluster, step: Step, m: NodeId)
    requires Enabled(c, step) && m in c.nodes
    requires step.StartPreVoteStep? || step.StartElectionStep? || step.TimeoutNowStep? || step.VoteRequestStep?
             || step.VoteReplyStep?
    ensures var c' := Next(c, step);
            m in c'.nodes && c'.nodes[m].commitIndex == c.nodes[m].commitIndex && c'.delivered == c.delivered
  {
    hide Win, Grant, Campaign, RaiseTerm;
  }

  lemma OtherStepsKeepCommit(c: Cluster, step: Step, m: NodeId)
    requires Enabled(c, step) && m in c.nodes
    requires step.ProposeStep? || step.SendAppendsStep? || step.TakeCommittedStep? || step.RequestReadStep?
             || step.ReadAckStep? || step.TakeReadStep? || step.TransferStep? || step.CheckTransferStep?
             || step.TransferTimeoutStep?
    ensures var c' := Next(c, step); m in c'.nodes && c'.nodes[m].commitIndex == c.nodes[m].commitIndex
    ensures m in c.delivered ==> m in Next(c, step).delivered && c.delivered[m] <= Next(c, step).delivered[m]
  {
    hide Extend, CreateAppendRequests, OldCommitted;
  }

  lemma AppendStepsMoveUp(c: Cluster, step: Step, m: NodeId)
    requires ClusterInv(c) && Enabled(c, step) && m in c.nodes
    requires step.AppendRequestStep? || step.AppendReplyStep?
    ensures var c' := Next(c, step);
            m in c'.nodes && c'.nodes[m].commitIndex >= c.nodes[m].commitIndex && c'.delivered == c.delivered
  {
    hide ClusterInv, HandleAppendEntries, HandleAppendResponse;
    match step {
      case AppendRequestStep(n, req) => AppendMovesUp(c, n, req);
      case AppendReplyStep(r) => ReplyMovesUp(c.nodes[r.to], r.from, r.resp);
    }
  }

  /** In one step no node's commit index moves back and nothing delivered is taken back. */
  lemma StepMovesUp(c: Cluster, step: Step, m: NodeId)
    requires ClusterInv(c) && Enabled(c, step) && m in c.nodes && m in c.delivered
    ensures var c' := Next(c, step);
            && m in c'.nodes && c'.nodes[m].commitIndex >= c.nodes[m].commitIndex
            && m in c'.delivered && c.delivered[m] <= c'.delivered[m]
  {
    hide ClusterInv, Next;
    if step.AppendRequestStep? || step.AppendReplyStep? {
      AppendStepsMoveUp(c, step, m);
    } else if step.StartPreVoteStep? || step.StartElectionStep? || step.TimeoutNowStep? || step.VoteRequestStep?
              || step.VoteReplyStep? {
      ElectionStepsKeepCommit(c, step, m);
    } else {
      OtherStepsKeepCommit(c, step, m);
    }
  }

  lemma DeliveredThere(c: Cluster, m: NodeId)
    requires ClusterInv(c) && m in c.nodes
    ensures m in c.delivered
  {
    assert NodeOk(c, m);
  }

  /** Over a run, a node's commit index only grows, and so does what it has delivered. */
  lemma {:induction false} RunMovesUp(run: seq<Cluster>, steps: seq<Step>, i: nat, j: nat, m: NodeId)
    requires IsRun(run, steps) && i <= j < |run| && m in run[i].nodes
    ensures m in run[j].nodes && run[i].nodes[m].commitIndex <= run[j].nodes[m].commitIndex
    ensures m in run[i].delivered && m in run[j].delivered && run[i].delivered[m] <= run[j].delivered[m]
    decreases j
  {
    hide ClusterInv, Next, Init;
    RunInv(run, steps, i);
    DeliveredThere(run[i], m);
    if i < j {
      RunMovesUp(run, steps, i, j - 1, m);
      RunInv(run, steps, j - 1);
      StepMovesUp(run[j - 1], steps[j - 1], m);
    }
  }

  // ------------------------------------------------------------------- proposals

  /** The index returned to a client is the index at which its data stand, and it was free before. */
  lemma ProposalStandsAtItsIndex(run: seq<Cluster>, steps: seq<Step>, i: nat, n: NodeId, data: Bytes, index: LogIndex)
    requires IsRun(run, steps) && i < |steps| && steps[i] == ProposeStep(n, data)
    requires n in run[i].nodes && Propose(run[i].nodes[n], data).1 == Ok(index)
    ensures var s, s' := run[i].nodes[n], run[i + 1].nodes[n];
            && s.log.Get(index) == None
            && s'.log.Get(index) == Some(LogEntry(index, s.term, data, Normal))
            && s'.log.entries == s.log.entries + [LogEntry(index, s.term, data, Normal)]
  {
    hide ClusterInv, Init;
    RunInv(run, steps, i);
    NodeLog(run[i], n);
  }

  /**
   What becomes of a proposal: whenever any node, before or after, delivers an entry of the
   proposal's term at the returned index, it delivers exactly the proposed data.
   */
  lemma ProposalIsWhatIsDelivered(run: seq<Cluster>, steps: seq<Step>, i: nat, n: NodeId, data: Bytes, index: LogIndex,
                                  j: nat, m: NodeId)
    requires IsRun(run, steps) && i < |steps| && steps[i] == ProposeStep(n, data)
    requires n in run[i].nodes && Propose(run[i].nodes[n], data).1 == Ok(index)
    requires j < |run| && m in run[j].nodes && m in run[j].delivered && 1 <= index <= |run[j].delivered[m]|
    requires run[j].delivered[m][index - 1].term == run[i].nodes[n].term
    ensures run[j].delivered[m][index - 1] == LogEntry(index, run[i].nodes[n].term, data, Normal)
  {
    hide ClusterInv, Init, Next, Propose;
    ProposalStandsAtItsIndex(run, steps, i, n, data, index);
    RunMovesUp(run, steps, i, i + 1, n);
    RunInv(run, steps, i + 1);
    NodeLog(run[i + 1], n);
    RunInv(run, steps, j);
    DeliveredIsApplied(run[j], m);
    var x, y := run[i + 1].nodes[n].log.entries, run[j].nodes[m].log.entries;
    assert run[j].delivered[m][index - 1] == y[index - 1];
    LogMatching(run, steps, i + 1, j, n, m, index);
    assert x[..index][index - 1] == y[..index][index - 1];
  }

  // ------------------------------------------------------- the commit index on its way

  /** A leader ships its whole log from the next index on, and its commit index. */
  lemma ShippedCommit(s: Node, p: NodeId, req: AppendRequest)
    requires (p, req) in CreateAppendRequests(s)
    ensures req.leaderCommit == s.commitIndex && req.term == s.term && req.leaderId == s.id && p in s.peers
  {
  }

  /**
   Commitment travels: when a follower accepts an append that a leader made, the follower has then
   committed at least what the leader had committed when it made it.
   */
  lemma AcceptedAppendCommits(run: seq<Cluster>, steps: seq<Step>, i: nat, j: nat, l: NodeId, p: NodeId,
                              req: AppendRequest)
    requires IsRun(run, steps) && i < |run| && l in run[i].nodes && (p, req) in CreateAppendRequests(run[i].nodes[l])
    requires j < |steps| && steps[j] == AppendRequestStep(p, req) && p in run[j].nodes
    requires HandleAppendEntries(run[j].nodes[p], req).1.success
    ensures p in run[j + 1].nodes && run[j + 1].nodes[p].commitIndex >= run[i].nodes[l].commitIndex
  {
    hide ClusterInv, Init, HandleAppendEntries;
    ShippedCommit(run[i].nodes[l], p, req);
    RunInv(run, steps, j);
    AppendMovesUp(run[j], p, req);
  }

  /** ... and the next time it hands out entries it has delivered all of them, in the leader's order. */
  lemma AcceptedAppendIsDelivered(run: seq<Cluster>, steps: seq<Step>, i: nat, j: nat, k: nat, l: NodeId, p: NodeId,
                                  req: AppendRequest)
    requires IsRun(run, steps) && i < |run| && l in run[i].nodes && (p, req) in CreateAppendRequests(run[i].nodes[l])
    requires j < k < |steps| && steps[j] == AppendRequestStep(p, req) && p in run[j].nodes
    requires HandleAppendEntries(run[j].nodes[p], req).1.success
    requires steps[k] == TakeCommittedStep(p)
    ensures p in run[k + 1].delivered && run[i].nodes[l].commitIndex <= |run[i].nodes[l].log.entries|
    ensures run[i].nodes[l].log.entries[..run[i].nodes[l].commitIndex] <= run[k + 1].delivered[p]
  {
    hide ClusterInv, Init, Next, HandleAppendEntries, CreateAppendRequests;
    AcceptedAppendCommits(run, steps, i, j, l, p, req);
    RunMovesUp(run, steps, j + 1, k, p);
    RunInv(run, steps, k);
    RunInv(run, steps, k + 1);
    RunMovesUp(run, steps, k, k + 1, p);
    TakeDeliversAll(run[k], p);
    SeenByAll(run, steps, i, k + 1, l, p);
  }

  lemma TakeDeliversAll(c: Cluster, n: NodeId)
    requires ClusterInv(c) && n in c.nodes
    ensures var c' := Next(c, TakeCommittedStep(n));
            n in c'.nodes && c'.nodes[n].lastApplied == c'.nodes[n].commitIndex == c.nodes[n].commitIndex
  {
    hide ClusterInv, InvViews, InvLeaders, Collect;
    Ready(c, n);
  }

  /** Whoever has delivered as much as another has committed has delivered all of that. */
  lemma SeenByAll(run: seq<Cluster>, steps: seq<Step>, i: nat, k: nat, m: NodeId, n: NodeId)
    requires IsRun(run, steps) && i < |run| && k < |run| && m in run[i].nodes && n in run[k].nodes
    requires run[k].nodes[n].lastApplied >= run[i].nodes[m].commitIndex
    ensures n in run[k].delivered && run[i].nodes[m].commitIndex <= |run[i].nodes[m].log.entries|
    ensures run[i].nodes[m].log.entries[..run[i].nodes[m].commitIndex] <= run[k].delivered[n]
  {
    hide ClusterInv, Init, Next;
    RunInv(run, steps, k);
    DeliveredIsApplied(run[k], n);
    RunCommitted(run, steps, i, m, i);
    CommittedPrefixesAgree(run, steps, i, k, m, n);
    var x, y := CommittedPrefix(run[i], m), CommittedPrefix(run[k], n);
    assert run[k].delivered[n] == y[..|run[k].delivered[n]|];
    if y <= x { assert x == y; }
  }

  // --------------------------------------------------------------------- served reads

  /** What is remembered of a read does not change any more, but for who has confirmed it. */
  ghost predicate SameRead(a: ReadInfo, b: ReadInfo)
  {
    a.(confirmedBy := {}) == b.(confirmedBy := {})
  }

  lemma OtherStepsKeepReads(c: Cluster, step: Step)
    requires Enabled(c, step) && !step.RequestReadStep? && !step.ReadAckStep?
    ensures Next(c, step).readLog == c.readLog
  {
    hide Win, Grant, Campaign, RaiseTerm, Extend, CreateAppendRequests, HandleAppendEntries, HandleAppendResponse;
  }

  lemma StepKeepsRead(c: Cluster, step: Step, k: (NodeId, nat))
    requires ClusterInv(c) && Enabled(c, step) && k in c.readLog
    ensures k in Next(c, step).readLog && SameRead(Next(c, step).readLog[k], c.readLog[k])
  {
    hide Replication.Inv, NodesOk, MessagesOk, OldCommitted;
    if step.RequestReadStep? {
      assert ReadOk(c, k);
    } else if !step.ReadAckStep? {
      hide Next;
      OtherStepsKeepReads(c, step);
    }
  }

  lemma {:induction false} RunKeepsRead(run: seq<Cluster>, steps: seq<Step>, i: nat, j: nat, k: (NodeId, nat))
    requires IsRun(run, steps) && i <= j < |run| && k in run[i].readLog
    ensures k in run[j].readLog && SameRead(run[j].readLog[k], run[i].readLog[k])
    decreases j
  {
    hide ClusterInv, Next, Init;
    if i < j {
      RunKeepsRead(run, steps, i, j - 1, k);
      RunInv(run, steps, j - 1);
      StepKeepsRead(run[j - 1], steps[j - 1], k);
    }
  }

  /** Step `i` registers a read at node `n`, which is told the identifier and the index. */
  ghost predicate AsksToRead(run: seq<Cluster>, steps: seq<Step>, i: nat, n: NodeId, id: nat, index: LogIndex)
  {
    && IsRun(run, steps) && i < |steps| && steps[i] == RequestReadStep(n)
    && n in run[i].nodes && RequestReadIndex(run[i].nodes[n]).1 == Ok((id, index))
  }

  lemma AskedRead(run: seq<Cluster>, steps: seq<Step>, i: nat, n: NodeId, id: nat, index: LogIndex)
    requires AsksToRead(run, steps, i, n, id, index)
    ensures (n, id) in run[i + 1].readLog && run[i + 1].readLog[(n, id)] == InfoAt(run[i], n)
    ensures index == InfoAt(run[i], n).readIndex
  {
    hide Init;
    assert Enabled(run[i], steps[i]);
  }

  /** At any later moment the read is handed out, if it is still pending, with the index its client was told. */
  lemma TakenIndexIsTheAnswer(run: seq<Cluster>, steps: seq<Step>, i: nat, j: nat, n: NodeId, id: nat, index: LogIndex)
    requires AsksToRead(run, steps, i, n, id, index) && i < j < |run| && n in run[j].nodes
    requires id in run[j].nodes[n].pendingReads.pending
    ensures TakeReadIndex(run[j].nodes[n], id).1 == Some(index)
    ensures id !in TakeReadIndex(run[j].nodes[n], id).0.pendingReads.pending
  {
    hide Init, Next, Replication.Inv, NodesOk, MessagesOk;
    AskedRead(run, steps, i, n, id, index);
    RunKeepsRead(run, steps, i + 1, j, (n, id));
    RunInv(run, steps, j);
    assert ReadOk(run[j], (n, id));
  }

  /** The node calls the read confirmed, and all its acknowledgements were given after registration. */
  ghost predicate FreshlyConfirmed(c: Cluster, n: NodeId, id: nat)
  {
    && n in c.nodes && (n, id) in c.readLog && c.nodes[n].pendingReads.IsConfirmed(id)
    && c.nodes[n].pendingReads.pending[id].acks <= c.readLog[(n, id)].confirmedBy
  }

  /**
   The index a client is told bounds every index committed anywhere when it asked, once the read is
   confirmed, provided the leader had then committed all that earlier terms left.
   */
  lemma AnswerBoundsCommits(run: seq<Cluster>, steps: seq<Step>, i: nat, j: nat, n: NodeId, id: nat, index: LogIndex,
                            m: NodeId)
    requires AsksToRead(run, steps, i, n, id, index) && i < j < |run| && m in run[i].nodes
    requires OldCommitted(run[i].nodes[n]) && FreshlyConfirmed(run[j], n, id)
    ensures run[i].nodes[m].commitIndex <= index
  {
    hide Init, Next, ClusterInv, OldCommitted;
    AskedRead(run, steps, i, n, id, index);
    RunKeepsRead(run, steps, i + 1, j, (n, id));
    RunMovesUp(run, steps, i, j, m);
    RunInv(run, steps, j);
    MembersAreNodes(run[j]);
    ConfirmedReadIsLinearizable(run[j], n, id, m);
    TakenIndexIsTheAnswer(run, steps, i, j, n, id, index);
  }

  lemma MembersAreNodes(c: Cluster)
    requires ClusterInv(c)
    ensures c.nodes.Keys == c.members
  {
  }

  /**
   Linearizable reads, end to end: a client that was told an index, saw the read confirmed and is
   served when the node has applied that index finds everything that any node had committed, hence
   everything any node had delivered, when the client asked.
   */
  lemma ServedReadSeesEverything(run: seq<Cluster>, steps: seq<Step>, i: nat, j: nat, k: nat, n: NodeId, id: nat,
                                 index: LogIndex, m: NodeId)
    requires AsksToRead(run, steps, i, n, id, index) && i < j < |run| && m in run[i].nodes
    requires OldCommitted(run[i].nodes[n]) && FreshlyConfirmed(run[j], n, id)
    requires k < |run| && n in run[k].nodes && run[k].nodes[n].lastApplied >= index
    ensures n in run[k].delivered && m in run[i].delivered
    ensures run[i].nodes[m].commitIndex <= |run[i].nodes[m].log.entries|
    ensures run[i].nodes[m].log.entries[..run[i].nodes[m].commitIndex] <= run[k].delivered[n]
    ensures run[i].delivered[m] <= run[k].delivered[n]
  {
    hide Init, Next, ClusterInv, OldCommitted, RequestReadIndex;
    AnswerBoundsCommits(run, steps, i, j, n, id, index, m);
    SeenByAll(run, steps, i, k, m, n);
    RunInv(run, steps, i);
    DeliveredIsApplied(run[i], m);
  }
}
