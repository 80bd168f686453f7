/** The steps of a leader, the delivery of committed entries, reads and transfers keep the invariant. */
module ClusterLeaderSteps {
  import opened Common
  import opened Bytes
  import opened RaftTypes
  import opened RaftLogs
  import opened MembershipStates
  import opened NodeModel
  import opened Replication
  import opened ReplicationSteps
  import opened Clusters
  import opened ClusterSteps

  // ------------------------------------------------------------------ append replies

  ghost predicate Processed(s: Node, r: AppendReply)
  {
    r.resp.term <= s.term && s.role == Leader && s.leader.Some?
  }

  /** A leader's log is its term log, and a reply of its term reports no more than was acknowledged. */
  lemma RecordedMatchOk(c: Cluster, n: NodeId, r: AppendReply)
    requires n in c.nodes && LeadingOk(c, n) && AppendReplyOk(c, r) && Processed(c.nodes[n], r)
             && c.nodes[n].term == r.reqTerm
    requires InvViews(Abs(c)) && InvAccepted(Abs(c))
    ensures MatchOk(c, c.nodes[n].term, RecordResponse(c.nodes[n].leader.value, r.from, r.resp),
            |c.nodes[n].log.entries|)
  {
    assert ViewOk(Abs(c), n);
    if r.resp.success { assert AcceptedOk(Abs(c), r.reqTerm, r.from); }
  }

  /** The voters for an index are a majority that has acknowledged it. */
  lemma VotersChoose(c: Cluster, n: NodeId, ls: LeaderState, k: LogIndex)
    requires n in c.nodes && c.nodes.Keys == c.members && BaseOk(c, n)
    requires MatchOk(c, c.nodes[n].term, ls, |c.nodes[n].log.entries|) && c.nodes[n].membership.HasQuorum(Voters(ls, k))
    ensures Chosen(Abs(c), c.nodes[n].term, k)
  {
    hide Membership.HasQuorum, PeersOk;
    ClusterSize(c, n);
    var q := Voters(ls, k);
    QuorumIsMajority(c.nodes[n].membership, q);
    assert Quorum(Abs(c), q) && AllAccepted(Abs(c), q, c.nodes[n].term, k);
  }

  /** An entry of the leader's own term in its log is one of its term log. */
  lemma LeaderOwns(c: Cluster, n: NodeId, k: LogIndex)
    requires n in c.nodes && BaseOk(c, n) && InvViews(Abs(c))
    requires c.nodes[n].term in c.h.leader && c.h.leader[c.nodes[n].term] == n
    requires k > 0 && c.nodes[n].log.Get(k).Some? && c.nodes[n].log.Get(k).value.term == c.nodes[n].term
    ensures Own(c.h, c.nodes[n].term, k)
  {
    hide LogOk, PeersOk;
    assert ViewOk(Abs(c), n);
  }

  lemma CommittableMayCommit(c: Cluster, n: NodeId, ls: LeaderState, k: LogIndex)
    requires n in c.nodes && c.nodes.Keys == c.members && BaseOk(c, n) && InvViews(Abs(c)) && InvLeaders(Abs(c))
    requires c.nodes[n].term in c.h.leader && c.h.leader[c.nodes[n].term] == n
    requires MatchOk(c, c.nodes[n].term, ls, |c.nodes[n].log.entries|) && Committable(c.nodes[n], ls, k)
    ensures MayCommit(Abs(c), n, k)
  {
    hide Membership.HasQuorum, Chosen, Own, BaseOk, MatchOk, InvViews, InvLeaders, Log.Get;
    VotersChoose(c, n, ls, k);
    LeaderOwns(c, n, k);
  }

  ghost predicate Advances(s: Node, r: AppendReply)
  {
    HandleAppendResponse(s, r.from, r.resp).commitIndex != s.commitIndex
  }

  lemma AdvanceAllowed(c: Cluster, r: AppendReply)
    requires r.to in c.nodes && c.nodes.Keys == c.members && BaseOk(c, r.to) && InvViews(Abs(c)) && InvLeaders(Abs(c))
    requires LeadingOk(c, r.to) && Processed(c.nodes[r.to], r) && Advances(c.nodes[r.to], r)
    requires MatchOk(c, c.nodes[r.to].term, RecordResponse(c.nodes[r.to].leader.value, r.from, r.resp),
             |c.nodes[r.to].log.entries|)
    ensures MayCommit(Abs(c), r.to, HandleAppendResponse(c.nodes[r.to], r.from, r.resp).commitIndex)
  {
    var s := c.nodes[r.to];
    var ls := RecordResponse(s.leader.value, r.from, r.resp);
    var s1 := s.(leader := Some(ls));
    var ns := CommitCandidates(s1, ls);
    var k := Greatest(ns);
    assert k in ns;
    assert Committable(s1, ls, k);
    assert Committable(s, ls, k);
    CommittableMayCommit(c, r.to, ls, k);
  }

  lemma ReplyParts(c: Cluster, r: AppendReply)
    requires r.to in c.nodes && NodeOk(c, r.to) && Processed(c.nodes[r.to], r)
    requires MatchOk(c, c.nodes[r.to].term, RecordResponse(c.nodes[r.to].leader.value, r.from, r.resp),
             |c.nodes[r.to].log.entries|)
    requires var k := HandleAppendResponse(c.nodes[r.to], r.from, r.resp).commitIndex;
             c.nodes[r.to].commitIndex <= k <= |c.nodes[r.to].log.entries|
    ensures var c' := DoAppendReply(c, r); NodeOk(c', r.to) && NewMessagesOk(c, c') && ReadsUntouched(c, c', r.to)
  {
    var n, c' := r.to, DoAppendReply(c, r);
    ReplyNode(c.nodes[n], r);
    assert LeadingOk(c', n);
    assert BallotOk(c', n) && ElectionOk(c', n) && AppliedOk(c', n);
    NoMessages(c, c');
  }

  lemma ReplyNode(s: Node, r: AppendReply)
    requires Processed(s, r)
    ensures var s' := HandleAppendResponse(s, r.from, r.resp);
            s' == s.(leader := Some(RecordResponse(s.leader.value, r.from, r.resp)), commitIndex := s'.commitIndex)
  {
  }

  lemma AdvanceAbs(c: Cluster, r: AppendReply)
    requires r.to in c.nodes && Processed(c.nodes[r.to], r) && Advances(c.nodes[r.to], r)
    ensures Abs(DoAppendReply(c, r)) == Commit(Abs(c), r.to,
            HandleAppendResponse(c.nodes[r.to], r.from, r.resp).commitIndex)
  {
    AbsPut(c, DoAppendReply(c, r), r.to);
  }

  lemma CommitHistory(s: State, n: NodeId, k: nat)
    requires MayCommit(s, n, k) && InvLeaders(s) && InvCommit(s)
    ensures HistoryGrows(s.h, Commit(s, n, k).h, n)
  {
    assert CommitOk(s, s.views[n].term);
  }

  lemma AdvanceMoves(c: Cluster, r: AppendReply, k: nat)
    requires Replication.Inv(Abs(c)) && r.to in c.nodes && NodeOk(c, r.to) && Processed(c.nodes[r.to], r)
             && Advances(c.nodes[r.to], r)
    requires k == HandleAppendResponse(c.nodes[r.to], r.from, r.resp).commitIndex && MayCommit(Abs(c), r.to, k)
    ensures Replication.Inv(Abs(DoAppendReply(c, r))) && Moves(c, DoAppendReply(c, r), r.to)
  {
    AdvanceAbs(c, r);
    CommitHistory(Abs(c), r.to, k);
    CommitInv(Abs(c), r.to, k);
    MovesTo(c, DoAppendReply(c, r), r.to);
  }

  lemma MayCommitBounds(s: State, n: NodeId, k: nat)
    requires MayCommit(s, n, k) && InvViews(s)
    ensures s.views[n].commit <= k <= |s.views[n].log|
  {
    assert ViewOk(s, n);
  }

  lemma AdvanceStep(c: Cluster, r: AppendReply)
    requires ClusterInv(c) && r.to in c.nodes && NodeOk(c, r.to) && Processed(c.nodes[r.to], r)
             && Advances(c.nodes[r.to], r)
    requires MatchOk(c, c.nodes[r.to].term, RecordResponse(c.nodes[r.to].leader.value, r.from, r.resp),
             |c.nodes[r.to].log.entries|)
    ensures ClusterInv(DoAppendReply(c, r))
  {
    var k := HandleAppendResponse(c.nodes[r.to], r.from, r.resp).commitIndex;
    AdvanceAllowed(c, r);
    MayCommitBounds(Abs(c), r.to, k);
    ReplyParts(c, r);
    AdvanceMoves(c, r, k);
    Frame(c, DoAppendReply(c, r), r.to);
  }

  lemma RecordLocal(c: Cluster, r: AppendReply)
    requires r.to in c.nodes && NodeOk(c, r.to) && Processed(c.nodes[r.to], r) && !Advances(c.nodes[r.to], r)
    ensures Local(c, DoAppendReply(c, r), r.to)
  {
    ReplyNode(c.nodes[r.to], r);
  }

  lemma RecordStep(c: Cluster, r: AppendReply)
    requires ClusterInv(c) && r.to in c.nodes && NodeOk(c, r.to) && Processed(c.nodes[r.to], r)
             && !Advances(c.nodes[r.to], r)
    requires MatchOk(c, c.nodes[r.to].term, RecordResponse(c.nodes[r.to].leader.value, r.from, r.resp),
             |c.nodes[r.to].log.entries|)
    ensures ClusterInv(DoAppendReply(c, r))
  {
    ReplyParts(c, r);
    RecordLocal(c, r);
    LocalFrame(c, DoAppendReply(c, r), r.to);
  }

  lemma ProcessedStep(c: Cluster, r: AppendReply)
    requires ClusterInv(c) && r.to in c.nodes && NodeOk(c, r.to) && AppendReplyOk(c, r)
    requires Processed(c.nodes[r.to], r) && c.nodes[r.to].term == r.reqTerm
    ensures ClusterInv(DoAppendReply(c, r))
  {
    RecordedMatchOk(c, r.to, r);
    if Advances(c.nodes[r.to], r) { AdvanceStep(c, r); } else { RecordStep(c, r); }
  }

  lemma UnprocessedReply(c: Cluster, r: AppendReply)
    requires r.to in c.nodes && !Processed(c.nodes[r.to], r)
    ensures DoAppendReply(c, r) ==
            Put(c, r.to, if r.resp.term > c.nodes[r.to].term then StepDown(c.nodes[r.to], r.resp.term)
                else c.nodes[r.to], c.h)
  {
  }

  lemma AppendReplyStepOk(c: Cluster, r: AppendReply)
    requires ClusterInv(c) && r.to in c.nodes && r in c.appendReplies
    requires c.nodes[r.to].role == Leader && r.resp.term <= c.nodes[r.to].term ==> c.nodes[r.to].term == r.reqTerm
    ensures ClusterInv(DoAppendReply(c, r))
  {
    if Processed(c.nodes[r.to], r) {
      assert AppendReplyOk(c, r);
      assert NodeOk(c, r.to);
      ProcessedStep(c, r);
    } else {
      UnprocessedReply(c, r);
      if r.resp.term > c.nodes[r.to].term { OutdatedReply(c, r.to, r.resp.term); } else { Tick(c, r.to); }
    }
  }

  // ------------------------------------------------------------------------ proposals

  ghost function Proposed(s: Node, data: Bytes): LogEntry
  {
    LogEntry(|s.log.entries| + 1, s.term, data, Normal)
  }

  lemma ProposeNodeOk(c: Cluster, n: NodeId, data: Bytes)
    requires n in c.nodes && n in c.members && NodeOk(c, n) && Propose(c.nodes[n], data).1.Ok?
    requires c.nodes[n].log.LastIndex() == |c.nodes[n].log.entries|
    requires InvAccepted(Abs(c)) && InvViews(Abs(c))
    ensures var c' := DoPropose(c, n, data); NodeOk(c', n) && NewMessagesOk(c, c') && ReadsUntouched(c, c', n)
  {
    var c' := DoPropose(c, n, data);
    var s, s' := c.nodes[n], c'.nodes[n];
    assert s'.log.entries == s.log.entries + [Proposed(s, data)];
    assert s'.log.LastIndex() == |s.log.entries| + 1;
    assert s'.log.entries[..s.lastApplied] == s.log.entries[..s.lastApplied];
    assert AppliedOk(c', n) && BallotOk(c', n) && ElectionOk(c', n);
    assert AcceptedOk(Abs(c), s.term, n);
    assert LeadingOk(c', n);
    NoMessages(c, c');
  }

  lemma ProposeAbs(c: Cluster, n: NodeId, data: Bytes)
    requires n in c.nodes && Propose(c.nodes[n], data).1.Ok? && c.nodes[n].log.LastIndex() == |c.nodes[n].log.entries|
    ensures Abs(DoPropose(c, n, data)) == Extend(Abs(c), n, Proposed(c.nodes[n], data))
  {
    AbsPut(c, DoPropose(c, n, data), n);
  }

  lemma ExtendHistory(s: State, n: NodeId, e: LogEntry)
    requires n in s.views
    ensures HistoryGrows(s.h, Extend(s, n, e).h, n)
  {
  }

  lemma ProposeMoves(c: Cluster, n: NodeId, data: Bytes)
    requires Replication.Inv(Abs(c)) && n in c.nodes && NodeOk(c, n) && Propose(c.nodes[n], data).1.Ok?
    requires c.nodes[n].log.LastIndex() == |c.nodes[n].log.entries|
    ensures Replication.Inv(Abs(DoPropose(c, n, data))) && Moves(c, DoPropose(c, n, data), n)
  {
    var e := Proposed(c.nodes[n], data);
    ProposeAbs(c, n, data);
    ExtendHistory(Abs(c), n, e);
    ExtendInv(Abs(c), n, e);
    MovesTo(c, DoPropose(c, n, data), n);
  }

  lemma ProposingStep(c: Cluster, n: NodeId, data: Bytes)
    requires ClusterInv(c) && n in c.nodes && NodeOk(c, n) && Propose(c.nodes[n], data).1.Ok?
    ensures ClusterInv(DoPropose(c, n, data))
  {
    NodeLog(c, n);
    ProposeNodeOk(c, n, data);
    ProposeMoves(c, n, data);
    Frame(c, DoPropose(c, n, data), n);
  }

  lemma RefusedProposal(c: Cluster, n: NodeId, data: Bytes)
    requires n in c.nodes && !Propose(c.nodes[n], data).1.Ok?
    ensures DoPropose(c, n, data) == Put(c, n, c.nodes[n], c.h)
  {
  }

  lemma ProposeStepOk(c: Cluster, n: NodeId, data: Bytes)
    requires ClusterInv(c) && n in c.nodes
    ensures ClusterInv(DoPropose(c, n, data))
  {
    assert NodeOk(c, n);
    if Propose(c.nodes[n], data).1.Ok? {
      ProposingStep(c, n, data);
    } else {
      RefusedProposal(c, n, data);
      Tick(c, n);
    }
  }

  // ---------------------------------------------------------------- sending appends

  /** A leader's log always ends in an entry of its own term, because winning appends one. */
  lemma LeaderLogEndsInOwnTerm(s: State, n: NodeId)
    requires InvViews(s) && InvLeaders(s) && n in s.views
    requires s.views[n].term in s.h.leader && s.h.leader[s.views[n].term] == n
    ensures Own(s.h, s.views[n].term, |s.views[n].log|) && s.h.termLog[s.views[n].term] == s.views[n].log
  {
    assert ViewOk(s, n) && LeaderOk(s, s.views[n].term);
  }

  lemma SentRequestOk(c: Cluster, n: NodeId, peer: NodeId)
    requires n in c.nodes && BaseOk(c, n) && LeadingOk(c, n) && c.nodes[n].role == Leader && c.nodes[n].leader.Some?
    requires InvViews(Abs(c)) && InvLeaders(Abs(c)) && InvCommit(Abs(c))
    ensures AppendRequestOk(c.h, AppendRequestFor(c.nodes[n], c.nodes[n].leader.value, peer))
  {
    var s := c.nodes[n];
    var req := AppendRequestFor(s, s.leader.value, peer);
    LeaderLogEndsInOwnTerm(Abs(c), n);
    var log := s.log.entries;
    assert req.entries == log[req.prevLogIndex..];
    assert req.entries == log[req.prevLogIndex..|log|];
    assert Abs(c).views[n].commit <= |log|;
  }

  lemma SendParts(c: Cluster, n: NodeId)
    requires n in c.nodes && NodeOk(c, n) && InvViews(Abs(c)) && InvLeaders(Abs(c)) && InvCommit(Abs(c))
    ensures var c' := DoSendAppends(c, n);
            NodeOk(c', n) && NewMessagesOk(c, c') && ReadsUntouched(c, c', n) && Local(c, c', n)
  {
    var c' := DoSendAppends(c, n);
    TickParts(c, n);
    assert NodeOk(c', n);
    forall p | p in c'.appendRequests - c.appendRequests
      ensures AppendRequestOk(c'.h, p.1)
    {
      SentRequestOk(c, n, p.0);
    }
  }

  lemma SendStepOk(c: Cluster, n: NodeId)
    requires ClusterInv(c) && n in c.nodes
    ensures ClusterInv(DoSendAppends(c, n))
  {
    assert NodeOk(c, n);
    SendParts(c, n);
    LocalFrame(c, DoSendAppends(c, n), n);
  }

  // ------------------------------------------------------------------------ delivery

  lemma {:induction false} CollectIsSlice(log: Log, from: LogIndex, count: nat)
    requires log.snapshotIndex == 0 && from + count <= |log.entries|
    ensures Collect(log, from, count) == log.entries[from..from + count]
    decreases count
  {
    if count > 0 {
      CollectIsSlice(log, from + 1, count - 1);
      assert log.entries[from..from + count] == [log.entries[from]] + log.entries[from + 1..from + count];
    }
  }

  lemma TakeParts(c: Cluster, n: NodeId)
    requires n in c.nodes && NodeOk(c, n)
    ensures var c' := DoTakeCommitted(c, n);
            NodeOk(c', n) && NewMessagesOk(c, c') && ReadsUntouched(c, c', n) && Local(c, c', n)
  {
    var c' := DoTakeCommitted(c, n);
    var s := c.nodes[n];
    if s.lastApplied < s.commitIndex {
      CollectIsSlice(s.log, s.lastApplied, s.commitIndex - s.lastApplied);
      assert s.log.entries[..s.commitIndex]
             == s.log.entries[..s.lastApplied] + s.log.entries[s.lastApplied..s.commitIndex];
    }
    assert AppliedOk(c', n) && BallotOk(c', n) && ElectionOk(c', n) && LeadingOk(c', n);
    NoMessages(c, c');
  }

  lemma TakeStepOk(c: Cluster, n: NodeId)
    requires ClusterInv(c) && n in c.nodes
    ensures ClusterInv(DoTakeCommitted(c, n))
  {
    assert NodeOk(c, n);
    TakeParts(c, n);
    LocalFrame(c, DoTakeCommitted(c, n), n);
  }

  // ------------------------------------------------------------------------ transfers

  lemma TransferParts(c: Cluster, n: NodeId, t: Option<Transfer>)
    requires n in c.nodes && NodeOk(c, n)
    ensures var c' := Put(c, n, c.nodes[n].(transfer := t), c.h);
            NodeOk(c', n) && NewMessagesOk(c, c') && ReadsUntouched(c, c', n) && Local(c, c', n)
  {
    NoMessages(c, Put(c, n, c.nodes[n].(transfer := t), c.h));
  }

  lemma SameButTransfer(c: Cluster, n: NodeId, t: Option<Transfer>)
    requires ClusterInv(c) && n in c.nodes
    ensures ClusterInv(Put(c, n, c.nodes[n].(transfer := t), c.h))
  {
    assert NodeOk(c, n);
    TransferParts(c, n, t);
    LocalFrame(c, Put(c, n, c.nodes[n].(transfer := t), c.h), n);
  }
}
