/** Read index: registration, acknowledgement and the bound that a quorum of fresh acks certifies. */
module ClusterReads {
  import opened RaftTypes
  import opened Quorums
  import opened ReadIndexes
  import opened NodeModel
  import opened Replication
  import opened Clusters
  import opened ClusterSteps

  // --------------------------------------------------------------- the commit bound

  /** A commit of a term is backed by a majority that had reached the term. */
  lemma CommitterReached(s: State, w: Term, q: set<NodeId>, t: Term)
    requires InvAccepted(s) && w in s.h.leaderCommit && CommitOk(s, w) && s.h.leaderCommit[w] > 0
    requires Quorum(s, q) && forall v :: v in q ==> v in s.views && s.views[v].term <= t
    ensures w <= t
  {
    var p :| Quorum(s, p) && AllAccepted(s, p, w, s.h.leaderCommit[w]);
    var v := MajoritiesMeet(p, q, s.members);
    assert Accepted(s.h, w, v) > 0;
    assert AcceptedOk(s, w, v);
  }

  lemma TermLogBound(s: State, w: Term, i: nat)
    requires InvLeaders(s) && InvCampaign(s) && w in s.h.termLog && i < |s.h.termLog[w]|
    ensures s.h.termLog[w][i].term <= w
  {
    assert LeaderOk(s, w);
    var c := s.h.leader[w];
    assert CampaignOk(s, w, c);
    if i < |s.h.campaign[(w, c)]| { assert s.h.termLog[w][i] == s.h.campaign[(w, c)][i]; }
  }

  /** Node `n` leads its term and its uncommitted entries are all of that term. */
  ghost predicate LeaderCommittedOld(s: State, n: NodeId)
    requires n in s.views
  {
    var x := s.views[n];
    && x.term in s.h.leader && s.h.leader[x.term] == n
    && forall i :: x.commit <= i < |x.log| ==> x.log[i].term == x.term
  }

  /** An entry of an older term sits below every entry of the leader's own term. */
  lemma OlderCommitIsShorter(s: State, n: NodeId, w: Term, prefix: seq<LogEntry>)
    requires InvViews(s) && InvLeaders(s) && InvCampaign(s) && InvComplete(s) && InvCommit(s) && n in s.views
    requires LeaderCommittedOld(s, n)
    requires CommittedIn(s.h, w, prefix) && w < s.views[n].term && prefix != []
    ensures |prefix| <= s.views[n].commit
  {
    var x := s.views[n];
    assert ViewOk(s, n);
    CommittedReachesLaterLeaders(s, w, prefix, x.term);
    TermLogBound(s, w, |prefix| - 1);
    assert x.log[|prefix| - 1] == prefix[|prefix| - 1] == s.h.termLog[w][|prefix| - 1];
  }

  /**
   If a leader has committed all that earlier terms left in its log, and a majority has not left its
   term, then no node has committed beyond the leader's commit index.
   */
  lemma QuorumConfirmsCommit(s: State, n: NodeId, q: set<NodeId>, m: NodeId)
    requires Replication.Inv(s) && n in s.views && m in s.views
    requires LeaderCommittedOld(s, n)
    requires Quorum(s, q) && forall v :: v in q ==> v in s.views && s.views[v].term <= s.views[n].term
    ensures s.views[m].commit <= s.views[n].commit
  {
    var k := s.views[m].commit;
    if k > 0 {
      var prefix := s.views[m].log[..k];
      assert CommittedBy(s.h, s.views[m].term, prefix);
      var w: Term :| CommittedIn(s.h, w, prefix) && w <= s.views[m].term;
      assert CommitOk(s, w);
      CommitterReached(s, w, q, s.views[n].term);
      if w < s.views[n].term { OlderCommitIsShorter(s, n, w, prefix); }
    }
  }

  // -------------------------------------------------------------------- registration

  ghost function InfoAt(c: Cluster, n: NodeId): ReadInfo
    requires n in c.nodes
  {
    var s := c.nodes[n];
    ReadInfo(s.term, c.clock, s.commitIndex, OldCommitted(s),
             map m | m in c.nodes :: c.nodes[m].commitIndex, map m | m in c.nodes :: c.nodes[m].term, {n})
  }

  /** The condition, in the leader's own terms: it has committed at least the log it won its election with. */
  lemma OldCommittedExactly(c: Cluster, n: NodeId)
    requires InvViews(Abs(c)) && InvLeaders(Abs(c)) && InvCampaign(Abs(c)) && n in c.nodes && LeadingOk(c, n)
    requires c.nodes[n].role == Leader && c.nodes[n].commitIndex <= |c.nodes[n].log.entries|
    ensures (c.nodes[n].term, n) in c.h.campaign
    ensures OldCommitted(c.nodes[n]) <==> c.nodes[n].commitIndex >= |c.h.campaign[(c.nodes[n].term, n)]|
  {
    var a, t := Abs(c), c.nodes[n].term;
    assert ViewOk(a, n) && LeaderOk(a, t) && CampaignOk(a, t, n);
    var won := c.h.campaign[(t, n)];
    if c.nodes[n].commitIndex < |won| { assert c.nodes[n].log.entries[c.nodes[n].commitIndex]
        == won[c.nodes[n].commitIndex]; }
  }

  /** A committed entry of its own term is more than enough. */
  lemma OwnCommitSuffices(c: Cluster, n: NodeId)
    requires InvViews(Abs(c)) && n in c.nodes
    requires var s := c.nodes[n];
             0 < s.commitIndex <= |s.log.entries| && s.log.entries[s.commitIndex - 1].term == s.term
    ensures OldCommitted(c.nodes[n])
  {
    assert ViewOk(Abs(c), n);
  }

  lemma RegisteredBound(c: Cluster, n: NodeId)
    requires Replication.Inv(Abs(c)) && n in c.nodes && LeadingOk(c, n) && c.nodes[n].role == Leader
    ensures ReadBound(c.members, InfoAt(c, n))
  {
    var info := InfoAt(c, n);
    if info.oldCommitted {
      forall q, m | Unmoved(c.members, info, q) && m in info.commits
        ensures info.commits[m] <= info.readIndex
      {
        QuorumConfirmsCommit(Abs(c), n, q, m);
      }
    }
  }

  lemma ReadNodeOk(c: Cluster, n: NodeId, pending: Reads)
    requires n in c.nodes && NodeOk(c, n) && pending.Fresh()
    ensures NodeOk(Put(c, n, c.nodes[n].(pendingReads := pending), c.h), n)
  {
  }

  /** Reads that were recorded before stay in order when node `n` gets a new table of pending requests. */
  lemma OldReadOk(c: Cluster, c': Cluster, n: NodeId, k: (NodeId, nat))
    requires NodesOk(c) && n in c.nodes && Local(c, c', n) && k in c.readLog && ReadOk(c, k) && k in c'.readLog
    requires var i, i' := c.readLog[k], c'.readLog[k];
             i'.(confirmedBy := i.confirmedBy) == i && i'.confirmedBy <= c.members
             && forall v :: v in i'.confirmedBy ==> v in i.confirmedBy || i.terms[v] <= i.term
    requires c.nodes[n].pendingReads.nextId <= c'.nodes[n].pendingReads.nextId
    requires k.0 == n && k.1 in c'.nodes[n].pendingReads.pending ==>
               k.1 in c.nodes[n].pendingReads.pending
               && var p, p' := c.nodes[n].pendingReads.pending[k.1], c'.nodes[n].pendingReads.pending[k.1];
               p'.readIndex == p.readIndex && p'.clusterSize == p.clusterSize && p'.acks <= c.members
    ensures ReadOk(c', k)
  {
    assert ReadBound(c'.members, c'.readLog[k]) by {
      forall q | Unmoved(c'.members, c'.readLog[k], q) ensures Unmoved(c.members, c.readLog[k], q) {}
    }
  }

  lemma NewReadOk(c: Cluster, n: NodeId)
    requires n in c.nodes && c.nodes.Keys == c.members && NodeOk(c, n) && c.nodes[n].role == Leader
    requires ReadBound(c.members, InfoAt(c, n))
    ensures var c' := DoRequestRead(c, n); var k := (n, c.nodes[n].pendingReads.nextId);
            k in c'.readLog && ReadOk(c', k)
  {
    ClusterSize(c, n);
    assert DoRequestRead(c, n).readLog[(n, c.nodes[n].pendingReads.nextId)] == InfoAt(c, n);
  }

  lemma RequestReads(c: Cluster, n: NodeId)
    requires ClusterInv(c) && n in c.nodes && NodeOk(c, n) && c.nodes[n].role == Leader
    requires Local(c, DoRequestRead(c, n), n)
    ensures ReadsOk(DoRequestRead(c, n))
  {
    var c' := DoRequestRead(c, n);
    RegisteredBound(c, n);
    NewReadOk(c, n);
    forall k | k in c'.readLog
      ensures ReadOk(c', k)
    {
      if k != (n, c.nodes[n].pendingReads.nextId) {
        assert ReadOk(c, k);
        OldReadOk(c, c', n, k);
      }
    }
  }

  /** Frame for steps inside a node that do touch the read table. */
  lemma ReadFrame(c: Cluster, c': Cluster, n: NodeId)
    requires ClusterInv(c) && Local(c, c', n) && NodeOk(c', n) && ReadsOk(c') && ReadLogGrows(c, c')
    requires c'.voteRequests == c.voteRequests && c'.voteReplies == c.voteReplies
    requires c'.appendRequests == c.appendRequests && c'.appendReplies == c.appendReplies
    ensures ClusterInv(c')
  {
    LocalMoves(c, c', n);
    NoMessages(c, c');
    NodesAfter(c, c', n);
    MessagesAfter(c, c', n);
  }

  lemma RequestParts(c: Cluster, n: NodeId)
    requires n in c.nodes && NodeOk(c, n) && c.nodes[n].role == Leader
    ensures Local(c, DoRequestRead(c, n), n) && NodeOk(DoRequestRead(c, n), n) && ReadLogGrows(c, DoRequestRead(c, n))
  {
    ReadNodeOk(c, n, RequestReadIndex(c.nodes[n]).0.pendingReads);
  }

  lemma RequestReadStepOk(c: Cluster, n: NodeId)
    requires ClusterInv(c) && n in c.nodes
    ensures ClusterInv(DoRequestRead(c, n))
  {
    assert NodeOk(c, n);
    if c.nodes[n].role == Leader {
      RequestParts(c, n);
      RequestReads(c, n);
      ReadFrame(c, DoRequestRead(c, n), n);
    } else {
      Tick(c, n);
    }
  }

  // ----------------------------------------------------------------- acknowledgements

  lemma AckReadOk(c: Cluster, r: AppendReply, k: (NodeId, nat))
    requires NodesOk(c) && r.to in c.nodes && AppendReplyOk(c, r) && r.resp.success && Local(c, DoReadAck(c, r), r.to)
    requires k in c.readLog && ReadOk(c, k)
    ensures ReadOk(DoReadAck(c, r), k)
  {
    OldReadOk(c, DoReadAck(c, r), r.to, k);
  }

  lemma AckReads(c: Cluster, r: AppendReply)
    requires ReadsOk(c) && NodesOk(c) && r.to in c.nodes && AppendReplyOk(c, r) && r.resp.success
             && Local(c, DoReadAck(c, r), r.to)
    ensures ReadsOk(DoReadAck(c, r))
  {
    var c' := DoReadAck(c, r);
    forall k | k in c'.readLog
      ensures ReadOk(c', k)
    {
      assert ReadOk(c, k);
      AckReadOk(c, r, k);
    }
  }

  lemma AckParts(c: Cluster, r: AppendReply)
    requires r.to in c.nodes && NodeOk(c, r.to)
    ensures Local(c, DoReadAck(c, r), r.to) && NodeOk(DoReadAck(c, r), r.to) && ReadLogGrows(c, DoReadAck(c, r))
  {
    ReadNodeOk(c, r.to, ReadIndexAck(c.nodes[r.to], r.from).pendingReads);
  }

  lemma ReadAckStepOk(c: Cluster, r: AppendReply)
    requires ClusterInv(c) && r.to in c.nodes && r in c.appendReplies && r.resp.success
    ensures ClusterInv(DoReadAck(c, r))
  {
    assert NodeOk(c, r.to);
    assert AppendReplyOk(c, r);
    AckParts(c, r);
    AckReads(c, r);
    ReadFrame(c, DoReadAck(c, r), r.to);
  }

  lemma TakeReadParts(c: Cluster, n: NodeId, id: nat)
    requires n in c.nodes && NodeOk(c, n)
    ensures var c' := Put(c, n, TakeReadIndex(c.nodes[n], id).0, c.h);
            Local(c, c', n) && NodeOk(c', n) && ReadLogGrows(c, c')
  {
    ReadNodeOk(c, n, TakeReadIndex(c.nodes[n], id).0.pendingReads);
  }

  lemma TakeReads(c: Cluster, n: NodeId, id: nat)
    requires ReadsOk(c) && NodesOk(c) && n in c.nodes && Local(c, Put(c, n, TakeReadIndex(c.nodes[n], id).0, c.h), n)
    ensures ReadsOk(Put(c, n, TakeReadIndex(c.nodes[n], id).0, c.h))
  {
    var c' := Put(c, n, TakeReadIndex(c.nodes[n], id).0, c.h);
    forall k | k in c'.readLog
      ensures ReadOk(c', k)
    {
      assert ReadOk(c, k);
      OldReadOk(c, c', n, k);
    }
  }

  lemma TakeReadStepOk(c: Cluster, n: NodeId, id: nat)
    requires ClusterInv(c) && n in c.nodes
    ensures ClusterInv(Put(c, n, TakeReadIndex(c.nodes[n], id).0, c.h))
  {
    assert NodeOk(c, n);
    TakeReadParts(c, n, id);
    TakeReads(c, n, id);
    ReadFrame(c, Put(c, n, TakeReadIndex(c.nodes[n], id).0, c.h), n);
  }
}
