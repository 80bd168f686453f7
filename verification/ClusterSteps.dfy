/** Every step of every node keeps the cluster invariant. */
module ClusterSteps {
  import opened RaftTypes
  import opened MembershipStates
  import opened NodeModel
  import opened Replication
  import opened ReplicationSteps
  import opened AppendMerge
  import opened Clusters

  // ------------------------------------------------------------- one node moves

  /** Only node `n` moves, and the history only grows on its behalf. */
  ghost predicate Moves(c: Cluster, c': Cluster, n: NodeId)
  {
    && c'.members == c.members && c'.nodes.Keys == c.nodes.Keys
    && n in c.nodes && n in c'.rounds && n in c'.delivered
    && (forall m :: m in c.nodes && m != n ==> c'.nodes[m] == c.nodes[m])
    && (forall m :: m in c.rounds && m != n ==> m in c'.rounds && c'.rounds[m] == c.rounds[m])
    && (forall m :: m in c.delivered && m != n ==> m in c'.delivered && c'.delivered[m] == c.delivered[m])
    && c.clock <= c'.clock
    && HistoryGrows(c.h, c'.h, n)
    && Evolves(Abs(c), Abs(c'))
  }

  ghost predicate HistoryGrows(h: History, h': History, n: NodeId)
  {
    && (forall k :: k in h.votes ==> k in h'.votes && h'.votes[k] == h.votes[k])
    && (forall k :: k in h'.votes && k !in h.votes ==> k.1 == n)
    && (forall k :: k in h.campaign ==> k in h'.campaign && h'.campaign[k] == h.campaign[k])
    && (forall t :: t in h.leader ==> t in h'.leader && h'.leader[t] == h.leader[t])
    && (forall t :: t in h'.leader && t !in h.leader ==> h'.leader[t] == n)
    && (forall k :: k in h.accepted ==> k in h'.accepted)
    && h.leaderCommit.Keys <= h'.leaderCommit.Keys
    && (forall t :: t in h.leaderCommit ==> h.leaderCommit[t] <= h'.leaderCommit[t])
  }

  lemma AbsPut(c: Cluster, c': Cluster, n: NodeId)
    requires n in c.nodes && c'.members == c.members && c'.nodes.Keys == c.nodes.Keys
    requires forall m :: m in c.nodes && m != n ==> c'.nodes[m] == c.nodes[m]
    ensures Abs(c').views == Abs(c).views[n := ViewOf(c'.nodes[n])]
  {
  }

  lemma EvolvesSame(s: State)
    ensures Evolves(s, s)
  {
  }

  lemma OtherNodeOk(c: Cluster, c': Cluster, n: NodeId, m: NodeId)
    requires Moves(c, c', n) && m in c.nodes && m != n && NodeOk(c, m)
    ensures NodeOk(c', m)
  {
    var s := c.nodes[m];
    assert BallotOk(c', m);
    assert ElectionOk(c', m);
    if s.role == Leader && s.leader.Some? {
      forall v | v in s.leader.value.matchIndex
        ensures s.leader.value.matchIndex[v] <= Accepted(c'.h, s.term, v)
      {
        assert Accepted(c.h, s.term, v) <= Accepted(c'.h, s.term, v);
      }
    }
    assert LeadingOk(c', m);
  }

  lemma NodesAfter(c: Cluster, c': Cluster, n: NodeId)
    requires NodesOk(c) && Moves(c, c', n) && NodeOk(c', n)
    ensures NodesOk(c')
  {
    forall m | m in c'.nodes
      ensures NodeOk(c', m)
    {
      if m != n {
        assert NodeOk(c, m);
        OtherNodeOk(c, c', n, m);
      }
    }
  }

  lemma OldAppendRequestOk(c: Cluster, c': Cluster, n: NodeId, req: AppendRequest)
    requires Moves(c, c', n) && AppendRequestOk(c.h, req) && InvCommit(Abs(c'))
    ensures AppendRequestOk(c'.h, req)
  {
    var k := req.prevLogIndex + |req.entries|;
    var old_, new_ := c.h.termLog[req.term], c'.h.termLog[req.term];
    assert Abs(c).h.termLog[req.term] <= Abs(c').h.termLog[req.term];
    assert old_ <= new_;
    assert new_[req.prevLogIndex..k] == old_[req.prevLogIndex..k];
    assert new_[..req.leaderCommit] == old_[..req.leaderCommit];
    LeaderCommitBound(Abs(c'));
    assert forall w :: w in c.h.termLog ==> Abs(c).h.termLog[w] <= Abs(c').h.termLog[w];
    CommittedByStable(c.h, c'.h, req.term, req.term, old_[..req.leaderCommit]);
  }

  /** The read log only gains requests registered now; what is recorded about older ones stays. */
  ghost predicate ReadLogGrows(c: Cluster, c': Cluster)
  {
    forall k :: k in c'.readLog ==>
      || c'.readLog[k].at >= c.clock
      || (k in c.readLog && c'.readLog[k].at == c.readLog[k].at && c'.readLog[k].terms == c.readLog[k].terms)
  }

  lemma OldAppendReplyOk(c: Cluster, c': Cluster, n: NodeId, r: AppendReply)
    requires Moves(c, c', n) && ReadLogGrows(c, c') && AppendReplyOk(c, r)
    ensures AppendReplyOk(c', r)
  {
    assert Accepted(c.h, r.reqTerm, r.from) <= Accepted(c'.h, r.reqTerm, r.from);
  }

  /** All messages are in order, given that the new ones are. */
  ghost predicate NewMessagesOk(c: Cluster, c': Cluster)
  {
    && c.voteRequests <= c'.voteRequests && c.voteReplies <= c'.voteReplies
    && c.appendRequests <= c'.appendRequests && c.appendReplies <= c'.appendReplies
    && (forall p :: p in c'.voteRequests - c.voteRequests ==> VoteRequestOk(c'.h, p.1))
    && (forall r :: r in c'.voteReplies - c.voteReplies ==> VoteReplyOk(c', r))
    && (forall p :: p in c'.appendRequests - c.appendRequests ==> AppendRequestOk(c'.h, p.1))
    && (forall r :: r in c'.appendReplies - c.appendReplies ==> AppendReplyOk(c', r))
  }

  lemma MessagesAfter(c: Cluster, c': Cluster, n: NodeId)
    requires MessagesOk(c) && Moves(c, c', n) && ReadLogGrows(c, c') && NewMessagesOk(c, c') && InvCommit(Abs(c'))
    ensures MessagesOk(c')
  {
    forall p | p in c'.voteRequests
      ensures VoteRequestOk(c'.h, p.1)
    {
      if p in c.voteRequests { assert VoteRequestOk(c.h, p.1); } else { assert p in c'.voteRequests - c.voteRequests; }
    }
    forall r | r in c'.voteReplies
      ensures VoteReplyOk(c', r)
    {
      if r in c.voteReplies { assert VoteReplyOk(c, r); } else { assert r in c'.voteReplies - c.voteReplies; }
    }
    forall p | p in c'.appendRequests
      ensures AppendRequestOk(c'.h, p.1)
    {
      if p in c.appendRequests {
        assert AppendRequestOk(c.h, p.1);
        OldAppendRequestOk(c, c', n, p.1);
      } else {
        assert p in c'.appendRequests - c.appendRequests;
      }
    }
    forall r | r in c'.appendReplies
      ensures AppendReplyOk(c', r)
    {
      if r in c.appendReplies {
        assert AppendReplyOk(c, r);
        OldAppendReplyOk(c, c', n, r);
      } else {
        assert r in c'.appendReplies - c.appendReplies;
      }
    }
  }

  lemma NoMessages(c: Cluster, c': Cluster)
    requires c'.voteRequests == c.voteRequests && c'.voteReplies == c.voteReplies
    requires c'.appendRequests == c.appendRequests && c'.appendReplies == c.appendReplies
    ensures NewMessagesOk(c, c')
  {
  }

  lemma OneVoteReply(c: Cluster, c': Cluster, r: VoteReply)
    requires c'.voteRequests == c.voteRequests && c'.voteReplies == c.voteReplies + {r}
    requires c'.appendRequests == c.appendRequests && c'.appendReplies == c.appendReplies
    requires VoteReplyOk(c', r)
    ensures NewMessagesOk(c, c')
  {
  }

  lemma OneAppendReply(c: Cluster, c': Cluster, r: AppendReply)
    requires c'.voteRequests == c.voteRequests && c'.voteReplies == c.voteReplies
    requires c'.appendRequests == c.appendRequests && c'.appendReplies == c.appendReplies + {r}
    requires AppendReplyOk(c', r)
    ensures NewMessagesOk(c, c')
  {
  }

  lemma BallotMessages(c: Cluster, c': Cluster, peers: seq<NodeId>, req: VoteRequest)
    requires c'.voteRequests == c.voteRequests + Broadcast(peers, req) && VoteRequestOk(c'.h, req)
    requires c'.voteReplies == c.voteReplies && c'.appendRequests == c.appendRequests
             && c'.appendReplies == c.appendReplies
    ensures NewMessagesOk(c, c')
  {
  }

  /** Steps that do not touch reads keep the pending requests or drop them all. */
  ghost predicate ReadsUntouched(c: Cluster, c': Cluster, n: NodeId)
    requires n in c.nodes && n in c'.nodes
  {
    && c'.readLog == c.readLog
    && (c'.nodes[n].pendingReads == c.nodes[n].pendingReads
       || c'.nodes[n].pendingReads == c.nodes[n].pendingReads.Clear())
  }

  lemma TermsRise(c: Cluster, c': Cluster, n: NodeId, v: NodeId)
    requires Moves(c, c', n) && v in c.nodes
    ensures c.nodes[v].term <= c'.nodes[v].term
  {
    assert Abs(c).views[v].term <= Abs(c').views[v].term;
  }

  lemma ReadsAfter(c: Cluster, c': Cluster, n: NodeId)
    requires ReadsOk(c) && NodesOk(c) && Moves(c, c', n) && ReadsUntouched(c, c', n)
    ensures ReadsOk(c')
  {
    forall k | k in c'.readLog
      ensures ReadOk(c', k)
    {
      assert ReadOk(c, k);
      forall v | v in c.members
        ensures c.readLog[k].terms[v] <= c'.nodes[v].term
      {
        TermsRise(c, c', n, v);
      }
    }
  }

  /** The frame of every step: prove the moved node and the new messages, get the whole invariant. */
  lemma Frame(c: Cluster, c': Cluster, n: NodeId)
    requires ClusterInv(c) && Moves(c, c', n) && Replication.Inv(Abs(c')) && NodeOk(c', n)
    requires ReadsUntouched(c, c', n) && NewMessagesOk(c, c')
    ensures ClusterInv(c')
  {
    NodesAfter(c, c', n);
    MessagesAfter(c, c', n);
    ReadsAfter(c, c', n);
  }

  // -------------------------------------------------- facts about a single node

  lemma NodeLog(c: Cluster, n: NodeId)
    requires ClusterInv(c) && n in c.nodes
    ensures var log := c.nodes[n].log;
            && LogOk(c.h, log.entries) && log.snapshotIndex == 0 && log.Contiguous()
            && log.LastIndex() == |log.entries| && log.LastTerm() == LastTermOf(log.entries)
  {
    assert NodeOk(c, n);
    assert ViewOk(Abs(c), n);
    var es := c.nodes[n].log.entries;
    forall i | 0 <= i < |es|
      ensures es[i].index == i + 1
    {
      assert EntryOk(c.h, es, i);
    }
  }

  lemma ClusterSize(c: Cluster, n: NodeId)
    requires n in c.nodes && BaseOk(c, n) && n in c.members
    ensures |c.nodes[n].peers| + 1 == |c.members|
    ensures |c.nodes[n].membership.current| == |c.members|
    ensures Ids(c.nodes[n].membership.current) == c.members
    ensures MembershipStates.Inv(c.nodes[n].membership)
  {
    var s := c.nodes[n];
    InitialInv(n, s.peers);
    assert {n} + (set p | p in s.peers) == c.members;
    CountIsIntersection(s.membership.current, {});
  }

  // --------------------------------------------------- steps that stay inside a node

  /** Nothing another node could observe changes. */
  ghost predicate Local(c: Cluster, c': Cluster, n: NodeId)
  {
    && n in c.nodes && n in c.rounds && n in c.delivered
    && c'.members == c.members && c'.h == c.h && c'.clock >= c.clock
    && n in c'.nodes && c'.nodes == c.nodes[n := c'.nodes[n]]
    && ViewOf(c'.nodes[n]) == ViewOf(c.nodes[n])
    && n in c'.rounds && c'.rounds == c.rounds[n := c'.rounds[n]]
    && n in c'.delivered && c'.delivered == c.delivered[n := c'.delivered[n]]
  }

  lemma LocalMoves(c: Cluster, c': Cluster, n: NodeId)
    requires Local(c, c', n)
    ensures Moves(c, c', n) && Abs(c') == Abs(c)
  {
    AbsPut(c, c', n);
    assert Abs(c').views == Abs(c).views;
    EvolvesSame(Abs(c));
  }

  lemma LocalFrame(c: Cluster, c': Cluster, n: NodeId)
    requires ClusterInv(c) && Local(c, c', n) && NodeOk(c', n) && ReadsUntouched(c, c', n) && NewMessagesOk(c, c')
    ensures ClusterInv(c')
  {
    LocalMoves(c, c', n);
    Frame(c, c', n);
  }

  /** Assemble `Moves` from the parts that the step changed. */
  lemma MovesTo(c: Cluster, c': Cluster, n: NodeId)
    requires n in c.nodes && n in c.rounds && n in c.delivered
    requires c'.members == c.members && n in c'.nodes && c'.nodes == c.nodes[n := c'.nodes[n]] && c'.clock >= c.clock
    requires c'.rounds == c.rounds || (n in c'.rounds && c'.rounds == c.rounds[n := c'.rounds[n]])
    requires c'.delivered == c.delivered
    requires HistoryGrows(c.h, c'.h, n) && Evolves(Abs(c), Abs(c'))
    ensures Moves(c, c', n)
  {
  }

  lemma ElectionSizes(c: Cluster, n: NodeId)
    requires n in c.nodes && n in c.members && BaseOk(c, n)
    ensures var e := NewElection(|c.nodes[n].peers| + 1).RecordVote(n);
            e.votesNeeded == |c.members| / 2 + 1 && e.votesReceived == {n}
  {
    ClusterSize(c, n);
  }

  lemma PreVoteParts(c: Cluster, n: NodeId)
    requires n in c.nodes && n in c.members && NodeOk(c, n)
    ensures var c' := DoPreVote(c, n);
            NodeOk(c', n) && NewMessagesOk(c, c') && ReadsUntouched(c, c', n) && Local(c, c', n)
  {
    var c' := DoPreVote(c, n);
    ElectionSizes(c, n);
    assert ElectionOk(c', n);
    BallotMessages(c, c', c.nodes[n].peers, StartPreVote(c.nodes[n]).1);
  }

  lemma PreVoteStep(c: Cluster, n: NodeId)
    requires ClusterInv(c) && n in c.nodes
    ensures ClusterInv(DoPreVote(c, n))
  {
    assert NodeOk(c, n);
    PreVoteParts(c, n);
    LocalFrame(c, DoPreVote(c, n), n);
  }

  // -------------------------------------------------------------------- elections

  lemma CampaignRequestOk(c: Cluster, n: NodeId)
    requires n in c.nodes && c.nodes[n].id == n
    requires var log := c.nodes[n].log; log.LastIndex() == |log.entries| && log.LastTerm() == LastTermOf(log.entries)
    ensures VoteRequestOk(Campaign(Abs(c), n).h, StartElection(c.nodes[n]).1)
  {
  }

  lemma CampaignNodeOk(c: Cluster, n: NodeId, c': Cluster)
    requires n in c.nodes && n in c.members && NodeOk(c, n) && c' == DoElection(c, n)
    requires !(c.nodes[n].term + 1 in c.h.leader && c.h.leader[c.nodes[n].term + 1] == n)
    ensures NodeOk(c', n)
  {
    ElectionSizes(c, n);
    assert ElectionOk(c', n);
  }

  lemma CampaignHistory(s: State, n: NodeId)
    requires InvVotes(s) && InvCampaign(s) && n in s.views
    ensures HistoryGrows(s.h, Campaign(s, n).h, n)
  {
    CampaignFresh(s, n);
  }

  lemma CampaignAbs(c: Cluster, n: NodeId)
    requires n in c.nodes
    ensures Abs(DoElection(c, n)) == Campaign(Abs(c), n)
  {
    AbsPut(c, DoElection(c, n), n);
  }

  lemma CampaignMoves(c: Cluster, n: NodeId)
    requires Replication.Inv(Abs(c)) && n in c.nodes && NodeOk(c, n)
    ensures Replication.Inv(Abs(DoElection(c, n))) && Moves(c, DoElection(c, n), n)
  {
    CampaignAbs(c, n);
    CampaignHistory(Abs(c), n);
    CampaignInv(Abs(c), n);
    MovesTo(c, DoElection(c, n), n);
  }

  lemma NotYetLeading(s: State, n: NodeId)
    requires InvLeaders(s) && InvCampaign(s) && n in s.views
    ensures !(s.views[n].term + 1 in s.h.leader && s.h.leader[s.views[n].term + 1] == n)
  {
    var t := s.views[n].term + 1;
    if t in s.h.leader { LeaderReachedItsTerm(s, t); }
  }

  lemma CampaignParts(c: Cluster, n: NodeId)
    requires n in c.nodes && n in c.members && NodeOk(c, n)
    requires var log := c.nodes[n].log; log.LastIndex() == |log.entries| && log.LastTerm() == LastTermOf(log.entries)
    requires !(c.nodes[n].term + 1 in c.h.leader && c.h.leader[c.nodes[n].term + 1] == n)
    ensures var c' := DoElection(c, n); NodeOk(c', n) && NewMessagesOk(c, c') && ReadsUntouched(c, c', n)
  {
    var c' := DoElection(c, n);
    CampaignNodeOk(c, n, c');
    CampaignRequestOk(c, n);
    BallotMessages(c, c', c.nodes[n].peers, StartElection(c.nodes[n]).1);
  }

  lemma CampaignStep(c: Cluster, n: NodeId)
    requires ClusterInv(c) && n in c.nodes
    ensures ClusterInv(DoElection(c, n))
  {
    assert NodeOk(c, n);
    NodeLog(c, n);
    NotYetLeading(Abs(c), n);
    CampaignParts(c, n);
    CampaignMoves(c, n);
    Frame(c, DoElection(c, n), n);
  }

  lemma TimeoutNowIs(c: Cluster, n: NodeId, msg: TimeoutNow)
    requires n in c.nodes
    ensures DoTimeoutNow(c, n, msg) == if msg.term < c.nodes[n].term then Put(c, n, c.nodes[n], c.h)
            else DoElection(c, n)
  {
  }

  lemma TimeoutNowStepOk(c: Cluster, n: NodeId, msg: TimeoutNow)
    requires ClusterInv(c) && n in c.nodes
    ensures ClusterInv(DoTimeoutNow(c, n, msg))
  {
    TimeoutNowIs(c, n, msg);
    if msg.term < c.nodes[n].term {
      Tick(c, n);
    } else {
      CampaignStep(c, n);
    }
  }

  lemma TickParts(c: Cluster, n: NodeId)
    requires n in c.nodes && NodeOk(c, n)
    ensures var c' := Put(c, n, c.nodes[n], c.h);
            NodeOk(c', n) && NewMessagesOk(c, c') && ReadsUntouched(c, c', n) && Local(c, c', n)
  {
    var c' := Put(c, n, c.nodes[n], c.h);
    assert c.nodes[n := c.nodes[n]] == c.nodes;
    assert ElectionOk(c', n) && AppliedOk(c', n);
    NoMessages(c, c');
  }

  lemma Tick(c: Cluster, n: NodeId)
    requires ClusterInv(c) && n in c.nodes
    ensures ClusterInv(Put(c, n, c.nodes[n], c.h))
  {
    assert NodeOk(c, n);
    TickParts(c, n);
    LocalFrame(c, Put(c, n, c.nodes[n], c.h), n);
  }

  // ---------------------------------------------------------------- stepping down

  ghost function Stepped(c: Cluster, n: NodeId, t: Term): Cluster
    requires n in c.nodes
  {
    c.(nodes := c.nodes[n := StepDown(c.nodes[n], t)])
  }

  lemma SteppedParts(c: Cluster, n: NodeId, t: Term)
    requires n in c.nodes && NodeOk(c, n) && InvVotes(Abs(c)) && t > c.nodes[n].term
    ensures var c' := Stepped(c, n, t); NodeOk(c', n) && NewMessagesOk(c, c') && ReadsUntouched(c, c', n)
  {
    var c' := Stepped(c, n, t);
    assert BallotOk(c', n) && LeadingOk(c', n) && AppliedOk(c', n) && ElectionOk(c', n);
    NoMessages(c, c');
  }

  lemma SteppedMoves(c: Cluster, n: NodeId, t: Term)
    requires Replication.Inv(Abs(c)) && n in c.nodes && NodeOk(c, n) && t > c.nodes[n].term
    ensures Replication.Inv(Abs(Stepped(c, n, t))) && Moves(c, Stepped(c, n, t), n)
  {
    AbsPut(c, Stepped(c, n, t), n);
    assert Abs(Stepped(c, n, t)) == RaiseTerm(Abs(c), n, t);
    RaiseTermInv(Abs(c), n, t);
    MovesTo(c, Stepped(c, n, t), n);
  }

  lemma SteppedOk(c: Cluster, n: NodeId, t: Term)
    requires ClusterInv(c) && n in c.nodes && t > c.nodes[n].term
    ensures ClusterInv(Stepped(c, n, t))
  {
    assert NodeOk(c, n);
    SteppedParts(c, n, t);
    SteppedMoves(c, n, t);
    Frame(c, Stepped(c, n, t), n);
  }

  // ------------------------------------------------------------------ vote requests

  lemma VoteRequestSteppedSame(c: Cluster, n: NodeId, req: VoteRequest)
    requires n in c.nodes && !req.isPreVote && req.term > c.nodes[n].term
    ensures DoVoteRequest(Stepped(c, n, req.term), n, req) == DoVoteRequest(c, n, req)
  {
    var c1 := Stepped(c, n, req.term);
    assert HandleVoteRequest(c1.nodes[n], req) == HandleVoteRequest(c.nodes[n], req);
    assert c1.nodes[n := HandleVoteRequest(c.nodes[n], req).0] == c.nodes[n := HandleVoteRequest(c.nodes[n], req).0];
  }

  lemma GrantAllowed(c: Cluster, n: NodeId, req: VoteRequest)
    requires n in c.nodes && BallotOk(c, n) && VoteRequestOk(c.h, req)
    requires var log := c.nodes[n].log; log.LastIndex() == |log.entries| && log.LastTerm() == LastTermOf(log.entries)
    requires !req.isPreVote && req.term <= c.nodes[n].term && ShouldGrantVote(c.nodes[n], req)
    ensures MayGrant(Abs(c), n, req.candidate)
  {
  }

  lemma GrantAbs(c: Cluster, n: NodeId, req: VoteRequest)
    requires n in c.nodes && !req.isPreVote && req.term <= c.nodes[n].term && ShouldGrantVote(c.nodes[n], req)
    ensures Abs(DoVoteRequest(c, n, req)) == Grant(Abs(c), n, req.candidate)
  {
    AbsPut(c, DoVoteRequest(c, n, req), n);
    assert Abs(DoVoteRequest(c, n, req)).views == Abs(c).views;
  }

  lemma GrantHistory(s: State, n: NodeId, d: NodeId)
    requires MayGrant(s, n, d)
    ensures HistoryGrows(s.h, Grant(s, n, d).h, n)
  {
  }

  lemma GrantParts(c: Cluster, n: NodeId, req: VoteRequest)
    requires n in c.nodes && n in c.members && NodeOk(c, n)
    requires !req.isPreVote && req.term <= c.nodes[n].term && ShouldGrantVote(c.nodes[n], req)
             && MayGrant(Abs(c), n, req.candidate)
    ensures var c' := DoVoteRequest(c, n, req); NodeOk(c', n) && NewMessagesOk(c, c') && ReadsUntouched(c, c', n)
  {
    var c' := DoVoteRequest(c, n, req);
    GrantHistory(Abs(c), n, req.candidate);
    assert ElectionOk(c', n);
    assert BallotOk(c', n);
    OneVoteReply(c, c', VoteReply(n, req.candidate, RoundOf(req), VoteResponse(c.nodes[n].term, true)));
  }

  lemma GrantMoves(c: Cluster, n: NodeId, req: VoteRequest)
    requires Replication.Inv(Abs(c)) && n in c.nodes && NodeOk(c, n)
    requires !req.isPreVote && req.term <= c.nodes[n].term && ShouldGrantVote(c.nodes[n], req)
             && MayGrant(Abs(c), n, req.candidate)
    ensures Replication.Inv(Abs(DoVoteRequest(c, n, req))) && Moves(c, DoVoteRequest(c, n, req), n)
  {
    GrantAbs(c, n, req);
    GrantHistory(Abs(c), n, req.candidate);
    GrantInv(Abs(c), n, req.candidate);
    MovesTo(c, DoVoteRequest(c, n, req), n);
  }

  lemma GrantingStep(c: Cluster, n: NodeId, req: VoteRequest)
    requires ClusterInv(c) && n in c.nodes && VoteRequestOk(c.h, req)
    requires !req.isPreVote && req.term <= c.nodes[n].term && ShouldGrantVote(c.nodes[n], req)
    ensures ClusterInv(DoVoteRequest(c, n, req))
  {
    assert NodeOk(c, n);
    NodeLog(c, n);
    GrantAllowed(c, n, req);
    GrantParts(c, n, req);
    GrantMoves(c, n, req);
    Frame(c, DoVoteRequest(c, n, req), n);
  }

  lemma DenyParts(c: Cluster, n: NodeId, req: VoteRequest)
    requires n in c.nodes && n in c.members && NodeOk(c, n)
    requires req.isPreVote || (req.term <= c.nodes[n].term && !ShouldGrantVote(c.nodes[n], req))
    ensures var c' := DoVoteRequest(c, n, req);
            NodeOk(c', n) && NewMessagesOk(c, c') && ReadsUntouched(c, c', n) && Local(c, c', n)
  {
    var c' := DoVoteRequest(c, n, req);
    assert c'.nodes == c.nodes;
    assert ElectionOk(c', n) && AppliedOk(c', n);
    OneVoteReply(c, c', VoteReply(n, req.candidate, RoundOf(req), HandleVoteRequest(c.nodes[n], req).1));
  }

  lemma VoteRequestAtTerm(c: Cluster, n: NodeId, req: VoteRequest)
    requires ClusterInv(c) && n in c.nodes && VoteRequestOk(c.h, req)
    requires req.isPreVote || req.term <= c.nodes[n].term
    ensures ClusterInv(DoVoteRequest(c, n, req))
  {
    if !req.isPreVote && ShouldGrantVote(c.nodes[n], req) {
      GrantingStep(c, n, req);
    } else {
      assert NodeOk(c, n);
      DenyParts(c, n, req);
      LocalFrame(c, DoVoteRequest(c, n, req), n);
    }
  }

  lemma VoteRequestStepOk(c: Cluster, n: NodeId, req: VoteRequest)
    requires ClusterInv(c) && n in c.nodes && (n, req) in c.voteRequests
    ensures ClusterInv(DoVoteRequest(c, n, req))
  {
    assert VoteRequestOk(c.h, (n, req).1);
    if !req.isPreVote && req.term > c.nodes[n].term {
      SteppedOk(c, n, req.term);
      VoteRequestAtTerm(Stepped(c, n, req.term), n, req);
      VoteRequestSteppedSame(c, n, req);
    } else {
      VoteRequestAtTerm(c, n, req);
    }
  }

  // -------------------------------------------------------------------- vote replies

  ghost predicate Wins(s: Node, r: VoteReply)
  {
    HandleVoteResponse(s, r.from, r.resp, r.round.PreRound?).1
  }

  ghost function FirstEntry(s: Node): LogEntry
  {
    LogEntry(|s.log.entries| + 1, s.term, [], Noop)
  }

  ghost function Ballots(s: Node, r: VoteReply): set<NodeId>
    requires s.election.Some?
  {
    s.election.value.RecordVote(r.from).votesReceived
  }

  lemma WinAllowed(c: Cluster, r: VoteReply)
    requires r.to in c.nodes && c.nodes.Keys == c.members && ElectionOk(c, r.to) && VoteReplyOk(c, r)
    requires Wins(c.nodes[r.to], r) && c.rounds[r.to] == r.round
    ensures MayWin(Abs(c), r.to, Ballots(c.nodes[r.to], r), FirstEntry(c.nodes[r.to]))
  {
    var q := Ballots(c.nodes[r.to], r);
    assert q * c.members == q;
  }

  lemma WinAbs(c: Cluster, r: VoteReply)
    requires r.to in c.nodes && Wins(c.nodes[r.to], r) && c.nodes[r.to].log.LastIndex() == |c.nodes[r.to].log.entries|
    ensures Abs(DoVoteReply(c, r)) == Win(Abs(c), r.to, Ballots(c.nodes[r.to], r), FirstEntry(c.nodes[r.to]))
  {
    AbsPut(c, DoVoteReply(c, r), r.to);
  }

  lemma WinHistory(s: State, n: NodeId, q: set<NodeId>, noop: LogEntry)
    requires n in s.views && s.views[n].term !in s.h.leader && s.h.leader.Keys == s.h.leaderCommit.Keys
    ensures HistoryGrows(s.h, Win(s, n, q, noop).h, n)
  {
  }

  lemma WinNodeOk(c: Cluster, r: VoteReply)
    requires r.to in c.nodes && NodeOk(c, r.to) && r.to in c.members && Wins(c.nodes[r.to], r)
    requires c.nodes[r.to].log.LastIndex() == |c.nodes[r.to].log.entries|
    ensures NodeOk(DoVoteReply(c, r), r.to)
  {
    var n, c' := r.to, DoVoteReply(c, r);
    var s, s' := c.nodes[n], c'.nodes[n];
    assert s'.log.entries == s.log.entries + [FirstEntry(s)];
    assert s'.log.LastIndex() == |s.log.entries| + 1;
    assert MatchOk(c', s.term, s'.leader.value, |s'.log.entries|);
    assert s'.log.entries[..s.lastApplied] == s.log.entries[..s.lastApplied];
    assert LeadingOk(c', n) && AppliedOk(c', n);
    assert BaseOk(c', n) && BallotOk(c', n) && ElectionOk(c', n);
  }

  lemma WinParts(c: Cluster, r: VoteReply)
    requires r.to in c.nodes && Wins(c.nodes[r.to], r)
    ensures NewMessagesOk(c, DoVoteReply(c, r)) && ReadsUntouched(c, DoVoteReply(c, r), r.to)
  {
    NoMessages(c, DoVoteReply(c, r));
  }

  lemma WinMoves(c: Cluster, r: VoteReply, q: set<NodeId>, noop: LogEntry)
    requires Replication.Inv(Abs(c)) && r.to in c.nodes && NodeOk(c, r.to) && MayWin(Abs(c), r.to, q, noop)
    requires Wins(c.nodes[r.to], r) && Abs(DoVoteReply(c, r)) == Win(Abs(c), r.to, q, noop)
    ensures Replication.Inv(Abs(DoVoteReply(c, r))) && Moves(c, DoVoteReply(c, r), r.to)
  {
    TermHasNoOtherLeader(Abs(c), r.to, q, noop);
    WinHistory(Abs(c), r.to, q, noop);
    WinInv(Abs(c), r.to, q, noop);
    MovesTo(c, DoVoteReply(c, r), r.to);
  }

  lemma WinningStep(c: Cluster, r: VoteReply)
    requires ClusterInv(c) && r.to in c.nodes && VoteReplyOk(c, r)
    requires Wins(c.nodes[r.to], r) && NodeOk(c, r.to) && c.rounds[r.to] == r.round
    ensures ClusterInv(DoVoteReply(c, r))
  {
    var n := r.to;
    NodeLog(c, n);
    WinAllowed(c, r);
    WinAbs(c, r);
    WinMoves(c, r, Ballots(c.nodes[n], r), FirstEntry(c.nodes[n]));
    WinNodeOk(c, r);
    WinParts(c, r);
    Frame(c, DoVoteReply(c, r), n);
  }

  lemma CountedParts(c: Cluster, r: VoteReply)
    requires r.to in c.nodes && NodeOk(c, r.to) && VoteReplyOk(c, r) && !Wins(c.nodes[r.to], r)
             && r.resp.term <= c.nodes[r.to].term
    requires Recorded(c.nodes[r.to], r.resp) ==> c.rounds[r.to] == r.round
    ensures var c' := DoVoteReply(c, r);
            NodeOk(c', r.to) && NewMessagesOk(c, c') && ReadsUntouched(c, c', r.to) && Local(c, c', r.to)
  {
    var n, c' := r.to, DoVoteReply(c, r);
    assert ElectionOk(c', n);
    assert BallotOk(c', n) && LeadingOk(c', n) && AppliedOk(c', n);
    NoMessages(c, c');
  }

  lemma CountedStep(c: Cluster, r: VoteReply)
    requires ClusterInv(c) && r.to in c.nodes && VoteReplyOk(c, r) && NodeOk(c, r.to)
    requires !Wins(c.nodes[r.to], r) && r.resp.term <= c.nodes[r.to].term
    requires Recorded(c.nodes[r.to], r.resp) ==> c.rounds[r.to] == r.round
    ensures ClusterInv(DoVoteReply(c, r))
  {
    CountedParts(c, r);
    LocalFrame(c, DoVoteReply(c, r), r.to);
  }

  lemma SteppedPut(c: Cluster, n: NodeId, t: Term)
    requires n in c.nodes
    ensures Put(Stepped(c, n, t), n, Stepped(c, n, t).nodes[n], c.h) == Put(c, n, StepDown(c.nodes[n], t), c.h)
  {
    assert Stepped(c, n, t).nodes[n := StepDown(c.nodes[n], t)] == c.nodes[n := StepDown(c.nodes[n], t)];
  }

  lemma OutdatedReply(c: Cluster, n: NodeId, t: Term)
    requires ClusterInv(c) && n in c.nodes && t > c.nodes[n].term
    ensures ClusterInv(Put(c, n, StepDown(c.nodes[n], t), c.h))
  {
    SteppedOk(c, n, t);
    Tick(Stepped(c, n, t), n);
    SteppedPut(c, n, t);
  }

  lemma VoteReplyStepOk(c: Cluster, r: VoteReply)
    requires ClusterInv(c) && Enabled(c, VoteReplyStep(r))
    ensures ClusterInv(DoVoteReply(c, r))
  {
    var n := r.to;
    assert VoteReplyOk(c, r);
    assert NodeOk(c, n);
    if r.resp.term > c.nodes[n].term {
      OutdatedReply(c, n, r.resp.term);
    } else if Wins(c.nodes[n], r) {
      WinningStep(c, r);
    } else {
      CountedStep(c, r);
    }
  }

  // ----------------------------------------------------------------- append requests

  lemma AppendRequestSteppedSame(c: Cluster, n: NodeId, req: AppendRequest)
    requires n in c.nodes && req.term > c.nodes[n].term
    ensures DoAppendRequest(Stepped(c, n, req.term), n, req) == DoAppendRequest(c, n, req)
  {
    var c1 := Stepped(c, n, req.term);
    assert HandleAppendEntries(c1.nodes[n], req) == HandleAppendEntries(c.nodes[n], req);
    assert c1.nodes[n := HandleAppendEntries(c.nodes[n], req).0]
           == c.nodes[n := HandleAppendEntries(c.nodes[n], req).0];
  }

  lemma AcceptingMerge(a: State, s: Node, req: AppendRequest)
    requires InvViews(a) && InvLeaders(a) && s.id in a.views && a.views[s.id] == ViewOf(s)
    requires s.log.snapshotIndex == 0 && s.log.Contiguous() && AppendRequestOk(a.h, req) && req.term == s.term
    requires req.prevLogIndex > 0 ==> s.log.MatchTerm(req.prevLogIndex, req.prevLogTerm)
    ensures var log := Overlay(s.log.entries, a.h.termLog[req.term][..req.prevLogIndex + |req.entries|]);
            MergeEntries(s.log, req.entries) == s.log.(entries := log)
  {
    var prev, k := req.prevLogIndex, req.prevLogIndex + |req.entries|;
    var shipped := a.h.termLog[req.term][..k];
    assert ViewOk(a, s.id) && LeaderOk(a, req.term);
    PrefixOk(a.h, a.h.termLog[req.term], k);
    IndicesFollow(a.h, shipped);
    assert shipped[prev..] == req.entries;
    MergeIsOverlay(a.h, s.log, prev, shipped);
  }

  /** The handler computes the overlay, adopts the leader's commit index and reports its own last index. */
  lemma AcceptingHandler(a: State, s: Node, req: AppendRequest)
    requires InvViews(a) && InvLeaders(a) && s.id in a.views && a.views[s.id] == ViewOf(s)
    requires s.log.snapshotIndex == 0 && s.log.Contiguous()
    requires AppendRequestOk(a.h, req) && req.term == s.term && HandleAppendEntries(s, req).1.success
    ensures var (s', resp) := HandleAppendEntries(s, req);
            var k := req.prevLogIndex + |req.entries|;
            && MayAccept(a, s.id, k, req.leaderCommit)
            && var w := Accept(a, s.id, k, req.leaderCommit).views[s.id];
            && s'.log == s.log.(entries := w.log)
            && s'.commitIndex == w.commit && resp.matchIndex == |w.log|
  {
    AcceptingMerge(a, s, req);
    AcceptedLogIsPrefix(a, s.id, req.prevLogIndex + |req.entries|);
    var log' := MergeEntries(s.log, req.entries);
    assert EntryOk(a.h, log'.entries, |log'.entries| - 1);
    assert log'.LastIndex() == |log'.entries|;
  }

  lemma IndicesFollow(h: History, log: seq<LogEntry>)
    requires LogOk(h, log)
    ensures Follows(log, 0)
  {
    forall j | 0 <= j < |log|
      ensures log[j].index == 0 + 1 + j
    {
      assert EntryOk(h, log, j);
    }
  }

  lemma AcceptingNodeOk(c: Cluster, n: NodeId, req: AppendRequest)
    requires n in c.nodes && NodeOk(c, n) && req.term == c.nodes[n].term
             && HandleAppendEntries(c.nodes[n], req).1.success
    requires var s, s' := c.nodes[n], HandleAppendEntries(c.nodes[n], req).0;
             && s'.log.snapshotIndex == 0 && s'.log.snapshotTerm == 0
             && s.commitIndex <= s'.commitIndex <= |s'.log.entries|
             && s'.log.entries[..s.commitIndex] == s.log.entries[..s.commitIndex]
    ensures NodeOk(DoAppendRequest(c, n, req), n)
  {
    var c' := DoAppendRequest(c, n, req);
    var s, s' := c.nodes[n], c'.nodes[n];
    assert s'.log.entries[..s.lastApplied] == s'.log.entries[..s.commitIndex][..s.lastApplied];
    assert s.log.entries[..s.lastApplied] == s.log.entries[..s.commitIndex][..s.lastApplied];
    assert ElectionOk(c', n) && BallotOk(c', n);
  }

  lemma AcceptingReplyOk(c: Cluster, n: NodeId, req: AppendRequest, r: AppendReply)
    requires ReadsOk(c) && n in c.nodes && c.nodes.Keys == c.members && req.term == c.nodes[n].term
    requires var resp := HandleAppendEntries(c.nodes[n], req).1;
             resp.success && r == AppendReply(n, req.leaderId, req.term, resp, c.clock)
    ensures AppendReplyOk(DoAppendRequest(c, n, req), r)
  {
    var c' := DoAppendRequest(c, n, req);
    forall k | k in c'.readLog && c'.readLog[k].at < r.at && n in c'.readLog[k].terms
      ensures c'.readLog[k].terms[n] <= r.reqTerm
    {
      assert ReadOk(c, k);
    }
  }

  lemma AcceptingAbs(c: Cluster, n: NodeId, req: AppendRequest)
    requires n in c.nodes && req.term == c.nodes[n].term && HandleAppendEntries(c.nodes[n], req).1.success
    requires var (s', resp) := HandleAppendEntries(c.nodes[n], req);
             var k := req.prevLogIndex + |req.entries|;
             && MayAccept(Abs(c), n, k, req.leaderCommit)
             && var w := Accept(Abs(c), n, k, req.leaderCommit).views[n];
             && s'.log == c.nodes[n].log.(entries := w.log)
             && s'.commitIndex == w.commit && resp.matchIndex == |w.log|
    ensures Abs(DoAppendRequest(c, n, req)) == Accept(Abs(c), n, req.prevLogIndex + |req.entries|, req.leaderCommit)
  {
    AbsPut(c, DoAppendRequest(c, n, req), n);
  }

  lemma AcceptHistory(s: State, n: NodeId, k: nat, commit: LogIndex)
    requires MayAccept(s, n, k, commit)
    ensures HistoryGrows(s.h, Accept(s, n, k, commit).h, n)
  {
  }

  lemma AcceptingInv(c: Cluster, n: NodeId, req: AppendRequest)
    requires Replication.Inv(Abs(c)) && n in c.nodes && AppendRequestOk(c.h, req) && req.term == c.nodes[n].term
    requires HandleAppendEntries(c.nodes[n], req).1.success && BaseOk(c, n) && c.nodes[n].log.Contiguous()
    ensures Replication.Inv(Abs(DoAppendRequest(c, n, req))) && Evolves(Abs(c), Abs(DoAppendRequest(c, n, req)))
    ensures HistoryGrows(c.h, Abs(DoAppendRequest(c, n, req)).h, n)
  {
    var k := req.prevLogIndex + |req.entries|;
    AcceptingHandler(Abs(c), c.nodes[n], req);
    AcceptingAbs(c, n, req);
    AcceptHistory(Abs(c), n, k, req.leaderCommit);
    AcceptInv(Abs(c), n, k, req.leaderCommit);
  }

  lemma AcceptingMoves(c: Cluster, n: NodeId, req: AppendRequest)
    requires Replication.Inv(Abs(c)) && n in c.nodes && AppendRequestOk(c.h, req) && req.term == c.nodes[n].term
    requires HandleAppendEntries(c.nodes[n], req).1.success && NodeOk(c, n) && c.nodes[n].log.Contiguous()
    ensures Replication.Inv(Abs(DoAppendRequest(c, n, req))) && Moves(c, DoAppendRequest(c, n, req), n)
  {
    AcceptingInv(c, n, req);
    MovesTo(c, DoAppendRequest(c, n, req), n);
  }

  lemma AcceptingKeepsCommitted(c: Cluster, n: NodeId, req: AppendRequest)
    requires InvViews(Abs(c)) && InvLeaders(Abs(c)) && InvCommit(Abs(c)) && InvComplete(Abs(c))
    requires n in c.nodes && AppendRequestOk(c.h, req) && req.term == c.nodes[n].term
    requires HandleAppendEntries(c.nodes[n], req).1.success && BaseOk(c, n) && c.nodes[n].log.Contiguous()
    ensures var s, s' := c.nodes[n], HandleAppendEntries(c.nodes[n], req).0;
            && s'.log.snapshotIndex == 0 && s'.log.snapshotTerm == 0
            && s.commitIndex <= s'.commitIndex <= |s'.log.entries| && s.commitIndex <= |s.log.entries|
            && s'.log.entries[..s.commitIndex] == s.log.entries[..s.commitIndex]
  {
    var k := req.prevLogIndex + |req.entries|;
    AcceptingHandler(Abs(c), c.nodes[n], req);
    AcceptKeepsCommitted(Abs(c), n, k, req.leaderCommit);
    FollowerCommitted(Abs(c), n, k, req.leaderCommit);
  }

  lemma AcceptingParts(c: Cluster, n: NodeId, req: AppendRequest)
    requires ReadsOk(c) && n in c.nodes && c.nodes.Keys == c.members && req.term == c.nodes[n].term
    requires HandleAppendEntries(c.nodes[n], req).1.success
    ensures NewMessagesOk(c, DoAppendRequest(c, n, req)) && ReadsUntouched(c, DoAppendRequest(c, n, req), n)
  {
    var r := AppendReply(n, req.leaderId, req.term, HandleAppendEntries(c.nodes[n], req).1, c.clock);
    AcceptingReplyOk(c, n, req, r);
    OneAppendReply(c, DoAppendRequest(c, n, req), r);
  }

  lemma AcceptingStep(c: Cluster, n: NodeId, req: AppendRequest)
    requires ClusterInv(c) && n in c.nodes && AppendRequestOk(c.h, req) && req.term == c.nodes[n].term
    requires HandleAppendEntries(c.nodes[n], req).1.success && NodeOk(c, n)
    ensures ClusterInv(DoAppendRequest(c, n, req))
  {
    NodeLog(c, n);
    AcceptingMoves(c, n, req);
    AcceptingKeepsCommitted(c, n, req);
    AcceptingNodeOk(c, n, req);
    AcceptingParts(c, n, req);
    Frame(c, DoAppendRequest(c, n, req), n);
  }

  lemma RefusingNodeOk(c: Cluster, n: NodeId, req: AppendRequest)
    requires n in c.nodes && NodeOk(c, n) && req.term <= c.nodes[n].term
             && !HandleAppendEntries(c.nodes[n], req).1.success
    ensures NodeOk(DoAppendRequest(c, n, req), n)
  {
  }

  lemma RefusingParts(c: Cluster, n: NodeId, req: AppendRequest)
    requires n in c.nodes && n in c.members && NodeOk(c, n) && req.term <= c.nodes[n].term
    requires !HandleAppendEntries(c.nodes[n], req).1.success
    ensures var c' := DoAppendRequest(c, n, req);
            NodeOk(c', n) && NewMessagesOk(c, c') && ReadsUntouched(c, c', n) && Local(c, c', n)
  {
    RefusingNodeOk(c, n, req);
    OneAppendReply(c, DoAppendRequest(c, n, req),
        AppendReply(n, req.leaderId, req.term, HandleAppendEntries(c.nodes[n], req).1, c.clock));
  }

  lemma RefusingStep(c: Cluster, n: NodeId, req: AppendRequest)
    requires ClusterInv(c) && n in c.nodes && NodeOk(c, n) && req.term <= c.nodes[n].term
    requires !HandleAppendEntries(c.nodes[n], req).1.success
    ensures ClusterInv(DoAppendRequest(c, n, req))
  {
    RefusingParts(c, n, req);
    LocalFrame(c, DoAppendRequest(c, n, req), n);
  }

  lemma AppendRequestAtTerm(c: Cluster, n: NodeId, req: AppendRequest)
    requires ClusterInv(c) && n in c.nodes && AppendRequestOk(c.h, req) && req.term <= c.nodes[n].term
    ensures ClusterInv(DoAppendRequest(c, n, req))
  {
    assert NodeOk(c, n);
    if HandleAppendEntries(c.nodes[n], req).1.success {
      AcceptingStep(c, n, req);
    } else {
      RefusingStep(c, n, req);
    }
  }

  lemma AppendRequestStepOk(c: Cluster, n: NodeId, req: AppendRequest)
    requires ClusterInv(c) && n in c.nodes && (n, req) in c.appendRequests
    ensures ClusterInv(DoAppendRequest(c, n, req))
  {
    assert AppendRequestOk(c.h, (n, req).1);
    if req.term > c.nodes[n].term {
      SteppedOk(c, n, req.term);
      AppendRequestAtTerm(Stepped(c, n, req.term), n, req);
      AppendRequestSteppedSame(c, n, req);
    } else {
      AppendRequestAtTerm(c, n, req);
    }
  }
}
