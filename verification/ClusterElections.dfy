/**
 Elections that succeed. A candidate whose log is at least as up to date as those of a majority can
 win; the target of a leadership transfer always can; and every majority has such a candidate.
 */
module ClusterElections {
  import opened Common
  import opened Bytes
  import opened RaftTypes
  import opened Quorums
  import opened NodeModel
  import opened Replication
  import opened ReplicationSteps
  import opened Clusters
  import opened ClusterSteps
  import opened ClusterRuns
  import opened ClusterClients
  import opened ClusterPlays
  import opened ClusterProgress

  // --------------------------------------------------------------------- pre-votes

  /** A pre-vote tells the truth: it is granted exactly when a vote at that later term would be, and changes nothing. */
  lemma PreVoteTellsTheTruth(s: Node, req: VoteRequest)
    requires req.isPreVote
    ensures var (s', resp) := HandleVoteRequest(s, req);
            && s' == s && resp.term == s.term
            && (resp.granted <==> req.term > s.term && HandleVoteRequest(s, req.(isPreVote := false)).1.granted)
  {
  }

  /** The pre-vote asks for the vote that the election after it asks for. */
  lemma PreVoteAsksTheSame(s: Node)
    ensures StartPreVote(s).1.(isPreVote := false) == StartElection(s).1
    ensures StartPreVote(s).0.term == s.term && StartPreVote(s).0.votedFor == s.votedFor
  {
  }

  /** The granted answers of several nodes, counted one after the other. */
  function CountAll(s: Node, from: seq<NodeId>, preVote: bool): Node
  {
    if from == [] then s
    else
      var before := CountAll(s, from[..|from| - 1], preVote);
      HandleVoteResponse(before, from[|from| - 1], VoteResponse(before.term, true), preVote).0
  }

  /**
   A pre-vote has a quorum exactly when the nodes that granted it, the asking one included, are more
   than half of the cluster; and until then nothing but the count has changed.
   */
  lemma {:induction false} PreVoteQuorumExactly(s: Node, from: seq<NodeId>)
    ensures var s1, s2 := StartPreVote(s).0, CountAll(StartPreVote(s).0, from, true);
            var nodes := {s.id} + set x | x in from;
            && s2.election.Some? && s2 == s1.(election := s2.election)
            && s2.election.value == ElectionState(nodes, (|s.peers| + 1) / 2 + 1)
            && (s2.election.value.HasQuorum() <==> |nodes| >= (|s.peers| + 1) / 2 + 1)
            && s2.role == PreCandidate && s2.term == s.term && s2.votedFor == s.votedFor && s2.log == s.log
  {
    if from == [] {
      assert {s.id} + (set x | x in from) == {s.id};
    } else {
      var init, last := from[..|from| - 1], from[|from| - 1];
      PreVoteQuorumExactly(s, init);
      assert {s.id} + (set x | x in from) == {s.id} + (set x | x in init) + {last};
    }
  }

  // ---------------------------------------------------------- following a later term

  /** Nothing of an earlier leadership or change is left: no reads, no transfer, no pending configuration. */
  ghost predicate Forgotten(s: Node, t: Term)
  {
    && s.term == t && s.role == Follower && s.leader.None? && s.election.None?
    && (forall id :: TakeReadIndex(s, id).1 == None) && CheckTransferProgress(s).1 == None
    && s.membership.pending.None? && !s.membership.changeInProgress
  }

  /** Whatever message brings a later term makes the node forget what it did in the earlier one. */
  lemma LaterTermForgets(s: Node, from: NodeId, vreq: VoteRequest, vresp: VoteResponse, pre: bool, areq: AppendRequest,
                         aresp: AppendResponse)
    ensures !vreq.isPreVote && vreq.term > s.term ==> Forgotten(HandleVoteRequest(s, vreq).0, vreq.term)
    ensures vresp.term > s.term ==> Forgotten(HandleVoteResponse(s, from, vresp, pre).0, vresp.term)
    ensures areq.term > s.term ==> Forgotten(HandleAppendEntries(s, areq).0, areq.term)
    ensures aresp.term > s.term ==> Forgotten(HandleAppendResponse(s, from, aresp), aresp.term)
  {
    hide MergeEntries;
  }

  /** Answers carry the term of whoever answers, so an outdated candidate or leader that hears one gives up. */
  lemma OutdatedSendersGiveUp(v: Node, s: Node, vreq: VoteRequest, areq: AppendRequest)
    requires v.term > s.term
    ensures vreq.term <= s.term && !vreq.isPreVote ==>
              HandleVoteResponse(s, v.id, HandleVoteRequest(v, vreq).1, false) == (StepDown(s, v.term), false)
    ensures areq.term <= s.term ==>
              HandleAppendResponse(s, v.id, HandleAppendEntries(v, areq).1) == StepDown(s, v.term)
    ensures vreq.isPreVote ==>
              HandleVoteResponse(s, v.id, HandleVoteRequest(v, vreq).1, true) == (StepDown(s, v.term), false)
  {
    hide MergeEntries;
  }

  /** The first appends of a new leader carry its first entry and nothing else. */
  lemma FirstAppendsAreShort(s: Node, p: NodeId, req: AppendRequest)
    requires s.log.Contiguous() && (p, req) in CreateAppendRequests(BecomeLeader(s))
    ensures req.prevLogIndex == s.log.LastIndex() && req.leaderCommit == s.commitIndex
    ensures req.entries == [LogEntry(s.log.LastIndex() + 1, s.term, [], Noop)]
  {
    assert s.log.LastIndex() == s.log.snapshotIndex + |s.log.entries|;
  }

  // ----------------------------------------------------------------- granting a vote

  /** The candidate's log is at least as up to date as the voter's. */
  predicate FreshAs(candidate: Node, voter: Node)
  {
    IsLogUpToDate(candidate.log.LastTerm(), candidate.log.LastIndex(), voter.log.LastTerm(), voter.log.LastIndex())
  }

  /** A node that has not reached the term of a fresh enough candidate grants its vote. */
  lemma VoteIsGranted(s: Node, req: VoteRequest)
    requires !req.isPreVote && req.term > s.term
    requires IsLogUpToDate(req.lastLogTerm, req.lastLogIndex, s.log.LastTerm(), s.log.LastIndex())
    ensures var (s', resp) := HandleVoteRequest(s, req);
            resp == VoteResponse(req.term, true) && s'.term == req.term && s'.log == s.log
  {
  }

  /** In or below the leader's term nobody's log is more up to date than the leader's. */
  lemma LeaderLogIsFreshest(c: Cluster, l: NodeId, v: NodeId)
    requires ClusterInv(c) && l in c.nodes && v in c.nodes && c.nodes[l].role == Leader
    requires c.nodes[v].term <= c.nodes[l].term
    ensures FreshAs(c.nodes[l], c.nodes[v])
  {
    hide MessagesOk, ReadsOk, InvKept, InvComplete, InvGranted, InvCommit, InvAccepted;
    LeaderLogAt(c, l);
    NodeLog(c, l);
    NodeLog(c, v);
    assert ViewOk(Abs(c), v);
    var x := c.nodes[v].log.entries;
    if x != [] { IsPrefixOfLastTerm(c.h, x); }
  }

  // ---------------------------------------------------------------- counting to a majority

  /** Node `n` campaigns in its term and has the votes of `have`, or it has won already. */
  ghost predicate Campaigns(c: Cluster, n: NodeId, log: seq<LogEntry>, have: set<NodeId>)
  {
    && Good(c) && n in c.nodes && n in c.rounds
    && var s := c.nodes[n];
       || (&& s.role == Candidate && s.election.Some? && c.rounds[n] == RealRound(s.term)
           && have <= s.election.value.votesReceived && s.log.entries == log)
       || (s.role == Leader && s.election.None? && s.log.entries == log + [LogEntry(|log| + 1, s.term, [], Noop)])
  }

  ghost predicate Willing(c: Cluster, n: NodeId, v: NodeId, req: VoteRequest)
    requires n in c.nodes
  {
    && v in c.nodes && v != n && c.nodes[v].term < c.nodes[n].term && (v, req) in c.voteRequests
    && IsLogUpToDate(req.lastLogTerm, req.lastLogIndex, c.nodes[v].log.LastTerm(), c.nodes[v].log.LastIndex())
  }

  ghost predicate AllWilling(c: Cluster, n: NodeId, vs: set<NodeId>, req: VoteRequest)
    requires n in c.nodes
  {
    forall v :: v in vs ==> Willing(c, n, v, req)
  }

  /** Apart from `n` only the voters have changed, and these only followed into the term. */
  ghost predicate OnlyVoted(c: Cluster, c': Cluster, n: NodeId, vs: set<NodeId>)
  {
    && n in c.nodes && c'.nodes.Keys == c.nodes.Keys && c'.members == c.members
    && c'.nodes[n].term == c.nodes[n].term && c'.nodes[n].transfer == c.nodes[n].transfer
    && c.voteRequests <= c'.voteRequests
    && (forall m :: m in c.nodes && m != n && m !in vs ==> c'.nodes[m] == c.nodes[m])
    && (forall m :: m in c.nodes && m != n && m in vs ==> c'.nodes[m].term == c.nodes[n].term)
  }

  ghost function VoteOf(v: NodeId, n: NodeId, t: Term): VoteReply
  {
    VoteReply(v, n, RealRound(t), VoteResponse(t, true))
  }

  lemma Voted(c: Cluster, n: NodeId, v: NodeId, req: VoteRequest)
    requires n in c.nodes && Willing(c, n, v, req)
    requires !req.isPreVote && req.candidate == n && req.term == c.nodes[n].term
    ensures var c' := Next(c, VoteRequestStep(v, req));
            && c'.nodes == c.nodes[v := c'.nodes[v]] && c'.nodes[v].term == req.term && c'.members == c.members
            && c'.rounds == c.rounds && c'.voteRequests == c.voteRequests && VoteOf(v, n, req.term) in c'.voteReplies
  {
    hide HandleVoteRequest, RaiseTerm, Grant;
    VoteIsGranted(c.nodes[v], req);
  }

  lemma CountVote(s: Node, v: NodeId)
    ensures var (s', won) := HandleVoteResponse(s, v, VoteResponse(s.term, true), false);
            if s.election.None? then s' == s && !won
            else
              var e := s.election.value.RecordVote(v);
              if e.HasQuorum() then won && s' == BecomeLeader(s.(election := Some(e)))
              else !won && s' == s.(election := Some(e))
  {
  }

  lemma BecomeLeaderKeeps(s: Node)
    ensures var s' := BecomeLeader(s);
            s'.role == Leader && s'.election.None? && s'.term == s.term && s'.transfer == s.transfer
  {
  }

  /** One more vote is counted; a majority of votes makes a leader. */
  lemma Counted(c: Cluster, n: NodeId, v: NodeId, log: seq<LogEntry>, have: set<NodeId>)
    requires Campaigns(c, n, log, have) && VoteOf(v, n, c.nodes[n].term) in c.voteReplies
    ensures Enabled(c, VoteReplyStep(VoteOf(v, n, c.nodes[n].term)))
    ensures var c' := Next(c, VoteReplyStep(VoteOf(v, n, c.nodes[n].term)));
            && Campaigns(c', n, log, have + {v}) && c'.nodes == c.nodes[n := c'.nodes[n]] && c'.members == c.members
            && c'.nodes[n].term == c.nodes[n].term && c'.nodes[n].transfer == c.nodes[n].transfer
            && c'.voteRequests == c.voteRequests
            && (IsMajority(have + {v}, c.members) ==> c'.nodes[n].role == Leader)
  {
    hide ClusterInv, Steady, HandleVoteResponse, BecomeLeader, Win, IsMajority;
    var s, r := c.nodes[n], VoteOf(v, n, c.nodes[n].term);
    CountVote(s, v);
    StepKeepsInv(c, VoteReplyStep(r));
    StepSteady(c, VoteReplyStep(r));
    if s.election.Some? {
      var e := s.election.value.RecordVote(v);
      NodeLog(c, n);
      WinnerKnows(s.(election := Some(e)));
      BecomeLeaderKeeps(s.(election := Some(e)));
      if IsMajority(have + {v}, c.members) { EnoughVotes(c, n, e.votesReceived, have + {v}); }
    }
  }

  lemma EnoughVotes(c: Cluster, n: NodeId, votes: set<NodeId>, q: set<NodeId>)
    requires ClusterInv(c) && n in c.nodes && c.nodes[n].election.Some? && q <= votes && IsMajority(q, c.members)
    ensures |votes| >= c.nodes[n].election.value.votesNeeded
  {
    hide Replication.Inv, MessagesOk, ReadsOk;
    assert NodeOk(c, n);
    SubsetSize(q * c.members, votes);
  }

  lemma OneVoter(c: Cluster, n: NodeId, v: NodeId, req: VoteRequest, log: seq<LogEntry>, have: set<NodeId>)
      returns (steps: seq<Step>, c': Cluster)
    requires Campaigns(c, n, log, have) && Willing(c, n, v, req) && !req.isPreVote && req.candidate == n
             && req.term == c.nodes[n].term
    ensures Leads(c, steps, c') && Campaigns(c', n, log, have + {v}) && OnlyVoted(c, c', n, {v})
    ensures IsMajority(have + {v}, c.members) ==> c'.nodes[n].role == Leader
  {
    hide ClusterInv, Steady, Next, Plays, ClusterPlays.After, IsMajority;
    var x, y := VoteRequestStep(v, req), VoteReplyStep(VoteOf(v, n, req.term));
    Voted(c, n, v, req);
    var c1 := Next(c, x);
    StepKeepsInv(c, x);
    StepSteady(c, x);
    Counted(c1, n, v, log, have);
    c' := Next(c1, y);
    LeadsOne(c, x);
    LeadsOne(c1, y);
    LeadsOn(c, [x], c1, [y], c');
    steps := [x] + [y];
  }

  lemma WillingStays(c: Cluster, c': Cluster, n: NodeId, ws: set<NodeId>, vs: set<NodeId>, req: VoteRequest)
    requires OnlyVoted(c, c', n, vs) && AllWilling(c, n, ws, req) && ws !! vs
    ensures AllWilling(c', n, ws, req)
  {
  }

  lemma VotedTwice(c: Cluster, c1: Cluster, c2: Cluster, n: NodeId, a: set<NodeId>, b: set<NodeId>)
    requires OnlyVoted(c, c1, n, a) && OnlyVoted(c1, c2, n, b)
    ensures OnlyVoted(c, c2, n, a + b)
  {
  }

  lemma NobodyVoted(c: Cluster, n: NodeId)
    requires n in c.nodes
    ensures OnlyVoted(c, c, n, {})
  {
  }

  lemma VotedKeeps(c: Cluster, c': Cluster, n: NodeId, vs: set<NodeId>)
    requires OnlyVoted(c, c', n, vs)
    ensures n in c.nodes && n in c'.nodes && c'.nodes[n].term == c.nodes[n].term && c'.members == c.members
  {
  }

  lemma OneAndRest(c: Cluster, n: NodeId, vs: set<NodeId>, v: NodeId, req: VoteRequest)
    requires n in c.nodes && AllWilling(c, n, vs, req) && v in vs
    ensures AllWilling(c, n, vs - {v}, req) && AllWilling(c, n, {v}, req)
    ensures vs - {v} + {v} == vs && {n} + (vs - {v}) + {v} == {n} + vs && |vs - {v}| < |vs|
  {
    hide Willing;
  }

  lemma JustOne(c: Cluster, n: NodeId, v: NodeId, req: VoteRequest)
    requires n in c.nodes && AllWilling(c, n, {v}, req)
    ensures Willing(c, n, v, req)
  {
  }

  lemma {:induction false} AllVote(c: Cluster, n: NodeId, vs: set<NodeId>, req: VoteRequest, log: seq<LogEntry>)
      returns (steps: seq<Step>, c': Cluster)
    requires Campaigns(c, n, log, {n}) && n in c.nodes && AllWilling(c, n, vs, req) && !req.isPreVote
             && req.candidate == n && req.term == c.nodes[n].term
    ensures Leads(c, steps, c') && Campaigns(c', n, log, {n} + vs) && OnlyVoted(c, c', n, vs) && n in c'.nodes
    ensures vs != {} && IsMajority({n} + vs, c.members) ==> c'.nodes[n].role == Leader
    decreases |vs|
  {
    hide Good, Leads, IsMajority, AllWilling, Willing, Campaigns, OnlyVoted;
    if vs == {} {
      steps, c' := [], c;
      LeadsNowhere(c);
      NobodyVoted(c, n);
      assert {n} + vs == {n};
    } else {
      var v :| v in vs;
      OneAndRest(c, n, vs, v, req);
      var a, c1 := AllVote(c, n, vs - {v}, req, log);
      VotedKeeps(c, c1, n, vs - {v});
      WillingStays(c, c1, n, {v}, vs - {v}, req);
      JustOne(c1, n, v, req);
      var b, c2 := OneVoter(c1, n, v, req, log, {n} + (vs - {v}));
      LeadsOn(c, a, c1, b, c2);
      VotedTwice(c, c1, c2, n, vs - {v}, {v});
      steps, c' := a + b, c2;
    }
  }

  // -------------------------------------------------------------------- a whole election

  /** The nodes of `vs` have not passed the candidate's term and have no more up to date log. */
  ghost predicate Electable(c: Cluster, n: NodeId, vs: set<NodeId>)
  {
    n in c.nodes && n !in vs
    && forall v :: v in vs ==> v in c.nodes && c.nodes[v].term <= c.nodes[n].term && FreshAs(c.nodes[n], c.nodes[v])
  }

  /** A node of the majority leads the next term; its log has one entry more, and the majority has followed it. */
  ghost predicate Elected(c: Cluster, c': Cluster, n: NodeId, vs: set<NodeId>)
    requires n in c.nodes
  {
    && LeaderAt(c', n) && c'.members == c.members && c'.nodes[n].term == c.nodes[n].term + 1
    && c'.nodes[n].log.entries == c.nodes[n].log.entries
        + [LogEntry(|c.nodes[n].log.entries| + 1, c.nodes[n].term + 1, [], Noop)]
    && AllReachable(c', n, vs)
  }

  lemma CampaignShape(c: Cluster, n: NodeId)
    requires Good(c) && n in c.nodes
    ensures var c', req := DoElection(c, n), StartElection(c.nodes[n]).1;
            && c'.nodes == c.nodes[n := c'.nodes[n]] && c'.members == c.members
            && c'.nodes[n].term == c.nodes[n].term + 1 == req.term && !req.isPreVote && req.candidate == n
            && c'.nodes[n].log == c.nodes[n].log
            && req.lastLogTerm == c.nodes[n].log.LastTerm() && req.lastLogIndex == c.nodes[n].log.LastIndex()
            && (forall v :: v in c.nodes && v != n ==> (v, req) in c'.voteRequests)
            && (Good(c') ==> Campaigns(c', n, c.nodes[n].log.entries, {n}))
  {
    hide ClusterInv, Steady, Campaign;
    NodeBase(c, n);
  }

  lemma ElectAfter(c: Cluster, n: NodeId, vs: set<NodeId>, first: Step) returns (steps: seq<Step>, c': Cluster)
    requires Good(c) && Electable(c, n, vs) && vs != {} && IsMajority({n} + vs, c.members)
    requires Enabled(c, first) && Next(c, first) == DoElection(c, n)
    ensures Leads(c, steps, c') && Elected(c, c', n, vs) && steps != [] && steps[0] == first
  {
    hide ClusterInv, Steady, Next, DoElection, StartElection, IsMajority, Plays, ClusterPlays.After, FreshAs;
    var c1, req := Next(c, first), StartElection(c.nodes[n]).1;
    StepKeepsInv(c, first);
    StepSteady(c, first);
    CampaignShape(c, n);
    forall v | v in vs ensures Willing(c1, n, v, req) { FreshRequest(c.nodes[n], c.nodes[v], req); }
    var rest, c2 := AllVote(c1, n, vs, req, c.nodes[n].log.entries);
    LeadsOne(c, first);
    LeadsOn(c, [first], c1, rest, c2);
    steps, c' := [first] + rest, c2;
    LeaderIs(c2, n);
  }

  lemma FreshRequest(n: Node, v: Node, req: VoteRequest)
    requires FreshAs(n, v) && req.lastLogTerm == n.log.LastTerm() && req.lastLogIndex == n.log.LastIndex()
    ensures IsLogUpToDate(req.lastLogTerm, req.lastLogIndex, v.log.LastTerm(), v.log.LastIndex())
  {
  }

  /** A candidate that is fresh enough for a majority can win the election of its next term. */
  lemma CandidateCanWin(c: Cluster, n: NodeId, vs: set<NodeId>) returns (steps: seq<Step>, c': Cluster)
    requires Good(c) && Electable(c, n, vs) && vs != {} && IsMajority({n} + vs, c.members)
    ensures Leads(c, steps, c') && Elected(c, c', n, vs)
  {
    hide Good, Elected, Leads, IsMajority;
    ElectionIsNext(c, n);
    steps, c' := ElectAfter(c, n, vs, StartElectionStep(n));
  }

  lemma ElectionIsNext(c: Cluster, n: NodeId)
    requires n in c.nodes
    ensures Enabled(c, StartElectionStep(n)) && Next(c, StartElectionStep(n)) == DoElection(c, n)
  {
  }

  /**
   A leadership transfer reaches its goal: once a leader names the caught-up target, the TimeoutNow
   it sends lets the target win with any majority that has not left the leader's term.
   */
  lemma TransferCanSucceed(c: Cluster, l: NodeId, target: NodeId, vs: set<NodeId>)
      returns (steps: seq<Step>, c': Cluster)
    requires Good(c) && l in c.nodes && c.nodes[l].role == Leader && target in c.nodes
    requires CheckTransferProgress(c.nodes[l]).1 == Some(target) && c.nodes[target].term == c.nodes[l].term
    requires target !in vs && vs != {} && IsMajority({target} + vs, c.members)
    requires forall v :: v in vs ==> v in c.nodes && c.nodes[v].term <= c.nodes[l].term
    ensures Leads(c, steps, c') && Elected(c, c', target, vs)
    ensures steps != [] && steps[0] == TimeoutNowStep(target, TimeoutNow(c.nodes[l].term, l))
  {
    hide ClusterInv, Steady, Elected, IsMajority, CheckTransferProgress, DoElection, FreshAs;
    TransferTargetIsCaughtUp(c, l, target);
    SameLogSameEnd(c, l, target);
    forall v | v in vs ensures FreshAs(c.nodes[target], c.nodes[v]) {
      LeaderLogIsFreshest(c, l, v);
      SameFreshness(c.nodes[l], c.nodes[target], c.nodes[v]);
    }
    var first := TimeoutNowStep(target, TimeoutNow(c.nodes[l].term, l));
    TimeoutNowIs(c, target, TimeoutNow(c.nodes[l].term, l));
    steps, c' := ElectAfter(c, target, vs, first);
  }

  lemma SameLogSameEnd(c: Cluster, a: NodeId, b: NodeId)
    requires ClusterInv(c) && a in c.nodes && b in c.nodes && c.nodes[a].log.entries == c.nodes[b].log.entries
    ensures c.nodes[a].log.LastIndex() == c.nodes[b].log.LastIndex()
    ensures c.nodes[a].log.LastTerm() == c.nodes[b].log.LastTerm()
  {
    hide ClusterInv;
    NodeLog(c, a);
    NodeLog(c, b);
  }

  lemma SameFreshness(l: Node, n: Node, v: Node)
    requires FreshAs(l, v) && n.log.LastIndex() == l.log.LastIndex() && n.log.LastTerm() == l.log.LastTerm()
    ensures FreshAs(n, v)
  {
  }

  // ------------------------------------------------------------- any majority, any state

  /** The node and its log are as before; its term has reached the bound. */
  ghost predicate Raised(c: Cluster, c': Cluster, n: NodeId, t: Term)
  {
    && n in c.nodes && c'.nodes.Keys == c.nodes.Keys && c'.members == c.members
    && (forall m :: m in c.nodes && m != n ==> c'.nodes[m] == c.nodes[m])
    && c'.nodes[n].log == c.nodes[n].log && c'.nodes[n].term >= t
  }

  /** A node can campaign until its term is high enough. */
  lemma {:induction false} RaiseTo(c: Cluster, n: NodeId, t: Term) returns (steps: seq<Step>, c': Cluster)
    requires Good(c) && n in c.nodes
    ensures Leads(c, steps, c') && Good(c') && Raised(c, c', n, t)
    decreases t - c.nodes[n].term
  {
    hide ClusterInv, Steady, Next, DoElection, StartElection, Plays, ClusterPlays.After, Campaigns;
    if c.nodes[n].term >= t {
      steps, c' := [], c;
      LeadsNowhere(c);
    } else {
      var first := StartElectionStep(n);
      ElectionIsNext(c, n);
      CampaignShape(c, n);
      var c1 := Next(c, first);
      StepKeepsInv(c, first);
      StepSteady(c, first);
      LeadsOne(c, first);
      var rest, c2 := RaiseTo(c1, n, t);
      LeadsOn(c, [first], c1, rest, c2);
      steps, c' := [first] + rest, c2;
    }
  }

  /** Some node of the set has a log at least as up to date as all the others. */
  lemma {:induction false} Freshest(c: Cluster, q: set<NodeId>) returns (n: NodeId)
    requires q != {} && q <= c.nodes.Keys
    ensures n in q && forall v :: v in q ==> FreshAs(c.nodes[n], c.nodes[v])
    decreases |q|
  {
    var x :| x in q;
    if q == {x} {
      n := x;
    } else {
      var y := Freshest(c, q - {x});
      n := if FreshAs(c.nodes[y], c.nodes[x]) then y else x;
      assert forall v :: v in q ==> v == x || v in q - {x};
    }
  }

  lemma {:induction false} TermBound(c: Cluster, q: set<NodeId>) returns (t: Term)
    requires q <= c.nodes.Keys
    ensures forall v :: v in q ==> c.nodes[v].term <= t
    decreases |q|
  {
    if q == {} {
      t := 0;
    } else {
      var x :| x in q;
      var u := TermBound(c, q - {x});
      t := if u < c.nodes[x].term then c.nodes[x].term else u;
    }
  }

  /** From every reachable state every majority of two or more can make one of its nodes leader. */
  lemma MajorityCanElect(c: Cluster, q: set<NodeId>) returns (n: NodeId, steps: seq<Step>, c': Cluster)
    requires Good(c) && q <= c.members && |q| > 1 && IsMajority(q, c.members)
    ensures n in q && Leads(c, steps, c') && LeaderAt(c', n) && c'.members == c.members && AllReachable(c', n, q - {n})
    ensures q <= c.nodes.Keys && forall v :: v in q ==> c.nodes[v].term < c'.nodes[n].term
  {
    hide ClusterInv, Steady, Leads, IsMajority, FreshAs, OnlyVoted;
    MembersAreNodes(c);
    n := Freshest(c, q);
    var t := TermBound(c, q);
    var a, c1 := RaiseTo(c, n, t);
    var vs := q - {n};
    assert {n} + vs == q;
    forall v | v in vs ensures FreshAs(c1.nodes[n], c1.nodes[v]) { SameFreshness(c.nodes[n], c1.nodes[n], c.nodes[v]); }
    var b, c2 := CandidateCanWin(c1, n, vs);
    LeadsOn(c, a, c1, b, c2);
    steps, c' := a + b, c2;
  }

  /** A leader that is told to forget a pending transfer takes a proposal. */
  lemma ProposeAgain(c: Cluster, n: NodeId, data: Bytes) returns (steps: seq<Step>, c': Cluster)
    requires LeaderAt(c, n)
    ensures Leads(c, steps, c') && LeaderAt(c', n) && c'.members == c.members
    ensures c'.nodes.Keys == c.nodes.Keys && c'.nodes[n].term == c.nodes[n].term
    ensures forall m :: m in c.nodes && m != n ==> c'.nodes[m] == c.nodes[m]
    ensures var log := c.nodes[n].log.entries;
            c'.nodes[n].log.entries == log + [LogEntry(|log| + 1, c.nodes[n].term, data, Normal)]
  {
    hide ClusterInv, Steady, Plays, ClusterPlays.After;
    var x, y := TransferTimeoutStep(n, true), ProposeStep(n, data);
    var c1 := Next(c, x);
    StepKeepsInv(c, x);
    StepSteady(c, x);
    NodeLog(c, n);
    StepKeepsInv(c1, y);
    StepSteady(c1, y);
    c' := Next(c1, y);
    LeaderIs(c', n);
    LeadsOne(c, x);
    LeadsOne(c1, y);
    LeadsOn(c, [x], c1, [y], c');
    steps := [x] + [y];
  }

  /** The log contains whatever any node has committed. */
  ghost predicate HoldsCommitted(c: Cluster, log: seq<LogEntry>)
  {
    forall m :: m in c.nodes ==> CommittedPrefix(c, m) <= log
  }

  /**
   No reachable state is a dead end. For every majority of two or more nodes and every datum there
   is a continuation after which all of them have delivered the same log, which contains all that
   any node had committed before and ends with the datum.
   */
  lemma MajorityCanServe(run: seq<Cluster>, steps: seq<Step>, q: set<NodeId>, data: Bytes)
      returns (states: seq<Cluster>, more: seq<Step>, log: seq<LogEntry>)
    requires IsRun(run, steps) && q <= run[|run| - 1].members && |q| > 1 && IsMajority(q, run[|run| - 1].members)
    ensures |states| == |more| && IsRun(run + states, steps + more)
    ensures Delivered((run + states)[|run + states| - 1], q, log)
    ensures log != [] && log[|log| - 1].data == data && log[|log| - 1].kind == Normal
    ensures HoldsCommitted(run[|run| - 1], log)
  {
    hide ClusterInv, Steady, Leads, IsMajority, Delivered, Init, Next;
    var c := run[|run| - 1];
    LastIsGood(run, steps);
    var n, a, c1 := MajorityCanElect(c, q);
    var b, c2 := ProposeAgain(c1, n, data);
    var d, c3 := LeaderDelivers(c2, n, q);
    log := c2.nodes[n].log.entries;
    LeadsOn(c, a, c1, b, c2);
    LeadsOn(c, a + b, c2, d, c3);
    more := a + b + d;
    states := RunGoesOn(run, steps, more, c3);
    forall m | m in c.nodes ensures CommittedPrefix(c, m) <= log {
      CommittedIsInside(run, steps, states, more, n, q, log, m);
    }
  }

  lemma LastIsGood(run: seq<Cluster>, steps: seq<Step>)
    requires IsRun(run, steps)
    ensures Good(run[|run| - 1])
  {
    hide ClusterInv, Steady, Init, Next;
    RunInv(run, steps, |run| - 1);
    RunSteady(run, steps, |run| - 1);
  }

  /** A term that a majority has not reached has no leader yet. */
  lemma NoLeaderYet(c: Cluster, q: set<NodeId>, t: Term)
    requires ClusterInv(c) && IsMajority(q, c.members) && q <= c.nodes.Keys
    requires forall v :: v in q ==> c.nodes[v].term < t
    ensures t !in c.h.termLog
  {
    hide NodesOk, MessagesOk, ReadsOk, InvKept, InvComplete, InvGranted, InvCommit, InvAccepted, InvViews;
    if t in c.h.termLog {
      assert LeaderOk(Abs(c), t);
      var v := MajoritiesMeet(q, c.h.electors[t], c.members);
    }
  }

  lemma EntryTermHasLeader(c: Cluster, m: NodeId, i: nat)
    requires ClusterInv(c) && m in c.nodes && i < |c.nodes[m].log.entries|
    ensures c.nodes[m].log.entries[i].term in c.h.termLog
  {
    hide ClusterInv;
    NodeLog(c, m);
    assert EntryOk(c.h, c.nodes[m].log.entries, i);
  }

  lemma DeliveredIsCommitted(c: Cluster, n: NodeId, log: seq<LogEntry>)
    requires ClusterInv(c) && n in c.nodes && n in c.delivered && c.delivered[n] == log == c.nodes[n].log.entries
    ensures CommittedPrefix(c, n) == log
  {
    hide ClusterInv;
    DeliveredIsApplied(c, n);
    Ready(c, n);
  }

  lemma CommittedIsInside(run: seq<Cluster>, steps: seq<Step>, states: seq<Cluster>, more: seq<Step>, n: NodeId,
                          q: set<NodeId>, log: seq<LogEntry>, m: NodeId)
    requires IsRun(run, steps) && |states| == |more| && IsRun(run + states, steps + more)
    requires var c, c' := run[|run| - 1], (run + states)[|run + states| - 1];
             && IsMajority(q, c.members) && q <= c.nodes.Keys && m in c.nodes && log != []
             && (forall v :: v in q ==> c.nodes[v].term < log[|log| - 1].term)
             && n in q && n in c'.nodes && c'.nodes[n].log.entries == log && Delivered(c', q, log)
    ensures CommittedPrefix(run[|run| - 1], m) <= log
  {
    hide ClusterInv, Init, Next, IsMajority;
    var all, last := run + states, |run + states| - 1;
    var c := run[|run| - 1];
    assert all[|run| - 1] == c;
    RunInv(run, steps, |run| - 1);
    RunInv(all, steps + more, last);
    DeliveredIsCommitted(all[last], n, log);
    CommittedPrefixesAgree(all, steps + more, |run| - 1, last, m, n);
    var prefix := CommittedPrefix(c, m);
    if log <= prefix && log != prefix {
      assert prefix[|log| - 1] == log[|log| - 1] == c.nodes[m].log.entries[|log| - 1];
      EntryTermHasLeader(c, m, |log| - 1);
      NoLeaderYet(c, q, log[|log| - 1].term);
    }
  }

  // ----------------------------------------------------------------- a cluster of one

  /** Nobody to ask, nobody who answers, nobody who leads. */
  ghost predicate Silent(c: Cluster)
  {
    && c.voteRequests == {} && c.voteReplies == {}
    && forall n :: n in c.nodes ==> c.nodes[n].peers == [] && c.nodes[n].role != Leader
  }

  lemma SilentNode(c: Cluster, c': Cluster, n: NodeId)
    requires Silent(c) && n in c.nodes && n in c'.nodes && c'.nodes == c.nodes[n := c'.nodes[n]]
    requires c'.nodes[n].peers == c.nodes[n].peers && c'.nodes[n].role != Leader
    requires c'.voteRequests == c.voteRequests && c'.voteReplies == c.voteReplies
    ensures Silent(c')
  {
  }

  lemma SilentAppend(s: Node, req: AppendRequest)
    ensures s.role != Leader ==> HandleAppendEntries(s, req).0.role != Leader
    ensures HandleAppendEntries(s, req).0.peers == s.peers
  {
    hide MergeEntries;
  }

  lemma SilentBallot(c: Cluster, n: NodeId, s: Node, h: History, req: VoteRequest, round: Round)
    requires Silent(c) && n in c.nodes && s.peers == [] && s.role != Leader
    ensures Silent(Ballot(c, n, s, h, req, round))
  {
  }

  lemma SilentElection(c: Cluster, step: Step)
    requires Silent(c) && Enabled(c, step)
    requires step.StartPreVoteStep? || step.StartElectionStep? || step.TimeoutNowStep?
    ensures Silent(Next(c, step))
  {
    hide Campaign, Silent, Ballot;
    var s := c.nodes[step.n];
    SilentPeers(c, step.n);
    match step {
      case StartPreVoteStep(n) =>
        var (s', req) := StartPreVote(s);
        SilentBallot(c, n, s', c.h, req, RoundOf(req));
      case StartElectionStep(n) =>
        var (s', req) := StartElection(s);
        SilentBallot(c, n, s', Campaign(Abs(c), n).h, req, RoundOf(req));
      case TimeoutNowStep(n, msg) =>
        TimeoutNowIs(c, n, msg);
        var (s', req) := StartElection(s);
        SilentBallot(c, n, s', Campaign(Abs(c), n).h, req, RoundOf(req));
        SilentNode(c, Put(c, n, s, c.h), n);
    }
  }

  lemma SilentPeers(c: Cluster, n: NodeId)
    requires Silent(c) && n in c.nodes
    ensures c.nodes[n].peers == [] && c.nodes[n].role != Leader
  {
  }

  lemma SilentStep(c: Cluster, step: Step)
    requires Silent(c) && Enabled(c, step)
    ensures Silent(Next(c, step))
  {
    if step.StartPreVoteStep? || step.StartElectionStep? || step.TimeoutNowStep? {
      SilentElection(c, step);
    } else {
      hide HandleAppendEntries, Silent, CreateAppendRequests, OldCommitted, HandleVoteRequest, HandleVoteResponse;
      NoVotes(c, step);
      var n := if step.AppendReplyStep? || step.ReadAckStep? then step.arep.to else step.n;
      SilentPeers(c, n);
      if step.AppendRequestStep? { SilentAppend(c.nodes[n], step.areq); }
      SilentNode(c, Next(c, step), n);
    }
  }

  lemma NoVotes(c: Cluster, step: Step)
    requires Silent(c) && Enabled(c, step)
    ensures !step.VoteRequestStep? && !step.VoteReplyStep?
  {
  }

  lemma NoPeers(members: set<NodeId>, n: NodeId, peers: seq<NodeId>)
    requires PeersOk(members, n, peers) && n in members && |members| == 1
    ensures peers == []
  {
    if peers != [] {
      var p := peers[0];
      assert p in peers;
      SubsetSize({n, p}, members);
    }
  }

  lemma AloneAtFirst(c: Cluster)
    requires Init(c) && |c.members| == 1
    ensures Silent(c)
  {
    hide PeersOk;
    forall n | n in c.nodes ensures c.nodes[n].peers == [] && c.nodes[n].role != Leader {
      assert c.nodes[n] == NewNode(n, c.nodes[n].peers);
      NoPeers(c.members, n, c.nodes[n].peers);
    }
  }

  /**
   Two nodes are needed: a winner is only made by a vote that arrives, so the node of a cluster of
   one never leads.
   */
  lemma {:induction false} LoneNodeNeverLeads(run: seq<Cluster>, steps: seq<Step>, i: nat)
    requires IsRun(run, steps) && |run[0].members| == 1 && i < |run|
    ensures Silent(run[i])
    decreases i
  {
    hide Next, Silent, Init;
    if i == 0 {
      AloneAtFirst(run[0]);
    } else {
      LoneNodeNeverLeads(run, steps, i - 1);
      SilentStep(run[i - 1], steps[i - 1]);
    }
  }
}
