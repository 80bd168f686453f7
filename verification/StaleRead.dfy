/**
 `request_read_index` does not ask whether the leader has committed an entry of its own term. A
 run of two nodes in which a read is confirmed by fresh acknowledgements and is stale all the same.
 */
module StaleReads {
  import opened Common
  import opened RaftTypes
  import opened RaftLogs
  import opened MembershipStates
  import opened ReadIndexes
  import opened NodeModel
  import opened Replication
  import opened ReplicationSteps
  import opened Clusters

  const E1 := LogEntry(1, 1, [], Noop)
  const E2 := LogEntry(2, 2, [], Noop)

  // The first leader: new, campaigning, elected, committed, voting for its successor, following it.
  const A0 := NewNode(1, [2])
  const A1 := A0.(term := 1, votedFor := Some(1), role := Candidate, election := Some(ElectionState({1}, 2)))
  const A2 := A1.(role := Leader, leaderId := Some(1), election := None, log := Log([E1], 0, 0),
                  leader := Some(LeaderState(map[2 := 1], map[2 := 0, 1 := 1])))
  const A3 := A2.(commitIndex := 1, leader := Some(LeaderState(map[2 := 2], map[2 := 1, 1 := 1])))
  const A4 := A3.(term := 2, votedFor := Some(2), role := Follower, leaderId := None, leader := None)
  const A5 := A4.(leaderId := Some(2), log := Log([E1, E2], 0, 0))

  // The second leader: new, voting, following, campaigning, elected, asked to read, confirmed.
  const B0 := NewNode(2, [1])
  const B1 := B0.(term := 1, votedFor := Some(1))
  const B2 := B1.(leaderId := Some(1), log := Log([E1], 0, 0))
  const B3 := B2.(term := 2, votedFor := Some(2), role := Candidate, leaderId := None,
      election := Some(ElectionState({2}, 2)))
  const B4 := B3.(role := Leader, leaderId := Some(2), election := None, log := Log([E1, E2], 0, 0),
                  leader := Some(LeaderState(map[1 := 2], map[1 := 0, 2 := 2])))
  const B5 := B4.(pendingReads := Reads(2, map[1 := ReadRequest(0, {2}, 2)]))
  const B6 := B4.(pendingReads := Reads(2, map[1 := ReadRequest(0, {1, 2}, 2)]))

  const VOTE1 := VoteRequest(1, 1, 0, 0, false)
  const VOTE2 := VoteRequest(2, 2, 1, 1, false)
  const APPEND1 := AppendRequest(1, 1, 0, 0, [E1], 0)
  const APPEND2 := AppendRequest(2, 2, 1, 1, [E2], 0)

  // ---------------------------------------------------------------- handlers

  lemma Elections()
    ensures StartElection(A0) == (A1, VOTE1) && HandleVoteRequest(B0, VOTE1) == (B1, VoteResponse(1, true))
    ensures StartElection(B2) == (B3, VOTE2) && HandleVoteRequest(A3, VOTE2) == (A4, VoteResponse(2, true))
  {
    assert {} + {1} == {1} && {} + {2} == {2};
  }

  lemma FirstWin()
    ensures HandleVoteResponse(A1, 2, VoteResponse(1, true), false) == (A2, true)
  {
    assert |{1} + {2}| == 2;
    assert ForEach([2], 1) == map[2 := 1] && ForEach([2], 0)[1 := 1] == map[2 := 0, 1 := 1];
    assert [] + [E1] == [E1];
  }

  lemma SecondWin()
    ensures HandleVoteResponse(B3, 1, VoteResponse(2, true), false) == (B4, true)
  {
    assert |{2} + {1}| == 2;
    assert ForEach([1], 2) == map[1 := 2] && ForEach([1], 0)[2 := 2] == map[1 := 0, 2 := 2];
    assert [E1] + [E2] == [E1, E2];
  }

  lemma OneNewEntry(log: Log, e: LogEntry)
    requires log.Get(e.index) == None
    ensures MergeEntries(log, [e]) == log.Append([e])
  {
    assert [e][1..] == [] && [] + [e] == [e];
    assert Reconcile(log, [e], []) == (log, [e]);
  }

  lemma Appends()
    ensures HandleAppendEntries(B1, APPEND1) == (B2, AppendResponse(1, true, 1))
    ensures HandleAppendEntries(A4, APPEND2) == (A5, AppendResponse(2, true, 2))
  {
    OneNewEntry(B1.log, E1);
    OneNewEntry(A4.log, E2);
    assert [E1] + [E2] == [E1, E2] && [] + [E1] == [E1];
  }

  lemma Sends()
    ensures CreateAppendRequests(A2) == [(2, APPEND1)] && CreateAppendRequests(B5) == [(1, APPEND2)]
  {
    assert [E1][0..] == [E1] && [E1, E2][1..] == [E2];
  }

  lemma Commits()
    ensures HandleAppendResponse(A2, 2, AppendResponse(1, true, 1)) == A3
  {
    var s := A2.(leader := A3.leader);
    assert RecordResponse(A2.leader.value, 2, AppendResponse(1, true, 1)) == A3.leader.value;
    var c := s.membership.current;
    assert c[..1] == [c[0]] && c[..1][..0] == [];
    assert Voters(A3.leader.value, 1) == {1, 2};
    assert CountIn(c, {1, 2}) == CountIn(c[..1], {1, 2}) + 1 == CountIn([], {1, 2}) + 2;
    assert Committable(s, A3.leader.value, 1);
    assert A3.leader.value.matchIndex[1] in CommitCandidates(s, A3.leader.value);
    assert Greatest(CommitCandidates(s, A3.leader.value)) == 1;
  }

  lemma ReadsOf()
    ensures RequestReadIndex(B4) == (B5, Ok((1, 0))) && ReadIndexAck(B5, 1) == B6
    ensures B6.pendingReads.IsConfirmed(1)
  {
    assert {2} + {1} == {1, 2} && |{1, 2}| == 2;
    assert B5.pendingReads.RecordAck(1).pending == map[1 := ReadRequest(0, {1, 2}, 2)];
  }

  // ------------------------------------------------------------------- steps

  /** Both nodes and the time. */
  ghost predicate Scene(c: Cluster, a: Node, b: Node, t: nat)
  {
    c.members == {1, 2} && c.nodes == map[1 := a, 2 := b] && c.rounds.Keys == {1, 2} && c.clock == t
  }

  ghost function Start(): Cluster
  {
    Cluster({1, 2}, map[1 := A0, 2 := B0], map[1 := NoRound, 2 := NoRound], {}, {}, {}, {},
            map[1 := [], 2 := []], 0, map[], NO_HISTORY)
  }

  lemma StartIsInit()
    ensures Init(Start()) && Scene(Start(), A0, B0, 0)
  {
    assert PeersOk({1, 2}, 1, [2]) && PeersOk({1, 2}, 2, [1]);
  }

  const REPLY1 := VoteReply(2, 1, RealRound(1), VoteResponse(1, true))
  const REPLY2 := VoteReply(1, 2, RealRound(2), VoteResponse(2, true))
  const ACK1 := AppendReply(2, 1, 1, AppendResponse(1, true, 1), 4)
  const ACK2 := AppendReply(1, 2, 2, AppendResponse(2, true, 2), 11)

  // One lemma per kind of step: what it does to the cluster, for any nodes.

  ghost predicate Moved(c: Cluster, c': Cluster, n: NodeId, s: Node)
  {
    && c'.members == c.members && c'.nodes == c.nodes[n := s] && c'.rounds.Keys == c.rounds.Keys + {n}
    && c'.clock == c.clock + 1
  }

  lemma ElectionAt(c: Cluster, n: NodeId, s': Node, req: VoteRequest, p: NodeId)
    requires n in c.nodes && StartElection(c.nodes[n]) == (s', req) && p in s'.peers
    ensures var c' := DoElection(c, n);
            && Moved(c, c', n, s') && (p, req) in c'.voteRequests && c'.rounds == c.rounds[n := RoundOf(req)]
            && c'.voteReplies == c.voteReplies
  {
    hide StartElection, Campaign, Abs;
  }

  lemma VoteAt(c: Cluster, n: NodeId, req: VoteRequest, s': Node, resp: VoteResponse)
    requires n in c.nodes && n in c.rounds && HandleVoteRequest(c.nodes[n], req) == (s', resp)
    ensures var c' := DoVoteRequest(c, n, req);
            && Moved(c, c', n, s') && c'.rounds == c.rounds
            && c'.voteReplies == c.voteReplies + {VoteReply(n, req.candidate, RoundOf(req), resp)}
  {
    hide HandleVoteRequest;
  }

  lemma WinAt(c: Cluster, r: VoteReply, s': Node)
    requires r.to in c.nodes && r.to in c.rounds && HandleVoteResponse(c.nodes[r.to], r.from, r.resp,
             r.round.PreRound?) == (s', true)
    ensures Moved(c, DoVoteReply(c, r), r.to, s') && DoVoteReply(c, r).voteReplies == c.voteReplies
  {
  }

  lemma SendAt(c: Cluster, n: NodeId, m: (NodeId, AppendRequest))
    requires n in c.nodes && n in c.rounds && m in CreateAppendRequests(c.nodes[n])
    ensures var c' := DoSendAppends(c, n);
            Moved(c, c', n, c.nodes[n]) && m in c'.appendRequests && c'.readLog == c.readLog
  {
    hide CreateAppendRequests;
  }

  lemma AppendAt(c: Cluster, n: NodeId, req: AppendRequest, s': Node, resp: AppendResponse)
    requires n in c.nodes && n in c.rounds && HandleAppendEntries(c.nodes[n], req) == (s', resp)
    ensures var c' := DoAppendRequest(c, n, req);
            Moved(c, c', n, s') && c'.readLog == c.readLog
            && AppendReply(n, req.leaderId, req.term, resp, c.clock) in c'.appendReplies
  {
    hide HandleAppendEntries;
  }

  lemma ReplyAt(c: Cluster, r: AppendReply)
    requires r.to in c.nodes && r.to in c.rounds
    ensures Moved(c, DoAppendReply(c, r), r.to, HandleAppendResponse(c.nodes[r.to], r.from, r.resp))
  {
    hide HandleAppendResponse;
  }

  lemma ReadAt(c: Cluster, n: NodeId, s': Node, id: nat, index: LogIndex)
    requires n in c.nodes && n in c.rounds && RequestReadIndex(c.nodes[n]) == (s', Ok((id, index)))
    ensures var c' := DoRequestRead(c, n);
            && Moved(c, c', n, s') && (n, id) in c'.readLog
            && var info := c'.readLog[(n, id)];
            && info.term == c.nodes[n].term && info.at == c.clock && info.readIndex == c.nodes[n].commitIndex
            && info.commits == (map m | m in c.nodes :: c.nodes[m].commitIndex) && info.confirmedBy == {n}
  {
    hide RequestReadIndex;
  }

  lemma AckAt(c: Cluster, r: AppendReply, id: nat)
    requires r.to in c.nodes && r.to in c.rounds && (r.to, id) in c.readLog && FreshAck(c.readLog[(r.to, id)], r)
    ensures var c' := DoReadAck(c, r);
            && Moved(c, c', r.to, ReadIndexAck(c.nodes[r.to], r.from)) && (r.to, id) in c'.readLog
            && c'.readLog[(r.to, id)]
               == c.readLog[(r.to, id)].(confirmedBy := c.readLog[(r.to, id)].confirmedBy + {r.from})
  {
    hide ReadIndexAck;
  }

  lemma FirstMoves(c: Cluster, c': Cluster, a: Node, b: Node, t: nat, a': Node)
    requires Scene(c, a, b, t) && Moved(c, c', 1, a')
    ensures Scene(c', a', b, t + 1)
  {
  }

  lemma SecondMoves(c: Cluster, c': Cluster, a: Node, b: Node, t: nat, b': Node)
    requires Scene(c, a, b, t) && Moved(c, c', 2, b')
    ensures Scene(c', a, b', t + 1)
  {
  }

  // The run, three steps at a time.

  /** Node 1 wins term 1. */
  lemma FirstElection(c: Cluster) returns (c1: Cluster, c2: Cluster, c3: Cluster)
    requires Scene(c, A0, B0, 0)
    ensures Enabled(c, StartElectionStep(1)) && c1 == Next(c, StartElectionStep(1))
    ensures Enabled(c1, VoteRequestStep(2, VOTE1)) && c2 == Next(c1, VoteRequestStep(2, VOTE1))
    ensures Enabled(c2, VoteReplyStep(REPLY1)) && c3 == Next(c2, VoteReplyStep(REPLY1))
    ensures Scene(c3, A2, B1, 3)
  {
    Elections();
    FirstWin();
    hide StartElection, HandleVoteRequest, HandleVoteResponse, DoElection, DoVoteRequest, DoVoteReply, Moved;
    c1 := Next(c, StartElectionStep(1));
    ElectionAt(c, 1, A1, VOTE1, 2);
    FirstMoves(c, c1, A0, B0, 0, A1);
    c2 := Next(c1, VoteRequestStep(2, VOTE1));
    VoteAt(c1, 2, VOTE1, B1, VoteResponse(1, true));
    SecondMoves(c1, c2, A1, B0, 1, B1);
    c3 := Next(c2, VoteReplyStep(REPLY1));
    WinAt(c2, REPLY1, A2);
    FirstMoves(c2, c3, A1, B1, 2, A2);
  }

  /** It replicates and commits its first entry. */
  lemma FirstCommit(c: Cluster) returns (c1: Cluster, c2: Cluster, c3: Cluster)
    requires Scene(c, A2, B1, 3)
    ensures Enabled(c, SendAppendsStep(1)) && c1 == Next(c, SendAppendsStep(1))
    ensures Enabled(c1, AppendRequestStep(2, APPEND1)) && c2 == Next(c1, AppendRequestStep(2, APPEND1))
    ensures Enabled(c2, AppendReplyStep(ACK1)) && c3 == Next(c2, AppendReplyStep(ACK1))
    ensures Scene(c3, A3, B2, 6)
  {
    Sends();
    Appends();
    Commits();
    hide CreateAppendRequests, HandleAppendEntries, HandleAppendResponse, DoSendAppends, DoAppendRequest,
         DoAppendReply, Moved;
    c1 := Next(c, SendAppendsStep(1));
    SendAt(c, 1, (2, APPEND1));
    FirstMoves(c, c1, A2, B1, 3, A2);
    c2 := Next(c1, AppendRequestStep(2, APPEND1));
    AppendAt(c1, 2, APPEND1, B2, AppendResponse(1, true, 1));
    SecondMoves(c1, c2, A2, B1, 4, B2);
    c3 := Next(c2, AppendReplyStep(ACK1));
    ReplyAt(c2, ACK1);
    FirstMoves(c2, c3, A2, B2, 5, A3);
  }

  /** Node 2 wins term 2 without knowing of the commit. */
  lemma SecondElection(c: Cluster) returns (c1: Cluster, c2: Cluster, c3: Cluster)
    requires Scene(c, A3, B2, 6)
    ensures Enabled(c, StartElectionStep(2)) && c1 == Next(c, StartElectionStep(2))
    ensures Enabled(c1, VoteRequestStep(1, VOTE2)) && c2 == Next(c1, VoteRequestStep(1, VOTE2))
    ensures Enabled(c2, VoteReplyStep(REPLY2)) && c3 == Next(c2, VoteReplyStep(REPLY2))
    ensures Scene(c3, A4, B4, 9)
  {
    Elections();
    SecondWin();
    hide StartElection, HandleVoteRequest, HandleVoteResponse, DoElection, DoVoteRequest, DoVoteReply, Moved;
    c1 := Next(c, StartElectionStep(2));
    ElectionAt(c, 2, B3, VOTE2, 1);
    SecondMoves(c, c1, A3, B2, 6, B3);
    c2 := Next(c1, VoteRequestStep(1, VOTE2));
    VoteAt(c1, 1, VOTE2, A4, VoteResponse(2, true));
    FirstMoves(c1, c2, A3, B3, 7, A4);
    c3 := Next(c2, VoteReplyStep(REPLY2));
    WinAt(c2, REPLY2, B4);
    SecondMoves(c2, c3, A4, B3, 8, B4);
  }

  /** Node 2 has the read and everything it was told at registration. */
  ghost predicate Registered(c: Cluster, confirmedBy: set<NodeId>)
  {
    && (2, 1) in c.readLog
    && var info := c.readLog[(2, 1)];
    && info.term == 2 && info.at == 9 && info.readIndex == 0 && info.commits == map[1 := 1, 2 := 0]
    && info.confirmedBy == confirmedBy
  }

  lemma Registration(c: Cluster) returns (c1: Cluster)
    requires Scene(c, A4, B4, 9)
    ensures Enabled(c, RequestReadStep(2)) && c1 == Next(c, RequestReadStep(2))
    ensures Scene(c1, A4, B5, 10) && Registered(c1, {2})
  {
    ReadsOf();
    hide RequestReadIndex, DoRequestRead, Moved;
    c1 := Next(c, RequestReadStep(2));
    ReadAt(c, 2, B5, 1, 0);
    SecondMoves(c, c1, A4, B4, 9, B5);
  }

  /** Node 1 handles an append of node 2 after the registration. */
  lemma Heartbeat(c: Cluster) returns (c1: Cluster, c2: Cluster)
    requires Scene(c, A4, B5, 10) && Registered(c, {2})
    ensures Enabled(c, SendAppendsStep(2)) && c1 == Next(c, SendAppendsStep(2))
    ensures Enabled(c1, AppendRequestStep(1, APPEND2)) && c2 == Next(c1, AppendRequestStep(1, APPEND2))
    ensures Scene(c2, A5, B5, 12) && Registered(c2, {2}) && ACK2 in c2.appendReplies
  {
    Sends();
    Appends();
    hide CreateAppendRequests, HandleAppendEntries, DoSendAppends, DoAppendRequest, Moved;
    c1 := Next(c, SendAppendsStep(2));
    SendAt(c, 2, (1, APPEND2));
    SecondMoves(c, c1, A4, B5, 10, B5);
    c2 := Next(c1, AppendRequestStep(1, APPEND2));
    AppendAt(c1, 1, APPEND2, A5, AppendResponse(2, true, 2));
    FirstMoves(c1, c2, A4, B5, 11, A5);
  }

  lemma Confirmation(c: Cluster) returns (c1: Cluster)
    requires Scene(c, A5, B5, 12) && Registered(c, {2}) && ACK2 in c.appendReplies
    ensures Enabled(c, ReadAckStep(ACK2)) && c1 == Next(c, ReadAckStep(ACK2))
    ensures Scene(c1, A5, B6, 13) && Registered(c1, {1, 2})
  {
    ReadsOf();
    hide ReadIndexAck, DoReadAck, Moved;
    c1 := Next(c, ReadAckStep(ACK2));
    AckAt(c, ACK2, 1);
    SecondMoves(c, c1, A5, B5, 12, B6);
    assert {2} + {1} == {1, 2};
  }

  /** Confirmed by fresh acknowledgements only, and below what node `m` had committed at registration. */
  ghost predicate StaleRead(c: Cluster, n: NodeId, id: nat, m: NodeId)
  {
    && n in c.nodes && (n, id) in c.readLog && m in c.members && c.nodes[n].pendingReads.IsConfirmed(id)
    && c.nodes[n].pendingReads.pending[id].acks <= c.readLog[(n, id)].confirmedBy
    && m in c.readLog[(n, id)].commits
    && c.readLog[(n, id)].commits[m] > c.nodes[n].pendingReads.pending[id].readIndex
  }

  lemma ItIsStale(c: Cluster)
    requires Scene(c, A5, B6, 13) && Registered(c, {1, 2})
    ensures StaleRead(c, 2, 1, 1)
  {
    ReadsOf();
  }

  /** A reachable state with a stale read: the condition on the leader's own term is needed. */
  lemma ConfirmedReadCanBeStale() returns (run: seq<Cluster>, steps: seq<Step>)
    ensures IsRun(run, steps) && |run| == 14 && StaleRead(run[13], 2, 1, 1)
  {
    hide Enabled, Next, Init, Scene, Registered, StaleRead, Start;
    StartIsInit();
    var c0 := Start();
    var c1, c2, c3 := FirstElection(c0);
    var c4, c5, c6 := FirstCommit(c3);
    var c7, c8, c9 := SecondElection(c6);
    var c10 := Registration(c9);
    var c11, c12 := Heartbeat(c10);
    var c13 := Confirmation(c12);
    ItIsStale(c13);
    run := [c0, c1, c2, c3, c4, c5, c6, c7, c8, c9, c10, c11, c12, c13];
    steps := [StartElectionStep(1), VoteRequestStep(2, VOTE1), VoteReplyStep(REPLY1),
              SendAppendsStep(1), AppendRequestStep(2, APPEND1), AppendReplyStep(ACK1),
              StartElectionStep(2), VoteRequestStep(1, VOTE2), VoteReplyStep(REPLY2),
              RequestReadStep(2), SendAppendsStep(2), AppendRequestStep(1, APPEND2), ReadAckStep(ACK2)];
  }
}
