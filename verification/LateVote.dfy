/**
 The vote handler does not look at the term of a granted response. A run of three nodes after which
 one reply of an earlier election round makes a second leader of the same term: the hypothesis that
 votes are recorded only in the round that asked for them cannot be dropped.
 */
module LateVotes {
  import opened Common
  import opened RaftTypes
  import opened NodeModel
  import opened Replication
  import opened Clusters
  import opened StaleReads

  function Campaigning(id: NodeId, peers: seq<NodeId>, t: Term): Node
  {
    NewNode(id, peers).(term := t, votedFor := Some(id), role := Candidate, election := Some(ElectionState({id}, 2)))
  }

  function Elected(id: NodeId, peers: seq<NodeId>, t: Term): Node
  {
    var s := Campaigning(id, peers, t);
    BecomeLeader(s.(election := Some(s.election.value.RecordVote(2))))
  }

  function Voter(t: Term, candidate: NodeId): Node
  {
    NewNode(2, [1, 3]).(term := t, votedFor := Some(candidate))
  }

  function Ask(t: Term, candidate: NodeId): VoteRequest
  {
    VoteRequest(t, candidate, 0, 0, false)
  }

  function Granted(t: Term, candidate: NodeId): VoteReply
  {
    VoteReply(2, candidate, RealRound(t), VoteResponse(t, true))
  }

  // ---------------------------------------------------------------- handlers

  lemma Starts(id: NodeId, peers: seq<NodeId>, t: Term)
    requires |peers| == 2
    ensures StartElection(NewNode(id, peers)) == (Campaigning(id, peers, 1), Ask(1, id))
    ensures StartElection(Campaigning(id, peers, t)) == (Campaigning(id, peers, t + 1), Ask(t + 1, id))
  {
    assert {} + {id} == {id};
  }

  lemma Votes()
    ensures HandleVoteRequest(NewNode(2, [1, 3]), Ask(1, 1)) == (Voter(1, 1), VoteResponse(1, true))
    ensures HandleVoteRequest(Voter(1, 1), Ask(2, 3)) == (Voter(2, 3), VoteResponse(2, true))
  {
  }

  /** The second vote completes the count, whatever term it is from. */
  lemma AnyVoteWins(id: NodeId, peers: seq<NodeId>, t: Term, earlier: Term)
    requires id != 2 && earlier <= t
    ensures HandleVoteResponse(Campaigning(id, peers, t), 2, VoteResponse(earlier, true), false)
            == (Elected(id, peers, t), true)
    ensures Elected(id, peers, t).role == Leader && Elected(id, peers, t).term == t
  {
    assert |{id} + {2}| == 2;
  }

  // --------------------------------------------------------------------- run

  ghost predicate Three(c: Cluster, a: Node, b: Node, d: Node)
  {
    c.nodes == map[1 := a, 2 := b, 3 := d] && c.rounds.Keys == {1, 2, 3}
  }

  ghost function Begin(): Cluster
  {
    Cluster({1, 2, 3}, map[1 := NewNode(1, [2, 3]), 2 := NewNode(2, [1, 3]), 3 := NewNode(3, [1, 2])],
            map[1 := NoRound, 2 := NoRound, 3 := NoRound], {}, {}, {}, {},
            map[1 := [], 2 := [], 3 := []], 0, map[], NO_HISTORY)
  }

  lemma AllPeers()
    ensures PeersOk({1, 2, 3}, 1, [2, 3]) && PeersOk({1, 2, 3}, 2, [1, 3]) && PeersOk({1, 2, 3}, 3, [1, 2])
  {
  }

  lemma BeginIsInit()
    ensures Init(Begin()) && Three(Begin(), NewNode(1, [2, 3]), NewNode(2, [1, 3]), NewNode(3, [1, 2]))
  {
    hide PeersOk;
    AllPeers();
  }

  lemma Turn(c: Cluster, c': Cluster, a: Node, b: Node, d: Node, n: NodeId, s: Node)
    requires Three(c, a, b, d) && n in c.nodes && Moved(c, c', n, s)
    ensures Three(c', if n == 1 then s else a, if n == 2 then s else b, if n == 3 then s else d)
  {
  }

  /** Node 1 campaigns in term 1, node 2 grants, and node 1 campaigns again before the reply arrives. */
  lemma FirstCandidate(c: Cluster) returns (c1: Cluster, c2: Cluster, c3: Cluster)
    requires Three(c, NewNode(1, [2, 3]), NewNode(2, [1, 3]), NewNode(3, [1, 2]))
    ensures Enabled(c, StartElectionStep(1)) && c1 == Next(c, StartElectionStep(1))
    ensures Enabled(c1, VoteRequestStep(2, Ask(1, 1))) && c2 == Next(c1, VoteRequestStep(2, Ask(1, 1)))
    ensures Enabled(c2, StartElectionStep(1)) && c3 == Next(c2, StartElectionStep(1))
    ensures Three(c3, Campaigning(1, [2, 3], 2), Voter(1, 1), NewNode(3, [1, 2])) && Granted(1, 1) in c3.voteReplies
  {
    Starts(1, [2, 3], 1);
    Votes();
    hide StartElection, HandleVoteRequest, DoElection, DoVoteRequest, Moved;
    var d := NewNode(3, [1, 2]);
    c1 := Next(c, StartElectionStep(1));
    ElectionAt(c, 1, Campaigning(1, [2, 3], 1), Ask(1, 1), 2);
    Turn(c, c1, NewNode(1, [2, 3]), NewNode(2, [1, 3]), d, 1, Campaigning(1, [2, 3], 1));
    c2 := Next(c1, VoteRequestStep(2, Ask(1, 1)));
    VoteAt(c1, 2, Ask(1, 1), Voter(1, 1), VoteResponse(1, true));
    Turn(c1, c2, Campaigning(1, [2, 3], 1), NewNode(2, [1, 3]), d, 2, Voter(1, 1));
    c3 := Next(c2, StartElectionStep(1));
    ElectionAt(c2, 1, Campaigning(1, [2, 3], 2), Ask(2, 1), 2);
    Turn(c2, c3, Campaigning(1, [2, 3], 1), Voter(1, 1), d, 1, Campaigning(1, [2, 3], 2));
  }

  /** Node 3 campaigns up to term 2 and wins it with the vote of node 2. */
  lemma SecondCandidate(c: Cluster) returns (c1: Cluster, c2: Cluster, c3: Cluster)
    requires Three(c, Campaigning(1, [2, 3], 2), Voter(1, 1), NewNode(3, [1, 2])) && Granted(1, 1) in c.voteReplies
    ensures Enabled(c, StartElectionStep(3)) && c1 == Next(c, StartElectionStep(3))
    ensures Enabled(c1, StartElectionStep(3)) && c2 == Next(c1, StartElectionStep(3))
    ensures Enabled(c2, VoteRequestStep(2, Ask(2, 3))) && c3 == Next(c2, VoteRequestStep(2, Ask(2, 3)))
    ensures Three(c3, Campaigning(1, [2, 3], 2), Voter(2, 3), Campaigning(3, [1, 2], 2)) && c3.rounds[3] == RealRound(2)
    ensures Granted(1, 1) in c3.voteReplies && Granted(2, 3) in c3.voteReplies
  {
    Starts(3, [1, 2], 1);
    Votes();
    hide StartElection, HandleVoteRequest, DoElection, DoVoteRequest, Moved;
    var a := Campaigning(1, [2, 3], 2);
    c1 := Next(c, StartElectionStep(3));
    ElectionAt(c, 3, Campaigning(3, [1, 2], 1), Ask(1, 3), 2);
    Turn(c, c1, a, Voter(1, 1), NewNode(3, [1, 2]), 3, Campaigning(3, [1, 2], 1));
    c2 := Next(c1, StartElectionStep(3));
    ElectionAt(c1, 3, Campaigning(3, [1, 2], 2), Ask(2, 3), 2);
    Turn(c1, c2, a, Voter(1, 1), Campaigning(3, [1, 2], 1), 3, Campaigning(3, [1, 2], 2));
    c3 := Next(c2, VoteRequestStep(2, Ask(2, 3)));
    VoteAt(c2, 2, Ask(2, 3), Voter(2, 3), VoteResponse(2, true));
    Turn(c2, c3, a, Voter(1, 1), Campaigning(3, [1, 2], 2), 2, Voter(2, 3));
  }

  lemma SecondWins(c: Cluster) returns (c1: Cluster)
    requires Three(c, Campaigning(1, [2, 3], 2), Voter(2, 3), Campaigning(3, [1, 2], 2)) && c.rounds[3] == RealRound(2)
    requires Granted(1, 1) in c.voteReplies && Granted(2, 3) in c.voteReplies
    ensures Enabled(c, VoteReplyStep(Granted(2, 3))) && c1 == Next(c, VoteReplyStep(Granted(2, 3)))
    ensures Three(c1, Campaigning(1, [2, 3], 2), Voter(2, 3), Elected(3, [1, 2], 2)) && Granted(1, 1) in c1.voteReplies
  {
    AnyVoteWins(3, [1, 2], 2, 2);
    hide HandleVoteResponse, DoVoteReply, Moved, Elected;
    c1 := Next(c, VoteReplyStep(Granted(2, 3)));
    WinAt(c, Granted(2, 3), Elected(3, [1, 2], 2));
    Turn(c, c1, Campaigning(1, [2, 3], 2), Voter(2, 3), Campaigning(3, [1, 2], 2), 3, Elected(3, [1, 2], 2));
  }

  /** Two different nodes lead the same term. */
  ghost predicate TwoLeaders(c: Cluster, a: NodeId, b: NodeId)
  {
    && a in c.nodes && b in c.nodes && a != b && c.nodes[a].role == Leader && c.nodes[b].role == Leader
    && c.nodes[a].term == c.nodes[b].term
  }

  lemma LateReplyWins(c: Cluster)
    requires Three(c, Campaigning(1, [2, 3], 2), Voter(2, 3), Elected(3, [1, 2], 2))
    ensures TwoLeaders(DoVoteReply(c, Granted(1, 1)), 1, 3)
  {
    AnyVoteWins(1, [2, 3], 2, 1);
    AnyVoteWins(3, [1, 2], 2, 2);
    hide HandleVoteResponse, DoVoteReply, Moved, Elected;
    WinAt(c, Granted(1, 1), Elected(1, [2, 3], 2));
    Turn(c, DoVoteReply(c, Granted(1, 1)), Campaigning(1, [2, 3], 2), Voter(2, 3), Elected(3, [1, 2], 2), 1,
        Elected(1, [2, 3], 2));
  }

  /** A run that meets every hypothesis, and a reply sent in it: handling the reply late elects a second leader. */
  lemma LateVoteElectsTwo() returns (run: seq<Cluster>, steps: seq<Step>, late: VoteReply)
    ensures IsRun(run, steps) && |run| == 8 && late in run[7].voteReplies && late.to in run[7].nodes
    ensures TwoLeaders(DoVoteReply(run[7], late), 1, 3)
  {
    hide Enabled, Next, Init, Three, TwoLeaders, DoVoteReply, Begin;
    BeginIsInit();
    var c0 := Begin();
    var c1, c2, c3 := FirstCandidate(c0);
    var c4, c5, c6 := SecondCandidate(c3);
    var c7 := SecondWins(c6);
    LateReplyWins(c7);
    late := Granted(1, 1);
    InCluster(c7);
    run := [c0, c1, c2, c3, c4, c5, c6, c7];
    steps := [StartElectionStep(1), VoteRequestStep(2, Ask(1, 1)), StartElectionStep(1),
              StartElectionStep(3), StartElectionStep(3), VoteRequestStep(2, Ask(2, 3)), VoteReplyStep(Granted(2, 3))];
  }

  lemma InCluster(c: Cluster)
    requires Three(c, Campaigning(1, [2, 3], 2), Voter(2, 3), Elected(3, [1, 2], 2))
    ensures 1 in c.nodes
  {
  }
}
