/**
 A cluster of nodes and the messages they have sent. Requests stay in the network for ever, so
 they may be lost, delayed, duplicated and reordered. Two hypotheses of the event loop are part
 of the step relation: a vote is recorded only in the election round that asked for it, and a
 leader processes an append reply only in the term whose request it answers.
 */
module Clusters {
  import opened Bytes
  import opened RaftTypes
  import opened Quorums
  import opened MembershipStates
  import opened NodeModel
  import opened Replication
  import opened ReplicationSteps

  /** The election round a node is in; the history of the event loop, not a field of the node. */
  datatype Round = NoRound | PreRound(term: Term) | RealRound(term: Term)

  datatype VoteReply = VoteReply(from: NodeId, to: NodeId, round: Round, resp: VoteResponse)

  /** `at` is the time at which the follower handled the request. */
  datatype AppendReply = AppendReply(from: NodeId, to: NodeId, reqTerm: Term, resp: AppendResponse, at: nat)

  /** History of one read-index request: when it was registered and what the cluster looked like then. */
  datatype ReadInfo = ReadInfo(
    term: Term, at: nat, readIndex: LogIndex, oldCommitted: bool,
    commits: map<NodeId, LogIndex>, terms: map<NodeId, Term>, confirmedBy: set<NodeId>)

  datatype Cluster = Cluster(
    members: set<NodeId>,
    nodes: map<NodeId, Node>,
    rounds: map<NodeId, Round>,
    voteRequests: set<(NodeId, VoteRequest)>,
    voteReplies: set<VoteReply>,
    appendRequests: set<(NodeId, AppendRequest)>,
    appendReplies: set<AppendReply>,
    delivered: map<NodeId, seq<LogEntry>>,
    clock: nat,
    readLog: map<(NodeId, nat), ReadInfo>,
    h: History)

  ghost function ViewOf(s: Node): View
  {
    View(s.term, s.log.entries, s.commitIndex)
  }

  ghost function Abs(c: Cluster): State
  {
    State(c.members, map n | n in c.nodes :: ViewOf(c.nodes[n]), c.h)
  }

  // ------------------------------------------------------------------- steps

  datatype Step =
    | StartPreVoteStep(n: NodeId)
    | StartElectionStep(n: NodeId)
    | TimeoutNowStep(n: NodeId, msg: TimeoutNow)
    | VoteRequestStep(n: NodeId, vreq: VoteRequest)
    | VoteReplyStep(vrep: VoteReply)
    | AppendRequestStep(n: NodeId, areq: AppendRequest)
    | AppendReplyStep(arep: AppendReply)
    | ProposeStep(n: NodeId, data: Bytes)
    | SendAppendsStep(n: NodeId)
    | TakeCommittedStep(n: NodeId)
    | RequestReadStep(n: NodeId)
    | ReadAckStep(arep: AppendReply)
    | TakeReadStep(n: NodeId, id: nat)
    | TransferStep(n: NodeId, target: NodeId)
    | CheckTransferStep(n: NodeId)
    | TransferTimeoutStep(n: NodeId, expired: bool)

  /** The response would be counted as a vote. */
  predicate Recorded(s: Node, resp: VoteResponse)
  {
    resp.term <= s.term && resp.granted && s.election.Some?
  }

  predicate Enabled(c: Cluster, step: Step)
  {
    match step
    case VoteRequestStep(n, req) => n in c.nodes && (n, req) in c.voteRequests
    case VoteReplyStep(r) =>
      && r in c.voteReplies && r.to in c.nodes && r.to in c.rounds
      && (Recorded(c.nodes[r.to], r.resp) ==> c.rounds[r.to] == r.round)
    case AppendRequestStep(n, req) => n in c.nodes && (n, req) in c.appendRequests
    case AppendReplyStep(r) =>
      && r in c.appendReplies && r.to in c.nodes
      && (c.nodes[r.to].role == Leader && r.resp.term <= c.nodes[r.to].term ==> c.nodes[r.to].term == r.reqTerm)
    case ReadAckStep(r) => r in c.appendReplies && r.to in c.nodes && r.resp.success
    case _ => step.n in c.nodes
  }

  /** Replace one node and the history; time moves on. */
  ghost function Put(c: Cluster, n: NodeId, s: Node, h: History): Cluster
  {
    c.(nodes := c.nodes[n := s], h := h, clock := c.clock + 1)
  }

  ghost function Broadcast<T>(peers: seq<NodeId>, msg: T): set<(NodeId, T)>
  {
    set p | p in peers :: (p, msg)
  }

  ghost function Ballot(c: Cluster, n: NodeId, s: Node, h: History, req: VoteRequest, round: Round): Cluster
  {
    Put(c, n, s, h).(rounds := c.rounds[n := round], voteRequests := c.voteRequests + Broadcast(s.peers, req))
  }

  ghost function RoundOf(req: VoteRequest): Round
  {
    if req.isPreVote then PreRound(req.term) else RealRound(req.term)
  }

  ghost function DoVoteRequest(c: Cluster, n: NodeId, req: VoteRequest): Cluster
    requires n in c.nodes
  {
    var (s', resp) := HandleVoteRequest(c.nodes[n], req);
    var a := Abs(c);
    var a1 := if !req.isPreVote && req.term > c.nodes[n].term then RaiseTerm(a, n, req.term) else a;
    var a2 := if !req.isPreVote && resp.granted && n in a1.views then Grant(a1, n, req.candidate) else a1;
    Put(c, n, s', a2.h).(voteReplies := c.voteReplies + {VoteReply(n, req.candidate, RoundOf(req), resp)})
  }

  ghost function DoVoteReply(c: Cluster, r: VoteReply): Cluster
    requires r.to in c.nodes
  {
    var s := c.nodes[r.to];
    var (s', won) := HandleVoteResponse(s, r.from, r.resp, r.round.PreRound?);
    var a := if won && s'.log.entries != []
             then Win(Abs(c), r.to, s.election.value.RecordVote(r.from).votesReceived,
                 s'.log.entries[|s'.log.entries| - 1])
             else Abs(c);
    Put(c, r.to, s', a.h)
  }

  ghost function DoAppendRequest(c: Cluster, n: NodeId, req: AppendRequest): Cluster
    requires n in c.nodes
  {
    var (s', resp) := HandleAppendEntries(c.nodes[n], req);
    var h := if resp.success then c.h.(accepted := c.h.accepted[(req.term, n) := resp.matchIndex]) else c.h;
    Put(c, n, s', h).(appendReplies := c.appendReplies + {AppendReply(n, req.leaderId, req.term, resp, c.clock)})
  }

  ghost function DoAppendReply(c: Cluster, r: AppendReply): Cluster
    requires r.to in c.nodes
  {
    var s := c.nodes[r.to];
    var s' := HandleAppendResponse(s, r.from, r.resp);
    var h := if s'.commitIndex != s.commitIndex then c.h.(leaderCommit := c.h.leaderCommit[s.term := s'.commitIndex])
        else c.h;
    Put(c, r.to, s', h)
  }

  ghost function DoPropose(c: Cluster, n: NodeId, data: Bytes): Cluster
    requires n in c.nodes
  {
    var (s', r) := Propose(c.nodes[n], data);
    var h := if r.Ok? && s'.log.entries != [] then Extend(Abs(c), n, s'.log.entries[|s'.log.entries| - 1]).h else c.h;
    Put(c, n, s', h)
  }

  /** Every uncommitted entry is of the node's own term: whatever earlier terms left behind is committed. */
  predicate OldCommitted(s: Node)
  {
    forall i :: s.commitIndex <= i < |s.log.entries| ==> s.log.entries[i].term == s.term
  }

  ghost function DoRequestRead(c: Cluster, n: NodeId): Cluster
    requires n in c.nodes
  {
    var s := c.nodes[n];
    var (s', r) := RequestReadIndex(s);
    var c' := Put(c, n, s', c.h);
    if r.Ok? then
      var info := ReadInfo(s.term, c.clock, s.commitIndex, OldCommitted(s),
                           map m | m in c.nodes :: c.nodes[m].commitIndex,
                           map m | m in c.nodes :: c.nodes[m].term, {n});
      c'.(readLog := c.readLog[(n, r.value.0) := info])
    else c'
  }

  /** The acknowledgement answers an append that the follower handled after the read was registered. */
  predicate FreshAck(info: ReadInfo, r: AppendReply)
  {
    r.reqTerm == info.term && info.at < r.at
  }

  ghost function DoReadAck(c: Cluster, r: AppendReply): Cluster
    requires r.to in c.nodes
  {
    Put(c, r.to, ReadIndexAck(c.nodes[r.to], r.from), c.h).(
      readLog := map k | k in c.readLog ::
        if k.0 == r.to && FreshAck(c.readLog[k], r)
        then c.readLog[k].(confirmedBy := c.readLog[k].confirmedBy + {r.from})
        else c.readLog[k])
  }

  ghost function DoPreVote(c: Cluster, n: NodeId): Cluster
    requires n in c.nodes
  {
    var (s', req) := StartPreVote(c.nodes[n]);
    Ballot(c, n, s', c.h, req, RoundOf(req))
  }

  ghost function DoElection(c: Cluster, n: NodeId): Cluster
    requires n in c.nodes
  {
    var (s', req) := StartElection(c.nodes[n]);
    Ballot(c, n, s', Campaign(Abs(c), n).h, req, RoundOf(req))
  }

  ghost function DoTimeoutNow(c: Cluster, n: NodeId, msg: TimeoutNow): Cluster
    requires n in c.nodes
  {
    var (s', req) := HandleTimeoutNow(c.nodes[n], msg);
    if req.Some? then Ballot(c, n, s', Campaign(Abs(c), n).h, req.value, RoundOf(req.value)) else Put(c, n, s', c.h)
  }

  ghost function DoSendAppends(c: Cluster, n: NodeId): Cluster
    requires n in c.nodes
  {
    var msgs := CreateAppendRequests(c.nodes[n]);
    Put(c, n, c.nodes[n], c.h).(appendRequests := c.appendRequests + (set m | m in msgs))
  }

  ghost function DoTakeCommitted(c: Cluster, n: NodeId): Cluster
    requires n in c.nodes
  {
    var (s', out) := TakeCommitted(c.nodes[n]);
    var done := if n in c.delivered then c.delivered[n] else [];
    Put(c, n, s', c.h).(delivered := c.delivered[n := done + out])
  }

  ghost function Next(c: Cluster, step: Step): Cluster
    requires Enabled(c, step)
  {
    match step
    case StartPreVoteStep(n) => DoPreVote(c, n)
    case StartElectionStep(n) => DoElection(c, n)
    case TimeoutNowStep(n, msg) => DoTimeoutNow(c, n, msg)
    case VoteRequestStep(n, req) => DoVoteRequest(c, n, req)
    case VoteReplyStep(r) => DoVoteReply(c, r)
    case AppendRequestStep(n, req) => DoAppendRequest(c, n, req)
    case AppendReplyStep(r) => DoAppendReply(c, r)
    case ProposeStep(n, data) => DoPropose(c, n, data)
    case SendAppendsStep(n) => DoSendAppends(c, n)
    case TakeCommittedStep(n) => DoTakeCommitted(c, n)
    case RequestReadStep(n) => DoRequestRead(c, n)
    case ReadAckStep(r) => DoReadAck(c, r)
    case TakeReadStep(n, id) => Put(c, n, TakeReadIndex(c.nodes[n], id).0, c.h)
    case TransferStep(n, target) => Put(c, n, TransferLeadership(c.nodes[n], target).0, c.h)
    case CheckTransferStep(n) => Put(c, n, CheckTransferProgress(c.nodes[n]).0, c.h)
    case TransferTimeoutStep(n, expired) => Put(c, n, CheckTransferTimeout(c.nodes[n], expired), c.h)
  }

  // -------------------------------------------------------------------- runs

  /** Every node knows every other node as a peer, exactly once. */
  ghost predicate PeersOk(members: set<NodeId>, n: NodeId, peers: seq<NodeId>)
  {
    && (forall p :: p in peers <==> p in members && p != n)
    && (forall i, j :: 0 <= i < j < |peers| ==> peers[i] != peers[j])
  }

  ghost predicate Init(c: Cluster)
  {
    && c.nodes.Keys == c.rounds.Keys == c.delivered.Keys == c.members
    && (forall n :: n in c.members ==>
          && c.nodes[n] == NewNode(n, c.nodes[n].peers) && PeersOk(c.members, n, c.nodes[n].peers)
          && c.rounds[n] == NoRound && c.delivered[n] == [])
    && c.voteRequests == {} && c.voteReplies == {} && c.appendRequests == {} && c.appendReplies == {}
    && c.readLog == map[] && c.h == NO_HISTORY
  }

  ghost predicate IsRun(run: seq<Cluster>, steps: seq<Step>)
  {
    && |run| == |steps| + 1
    && Init(run[0])
    && forall i {:trigger steps[i]} :: 0 <= i < |steps| ==>
         Enabled(run[i], steps[i]) && run[i + 1] == Next(run[i], steps[i])
  }

  // --------------------------------------------------------------- invariant

  ghost predicate BaseOk(c: Cluster, n: NodeId)
    requires n in c.nodes
  {
    var s := c.nodes[n];
    && s.id == n && PeersOk(c.members, n, s.peers)
    && s.log.snapshotIndex == 0 && s.log.snapshotTerm == 0
    && s.membership == Initial(n, s.peers)
    && s.pendingReads.Fresh()
  }

  ghost predicate BallotOk(c: Cluster, n: NodeId)
    requires n in c.nodes
  {
    var s := c.nodes[n];
    && (s.votedFor.Some? ==> (s.term, n) in c.h.votes && c.h.votes[(s.term, n)] == s.votedFor.value)
    && (s.votedFor.None? ==> (s.term, n) !in c.h.votes)
  }

  ghost predicate ElectionOk(c: Cluster, n: NodeId)
    requires n in c.nodes
  {
    var s := c.nodes[n];
    n in c.rounds &&
    (s.election.Some? ==>
       var e := s.election.value;
       && e.votesNeeded == |c.members| / 2 + 1
       && e.votesReceived <= c.members
       && (c.rounds[n].RealRound? ==>
             && c.rounds[n].term == s.term
             && (s.term, n) in c.h.campaign
             && !(s.term in c.h.leader && c.h.leader[s.term] == n)
             && (forall v :: v in e.votesReceived ==> (s.term, v) in c.h.votes && c.h.votes[(s.term, v)] == n)))
  }

  ghost predicate MatchOk(c: Cluster, t: Term, ls: LeaderState, last: nat)
  {
    && (forall v :: v in ls.matchIndex ==> v in c.members && ls.matchIndex[v] <= Accepted(c.h, t, v))
    && (forall v :: v in ls.nextIndex ==> 1 <= ls.nextIndex[v] <= last + 1)
  }

  ghost predicate LeadingOk(c: Cluster, n: NodeId)
    requires n in c.nodes
  {
    var s := c.nodes[n];
    s.role == Leader ==>
      && s.term in c.h.leader && c.h.leader[s.term] == n
      && (s.leader.Some? ==> MatchOk(c, s.term, s.leader.value, |s.log.entries|))
  }

  ghost predicate AppliedOk(c: Cluster, n: NodeId)
    requires n in c.nodes
  {
    var s := c.nodes[n];
    && n in c.delivered
    && s.lastApplied <= s.commitIndex <= |s.log.entries|
    && c.delivered[n] == s.log.entries[..s.lastApplied]
  }

  ghost predicate NodeOk(c: Cluster, n: NodeId)
    requires n in c.nodes
  {
    BaseOk(c, n) && BallotOk(c, n) && ElectionOk(c, n) && LeadingOk(c, n) && AppliedOk(c, n)
  }

  ghost predicate VoteRequestOk(h: History, req: VoteRequest)
  {
    !req.isPreVote ==>
      && (req.term, req.candidate) in h.campaign
      && req.lastLogIndex == |h.campaign[(req.term, req.candidate)]|
      && req.lastLogTerm == LastTermOf(h.campaign[(req.term, req.candidate)])
  }

  ghost predicate VoteReplyOk(c: Cluster, r: VoteReply)
  {
    && r.from in c.members && !r.round.NoRound?
    && (r.resp.granted && r.round.RealRound? ==>
       (r.round.term, r.from) in c.h.votes && c.h.votes[(r.round.term, r.from)] == r.to)
  }

  /** Every append carries, or is anchored at, an entry of the leader's own term. */
  ghost predicate AppendRequestOk(h: History, req: AppendRequest)
  {
    var n := req.prevLogIndex + |req.entries|;
    && Own(h, req.term, n)
    && req.entries == h.termLog[req.term][req.prevLogIndex..n]
    && (req.prevLogIndex > 0 ==> req.prevLogTerm == h.termLog[req.term][req.prevLogIndex - 1].term)
    && req.leaderCommit <= n
    && CommittedBy(h, req.term, h.termLog[req.term][..req.leaderCommit])
  }

  ghost predicate AppendReplyOk(c: Cluster, r: AppendReply)
  {
    && r.from in c.members && r.at < c.clock
    && (r.resp.success ==>
          && (r.reqTerm, r.from) in c.h.accepted
          && r.resp.matchIndex <= Accepted(c.h, r.reqTerm, r.from)
          && (forall k :: k in c.readLog && c.readLog[k].at < r.at && r.from in c.readLog[k].terms ==>
                c.readLog[k].terms[r.from] <= r.reqTerm))
  }

  /** A majority that had not left the reader's term when the read was registered. */
  ghost predicate Unmoved(members: set<NodeId>, info: ReadInfo, q: set<NodeId>)
  {
    && q <= members && IsMajority(q, members)
    && forall v :: v in q ==> v in info.terms && info.terms[v] <= info.term
  }

  /** If there is such a majority, nothing was committed beyond the read index at registration. */
  ghost predicate ReadBound(members: set<NodeId>, info: ReadInfo)
  {
    info.oldCommitted ==>
      forall q, m {:trigger Unmoved(members, info, q), info.commits[m]} ::
        Unmoved(members, info, q) && m in info.commits ==> info.commits[m] <= info.readIndex
  }

  ghost predicate ReadOk(c: Cluster, k: (NodeId, nat))
    requires k in c.readLog
  {
    var info := c.readLog[k];
    && k.0 in c.nodes && k.1 < c.nodes[k.0].pendingReads.nextId
    && info.at < c.clock
    && info.terms.Keys == c.members && info.commits.Keys == c.members
    && (forall v :: v in c.members && v in c.nodes ==> info.terms[v] <= c.nodes[v].term)
    && ReadBound(c.members, info)
    && info.confirmedBy <= c.members
    && (forall v :: v in info.confirmedBy ==> info.terms[v] <= info.term)
    && (k.1 in c.nodes[k.0].pendingReads.pending ==>
          var p := c.nodes[k.0].pendingReads.pending[k.1];
          p.readIndex == info.readIndex && p.clusterSize == |c.members| && p.acks <= c.members)
  }

  ghost predicate MessagesOk(c: Cluster)
  {
    && (forall p {:trigger VoteRequestOk(c.h, p.1)} :: p in c.voteRequests ==> VoteRequestOk(c.h, p.1))
    && (forall r {:trigger VoteReplyOk(c, r)} :: r in c.voteReplies ==> VoteReplyOk(c, r))
    && (forall p {:trigger AppendRequestOk(c.h, p.1)} :: p in c.appendRequests ==> AppendRequestOk(c.h, p.1))
    && (forall r {:trigger AppendReplyOk(c, r)} :: r in c.appendReplies ==> AppendReplyOk(c, r))
  }

  ghost predicate ReadsOk(c: Cluster)
  {
    forall k {:trigger ReadOk(c, k)} :: k in c.readLog ==> ReadOk(c, k)
  }

  ghost predicate NodesOk(c: Cluster)
  {
    && c.nodes.Keys == c.members
    && forall n {:trigger NodeOk(c, n)} :: n in c.nodes ==> NodeOk(c, n)
  }

  ghost predicate ClusterInv(c: Cluster)
  {
    Replication.Inv(Abs(c)) && NodesOk(c) && MessagesOk(c) && ReadsOk(c)
  }
}
