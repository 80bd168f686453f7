/**
 One Raft node as a value, and one function per handler of `RaftNode`. Every handler takes the
 node's mutex once, so each function is one atomic step of the node.
 */
module NodeModel {
  import opened Common
  import opened Bytes
  import opened RaftTypes
  import opened RaftLogs
  import opened MembershipStates
  import opened ReadIndexes

  datatype Role = Follower | PreCandidate | Candidate | Leader

  datatype LeaderState = LeaderState(nextIndex: map<NodeId, LogIndex>, matchIndex: map<NodeId, LogIndex>)

  datatype ElectionState = ElectionState(votesReceived: set<NodeId>, votesNeeded: nat) {

    function RecordVote(from: NodeId): ElectionState
    {
      this.(votesReceived := votesReceived + {from})
    }

    predicate HasQuorum()
    {
      |votesReceived| >= votesNeeded
    }
  }

  datatype Transfer = Transfer(target: NodeId, timeoutNowSent: bool)

  datatype Node = Node(
    id: NodeId,
    peers: seq<NodeId>,
    role: Role,
    term: Term,
    votedFor: Option<NodeId>,
    leaderId: Option<NodeId>,
    commitIndex: LogIndex,
    lastApplied: LogIndex,
    log: Log,
    leader: Option<LeaderState>,
    election: Option<ElectionState>,
    pendingReads: Reads,
    transfer: Option<Transfer>,
    membership: Membership)

  datatype ProposalError = NotLeader(leaderId: Option<NodeId>) | TransferInProgress

  datatype TransferError = TransferNotLeader | AlreadyInProgress | TargetNotInCluster | AlreadyLeader

  function NewNode(id: NodeId, peers: seq<NodeId>): Node
  {
    Node(id, peers, Follower, 0, None, None, 0, 0, Log([], 0, 0), None, None, NO_READS, None, Initial(id, peers))
  }

  // ---------------------------------------------------------------- elections

  function NewElection(clusterSize: nat): ElectionState
  {
    ElectionState({}, clusterSize / 2 + 1)
  }

  /** The candidate's log is at least as up to date as ours (section 5.4.1). */
  predicate IsLogUpToDate(candidateTerm: Term, candidateIndex: LogIndex, ourTerm: Term, ourIndex: LogIndex)
  {
    if candidateTerm != ourTerm then candidateTerm > ourTerm else candidateIndex >= ourIndex
  }

  /** The comparison is a total preorder on (last term, last index), and equivalent logs have equal ends. */
  lemma UpToDateIsTotalOrder(t1: Term, i1: LogIndex, t2: Term, i2: LogIndex, t3: Term, i3: LogIndex)
    ensures IsLogUpToDate(t1, i1, t2, i2) || IsLogUpToDate(t2, i2, t1, i1)
    ensures IsLogUpToDate(t1, i1, t2, i2) && IsLogUpToDate(t2, i2, t3, i3) ==> IsLogUpToDate(t1, i1, t3, i3)
    ensures IsLogUpToDate(t1, i1, t2, i2) && IsLogUpToDate(t2, i2, t1, i1) ==> t1 == t2 && i1 == i2
  {
  }

  predicate ShouldGrantVote(s: Node, req: VoteRequest)
  {
    && req.term >= s.term
    && (s.votedFor.Some? ==> s.votedFor.value == req.candidate)
    && IsLogUpToDate(req.lastLogTerm, req.lastLogIndex, s.log.LastTerm(), s.log.LastIndex())
  }

  function StepDown(s: Node, newTerm: Term): Node
  {
    s.(term := newTerm, votedFor := None, role := Follower, leaderId := None, leader := None,
       election := None, pendingReads := s.pendingReads.Clear(), transfer := None,
           membership := s.membership.AbortChange())
  }

  function StartPreVote(s: Node): (Node, VoteRequest)
  {
    (s.(role := PreCandidate, election := Some(NewElection(|s.peers| + 1).RecordVote(s.id))),
     VoteRequest(s.term + 1, s.id, s.log.LastIndex(), s.log.LastTerm(), true))
  }

  function StartElection(s: Node): (Node, VoteRequest)
  {
    (s.(term := s.term + 1, votedFor := Some(s.id), role := Candidate, leaderId := None,
        election := Some(NewElection(|s.peers| + 1).RecordVote(s.id))),
     VoteRequest(s.term + 1, s.id, s.log.LastIndex(), s.log.LastTerm(), false))
  }

  function HandleTimeoutNow(s: Node, msg: TimeoutNow): (Node, Option<VoteRequest>)
  {
    if msg.term < s.term then (s, None)
    else
      var (s', req) := StartElection(s);
      (s', Some(req))
  }

  function ForEach(peers: seq<NodeId>, value: LogIndex): map<NodeId, LogIndex>
  {
    map p | p in peers :: value
  }

  function InitialLeaderState(peers: seq<NodeId>, lastIndex: LogIndex): LeaderState
  {
    LeaderState(ForEach(peers, lastIndex + 1), ForEach(peers, 0))
  }

  function BecomeLeader(s: Node): Node
  {
    var noop := LogEntry(s.log.LastIndex() + 1, s.term, [], Noop);
    var log := s.log.Append([noop]);
    var ls := InitialLeaderState(s.peers, s.log.LastIndex());
    s.(role := Leader, leaderId := Some(s.id), election := None, log := log,
       leader := Some(ls.(matchIndex := ls.matchIndex[s.id := log.LastIndex()])))
  }

  /** The Boolean says that the node became leader. */
  function HandleVoteResponse(s: Node, from: NodeId, resp: VoteResponse, wasPreVote: bool): (Node, bool)
  {
    if resp.term > s.term then (StepDown(s, resp.term), false)
    else if !resp.granted || s.election.None? then (s, false)
    else
      var e := s.election.value.RecordVote(from);
      var s' := s.(election := Some(e));
      if e.HasQuorum() && !wasPreVote then (BecomeLeader(s'), true) else (s', false)
  }

  function HandleVoteRequest(s: Node, req: VoteRequest): (Node, VoteResponse)
  {
    if req.isPreVote then
      (s, VoteResponse(s.term, req.term > s.term &&
                       IsLogUpToDate(req.lastLogTerm, req.lastLogIndex, s.log.LastTerm(), s.log.LastIndex())))
    else
      var s1 := if req.term > s.term then StepDown(s, req.term) else s;
      if ShouldGrantVote(s1, req) then (s1.(votedFor := Some(req.candidate)), VoteResponse(s1.term, true))
      else (s1, VoteResponse(s1.term, false))
  }

  // -------------------------------------------------------------- replication

  /** The conflict loop: what is left of the log, and the entries to append to it. */
  function Reconcile(log: Log, added: seq<LogEntry>, entries: seq<LogEntry>): (Log, seq<LogEntry>)
    decreases |entries|
  {
    if entries == [] then (log, added)
    else
      var e := entries[0];
      match log.Get(e.index)
      case Some(existing) =>
        if existing.term != e.term then Reconcile(log.TruncateAfter(e.index - 1), added + [e], entries[1..])
        else Reconcile(log, added, entries[1..])
      case None => Reconcile(log, added + [e], entries[1..])
  }

  function MergeEntries(log: Log, entries: seq<LogEntry>): Log
  {
    var (kept, added) := Reconcile(log, [], entries);
    kept.Append(added)
  }

  function Min(a: nat, b: nat): nat
  {
    if a < b then a else b
  }

  function HandleAppendEntries(s: Node, req: AppendRequest): (Node, AppendResponse)
  {
    if req.term < s.term then (s, AppendResponse(s.term, false, 0))
    else
      var s0 := if req.term > s.term then StepDown(s, req.term) else s;
      var s1 := s0.(role := Follower, leaderId := Some(req.leaderId));
      if req.prevLogIndex > 0 && !s1.log.MatchTerm(req.prevLogIndex, req.prevLogTerm) then
        (s1, AppendResponse(s1.term, false, s1.log.LastIndex()))
      else
        var log := MergeEntries(s1.log, req.entries);
        var commit := if req.leaderCommit > s1.commitIndex then Min(req.leaderCommit, log.LastIndex())
            else s1.commitIndex;
        (s1.(log := log, commitIndex := commit), AppendResponse(s1.term, true, log.LastIndex()))
  }

  function Propose(s: Node, data: Bytes): (Node, Result<LogIndex, ProposalError>)
  {
    if s.role != Leader then (s, Err(NotLeader(s.leaderId)))
    else if s.transfer.Some? then (s, Err(TransferInProgress))
    else
      var index := s.log.LastIndex() + 1;
      var log := s.log.Append([LogEntry(index, s.term, data, Normal)]);
      (s.(log := log, leader := OwnMatch(s, log.LastIndex())), Ok(index))
  }

  function OwnMatch(s: Node, last: LogIndex): Option<LeaderState>
  {
    match s.leader
    case Some(ls) => Some(ls.(matchIndex := ls.matchIndex[s.id := last]))
    case None => None
  }

  function AppendRequestFor(s: Node, ls: LeaderState, peer: NodeId): AppendRequest
  {
    var next := if peer in ls.nextIndex then ls.nextIndex[peer] else 1;
    var prev := if next == 0 then 0 else next - 1;
    var prevTerm := match s.log.TermAt(prev) case Some(t) => t case None => 0;
    AppendRequest(s.term, s.id, prev, prevTerm, s.log.EntriesFrom(next), s.commitIndex)
  }

  function CreateAppendRequests(s: Node): seq<(NodeId, AppendRequest)>
  {
    if s.role != Leader || s.leader.None? then []
    else seq(|s.peers|, i requires 0 <= i < |s.peers| => (s.peers[i], AppendRequestFor(s, s.leader.value, s.peers[i])))
  }

  ghost function HandleAppendResponse(s: Node, from: NodeId, resp: AppendResponse): Node
  {
    if resp.term > s.term then StepDown(s, resp.term)
    else if s.role != Leader || s.leader.None? then s
    else TryAdvanceCommit(s.(leader := Some(RecordResponse(s.leader.value, from, resp))))
  }

  function RecordResponse(ls: LeaderState, from: NodeId, resp: AppendResponse): LeaderState
  {
    if resp.success then
      ls.(matchIndex := ls.matchIndex[from := resp.matchIndex], nextIndex := ls.nextIndex[from := resp.matchIndex + 1])
    else
      var next := if from in ls.nextIndex then ls.nextIndex[from] else 1;
      ls.(nextIndex := ls.nextIndex[from := if next <= 1 then 1 else next - 1])
  }

  // ------------------------------------------------------------------- commit

  /** Nodes known to hold index `n`. */
  function Voters(ls: LeaderState, n: LogIndex): set<NodeId>
  {
    set id | id in ls.matchIndex && ls.matchIndex[id] >= n
  }

  /** The commit rule of section 5.4.2 at index `n`. */
  predicate Committable(s: Node, ls: LeaderState, n: LogIndex)
  {
    && n > s.commitIndex
    && s.membership.HasQuorum(Voters(ls, n))
    && s.log.Get(n).Some?
    && s.log.Get(n).value.term == s.term
  }

  ghost function CommitCandidates(s: Node, ls: LeaderState): set<LogIndex>
  {
    set id | id in ls.matchIndex && Committable(s, ls, ls.matchIndex[id]) :: ls.matchIndex[id]
  }

  ghost function Greatest(ns: set<nat>): (m: nat)
    requires ns != {}
    ensures m in ns && forall n :: n in ns ==> n <= m
  {
    var x :| x in ns;
    if ns == {x} then x
    else
      var y := Greatest(ns - {x});
      assert forall n :: n in ns ==> n == x || n in ns - {x};
      if x < y then y else x
  }

  /** Only the listed match values are tried, largest first. */
  ghost function TryAdvanceCommit(s: Node): Node
  {
    if s.leader.None? then s
    else
      var ns := CommitCandidates(s, s.leader.value);
      if ns == {} then s else s.(commitIndex := Greatest(ns))
  }

  // ------------------------------------------------------------------ applying

  /** The entries found at the `count` indices after `from`. */
  function Collect(log: Log, from: LogIndex, count: nat): seq<LogEntry>
    decreases count
  {
    if count == 0 then []
    else (match log.Get(from + 1) case Some(e) => [e] case None => []) + Collect(log, from + 1, count - 1)
  }

  function TakeCommitted(s: Node): (Node, seq<LogEntry>)
  {
    if s.lastApplied >= s.commitIndex then (s, [])
    else (s.(lastApplied := s.commitIndex), Collect(s.log, s.lastApplied, s.commitIndex - s.lastApplied))
  }

  // --------------------------------------------------- read index and transfer

  function RequestReadIndex(s: Node): (Node, Result<(nat, LogIndex), ProposalError>)
  {
    if s.role != Leader then (s, Err(NotLeader(s.leaderId)))
    else
      var (updated, id) := s.pendingReads.Register(s.commitIndex, s.id, |s.membership.current|);
      (s.(pendingReads := updated), Ok((id, s.commitIndex)))
  }

  function ReadIndexAck(s: Node, from: NodeId): Node
  {
    s.(pendingReads := s.pendingReads.RecordAck(from))
  }

  function TakeReadIndex(s: Node, id: nat): (Node, Option<LogIndex>)
  {
    (s.(pendingReads := s.pendingReads.Take(id).0), s.pendingReads.Take(id).1)
  }

  function TransferLeadership(s: Node, target: NodeId): (Node, Result<(), TransferError>)
  {
    if s.role != Leader then (s, Err(TransferNotLeader))
    else if target == s.id then (s, Err(AlreadyLeader))
    else if s.transfer.Some? then (s, Err(AlreadyInProgress))
    else if !s.membership.IsVoter(target) then (s, Err(TargetNotInCluster))
    else (s.(transfer := Some(Transfer(target, false))), Ok(()))
  }

  function CheckTransferProgress(s: Node): (Node, Option<NodeId>)
  {
    if s.transfer.None? || s.transfer.value.timeoutNowSent then (s, None)
    else
      var target := s.transfer.value.target;
      var known := if s.leader.Some? && target in s.leader.value.matchIndex then s.leader.value.matchIndex[target]
          else 0;
      if known >= s.log.LastIndex() then (s.(transfer := Some(Transfer(target, true))), Some(target))
      else (s, None)
  }

  /** `expired` stands for the wall-clock test of the transfer timeout. */
  function CheckTransferTimeout(s: Node, expired: bool): Node
  {
    if s.transfer.Some? && expired then s.(transfer := None) else s
  }
}
