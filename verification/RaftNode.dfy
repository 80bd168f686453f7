/**
 `RaftNode` as the object the source updates in place. Every public method takes the lock once,
 so each is one step, and each is proved to compute the handler function of `NodeModel`.
 */
module RaftNodes {
  import opened Common
  import opened Bytes
  import opened RaftTypes
  import opened RaftLogs
  import opened MembershipStates
  import opened ReadIndexes
  import opened NodeModel

  /** The contents of the persistent state file. */
  datatype Persistent = Persistent(currentTerm: Term, votedFor: Option<NodeId>)

  function ToAll(peers: seq<NodeId>, req: VoteRequest): seq<(NodeId, VoteRequest)>
  {
    seq(|peers|, i requires 0 <= i < |peers| => (peers[i], req))
  }

  method NewLeaderState(peers: seq<NodeId>, lastLogIndex: LogIndex) returns (ls: LeaderState)
    ensures ls == InitialLeaderState(peers, lastLogIndex)
  {
    ls := LeaderState(map[], map[]);
    for i := 0 to |peers|
      invariant ls == InitialLeaderState(peers[..i], lastLogIndex)
    {
      ls := LeaderState(ls.nextIndex[peers[i] := lastLogIndex + 1], ls.matchIndex[peers[i] := 0]);
    }
    assert peers[..|peers|] == peers;
  }

  predicate Descending(vs: seq<nat>)
  {
    forall i, j :: 0 <= i < j < |vs| ==> vs[i] >= vs[j]
  }

  method InsertDescending(vs: seq<nat>, v: nat) returns (r: seq<nat>)
    requires Descending(vs)
    ensures Descending(r) && multiset(r) == multiset(vs) + multiset{v}
  {
    var i := 0;
    while i < |vs| && vs[i] >= v
      invariant i <= |vs| && forall j :: 0 <= j < i ==> vs[j] >= v
    {
      i := i + 1;
    }
    r := vs[..i] + [v] + vs[i..];
    assert vs == vs[..i] + vs[i..];
  }

  /** The match values, largest first. */
  method DescendingValues(m: map<NodeId, LogIndex>) returns (vs: seq<LogIndex>)
    ensures Descending(vs)
    ensures forall v :: v in vs <==> exists id :: id in m && m[id] == v
  {
    vs := [];
    var todo := m.Keys;
    while todo != {}
      invariant todo <= m.Keys && Descending(vs)
      invariant forall id :: id in m && id !in todo ==> m[id] in vs
      invariant forall v :: v in vs ==> exists id :: id in m && m[id] == v
      decreases todo
    {
      var id :| id in todo;
      var next := InsertDescending(vs, m[id]);
      assert forall v :: v in next <==> v in multiset(next);
      assert forall v :: v in vs <==> v in multiset(vs);
      vs := next;
      todo := todo - {id};
    }
  }

  lemma NothingBelow(s: Node, ls: LeaderState, vs: seq<LogIndex>, i: nat)
    requires Descending(vs) && i < |vs| && vs[i] <= s.commitIndex
    requires forall v :: v in vs <==> exists id :: id in ls.matchIndex && ls.matchIndex[id] == v
    requires forall j :: 0 <= j < i ==> !Committable(s, ls, vs[j])
    ensures CommitCandidates(s, ls) == {}
  {
    forall v | v in vs ensures !Committable(s, ls, v) {}
  }

  lemma FirstIsGreatest(s: Node, ls: LeaderState, vs: seq<LogIndex>, i: nat)
    requires Descending(vs) && i < |vs| && Committable(s, ls, vs[i])
    requires forall v :: v in vs <==> exists id :: id in ls.matchIndex && ls.matchIndex[id] == v
    requires forall j :: 0 <= j < i ==> !Committable(s, ls, vs[j])
    ensures CommitCandidates(s, ls) != {} && Greatest(CommitCandidates(s, ls)) == vs[i]
  {
    assert vs[i] in vs;
    forall v | v in CommitCandidates(s, ls) ensures v <= vs[i]
    {
      assert v in vs;
    }
    assert vs[i] in CommitCandidates(s, ls);
  }

  /** The entries collected while the applied index moved from `start` to `now`. */
  predicate Taken(log: Log, start: LogIndex, now: LogIndex, out: seq<LogEntry>)
  {
    start <= now && out == Collect(log, start, now - start)
  }

  lemma {:induction false} CollectOneMore(log: Log, from: LogIndex, count: nat)
    ensures Collect(log, from, count + 1) ==
            Collect(log, from, count) + (match log.Get(from + count + 1) case Some(e) => [e] case None => [])
    decreases count
  {
    if count > 0 { CollectOneMore(log, from + 1, count - 1); }
  }

  class RaftNode {
    const id: NodeId
    const peers: seq<NodeId>
    var role: Role
    var currentTerm: Term
    var votedFor: Option<NodeId>
    var leaderId: Option<NodeId>
    var commitIndex: LogIndex
    var lastApplied: LogIndex
    const log: RaftLog
    var leaderState: Option<LeaderState>
    var electionState: Option<ElectionState>
    const readIndexState: ReadIndexState
    var transferState: Option<Transfer>
    const membership: MembershipState
    var saved: Persistent

    function State(): Node
      reads this, log, readIndexState, membership
    {
      Node(id, peers, role, currentTerm, votedFor, leaderId, commitIndex, lastApplied, log.Value(),
           leaderState, electionState, readIndexState.Value(), transferState, membership.Value())
    }

    /** Term and vote are on disk: no reply leaves the node before they are. */
    predicate Durable()
      reads this
    {
      saved == Persistent(currentTerm, votedFor)
    }

    constructor (id: NodeId, peers: seq<NodeId>)
      ensures State() == NewNode(id, peers) && Durable()
      ensures fresh(log) && fresh(readIndexState) && fresh(membership)
    {
      this.id, this.peers := id, peers;
      role, currentTerm, votedFor, leaderId := Follower, 0, None, None;
      commitIndex, lastApplied := 0, 0;
      leaderState, electionState, transferState := None, None, None;
      log := new RaftLog([], []);
      readIndexState := new ReadIndexState();
      membership := new MembershipState(id, peers);
      saved := Persistent(0, None);
    }

    method Save()
      modifies this`saved
      ensures Durable()
    {
      saved := Persistent(currentTerm, votedFor);
    }

    // -------------------------------------------------------------- elections

    method StartPreVote() returns (out: seq<(NodeId, VoteRequest)>)
      requires Durable()
      modifies this
      ensures Durable() && State() == NodeModel.StartPreVote(old(State())).0
      ensures out == ToAll(peers, NodeModel.StartPreVote(old(State())).1)
    {
      role := PreCandidate;
      var election := NewElection(|peers| + 1).RecordVote(id);
      var req := VoteRequest(currentTerm + 1, id, log.Value().LastIndex(), log.Value().LastTerm(), true);
      electionState := Some(election);
      out := ToAll(peers, req);
    }

    method StartElection() returns (out: seq<(NodeId, VoteRequest)>)
      modifies this
      ensures Durable() && State() == NodeModel.StartElection(old(State())).0
      ensures out == ToAll(peers, NodeModel.StartElection(old(State())).1)
    {
      currentTerm, votedFor := currentTerm + 1, Some(id);
      role, leaderId := Candidate, None;
      Save();
      var election := NewElection(|peers| + 1).RecordVote(id);
      var req := VoteRequest(currentTerm, id, log.Value().LastIndex(), log.Value().LastTerm(), false);
      electionState := Some(election);
      out := ToAll(peers, req);
    }

    method HandleTimeoutNow(msg: TimeoutNow) returns (out: seq<(NodeId, VoteRequest)>)
      requires Durable()
      modifies this
      ensures Durable() && State() == NodeModel.HandleTimeoutNow(old(State()), msg).0
      ensures match NodeModel.HandleTimeoutNow(old(State()), msg).1
              case Some(req) => out == ToAll(peers, req)
              case None => out == []
    {
      if msg.term < currentTerm { return []; }
      out := StartElection();
    }

    method StepDown(newTerm: Term)
      modifies this, readIndexState, membership
      ensures Durable() && State() == NodeModel.StepDown(old(State()), newTerm)
    {
      hide Log.LastIndex, Log.LastTerm;
      currentTerm, votedFor := newTerm, None;
      role, leaderId := Follower, None;
      leaderState, electionState := None, None;
      readIndexState.Clear();
      transferState := None;
      membership.AbortChange();
      Save();
    }

    method BecomeLeader()
      requires Durable()
      modifies this, log
      ensures Durable() && State() == NodeModel.BecomeLeader(old(State()))
    {
      ghost var s := State();
      role := Leader;
      leaderId := Some(id);
      electionState := None;
      var ls := NewLeaderState(peers, log.Value().LastIndex());
      assert ls == InitialLeaderState(s.peers, s.log.LastIndex());
      var noop := LogEntry(log.Value().LastIndex() + 1, currentTerm, [], Noop);
      log.Append([noop]);
      leaderState := Some(ls.(matchIndex := ls.matchIndex[id := log.Value().LastIndex()]));
    }

    method HandleVoteResponse(from: NodeId, resp: VoteResponse, wasPreVote: bool) returns (won: bool)
      requires Durable()
      modifies this, log, readIndexState, membership
      ensures Durable() && (State(), won) == NodeModel.HandleVoteResponse(old(State()), from, resp, wasPreVote)
    {
      if resp.term > currentTerm {
        StepDown(resp.term);
        return false;
      }
      if !resp.granted { return false; }
      if electionState.Some? {
        electionState := Some(electionState.value.RecordVote(from));
        if electionState.value.HasQuorum() {
          if wasPreVote { return false; }
          BecomeLeader();
          return true;
        }
      }
      won := false;
    }

    method HandleVoteRequest(req: VoteRequest) returns (resp: VoteResponse)
      requires Durable()
      modifies this, readIndexState, membership
      ensures Durable() && (State(), resp) == NodeModel.HandleVoteRequest(old(State()), req)
    {
      if req.isPreVote {
        var wouldGrant := req.term > currentTerm &&
          IsLogUpToDate(req.lastLogTerm, req.lastLogIndex, log.Value().LastTerm(), log.Value().LastIndex());
        return VoteResponse(currentTerm, wouldGrant);
      }
      if req.term > currentTerm { StepDown(req.term); }
      var grant := ShouldGrantVote(State(), req);
      if grant {
        votedFor := Some(req.candidate);
        Save();
      }
      resp := VoteResponse(currentTerm, grant);
    }

    // ------------------------------------------------------------ replication

    /** The conflict loop of the append handler. */
    method Merge(entries: seq<LogEntry>)
      modifies log
      ensures log.Value() == MergeEntries(old(log.Value()), entries)
    {
      var newEntries: seq<LogEntry> := [];
      assert entries[0..] == entries;
      for i := 0 to |entries|
        invariant Reconcile(old(log.Value()), [], entries) == Reconcile(log.Value(), newEntries, entries[i..])
      {
        var entry := entries[i];
        assert entries[i..][0] == entry && entries[i..][1..] == entries[i + 1..];
        match log.Value().Get(entry.index) {
          case Some(existing) =>
            if existing.term != entry.term {
              log.TruncateAfter(entry.index - 1);
              newEntries := newEntries + [entry];
            }
          case None =>
            newEntries := newEntries + [entry];
        }
      }
      if newEntries != [] {
        log.Append(newEntries);
      } else {
        assert log.Value().entries + [] == log.Value().entries;
      }
    }

    method HandleAppendEntries(req: AppendRequest) returns (resp: AppendResponse)
      requires Durable()
      modifies this, log, readIndexState, membership
      ensures Durable() && (State(), resp) == NodeModel.HandleAppendEntries(old(State()), req)
    {
      if req.term < currentTerm { return AppendResponse(currentTerm, false, 0); }
      if req.term > currentTerm { StepDown(req.term); }
      role := Follower;
      leaderId := Some(req.leaderId);
      if req.prevLogIndex > 0 && !log.Value().MatchTerm(req.prevLogIndex, req.prevLogTerm) {
        return AppendResponse(currentTerm, false, log.Value().LastIndex());
      }
      Merge(req.entries);
      if req.leaderCommit > commitIndex {
        commitIndex := Min(req.leaderCommit, log.Value().LastIndex());
      }
      resp := AppendResponse(currentTerm, true, log.Value().LastIndex());
    }

    method Propose(data: Bytes) returns (r: Result<LogIndex, ProposalError>)
      requires Durable()
      modifies this, log
      ensures Durable() && (State(), r) == NodeModel.Propose(old(State()), data)
    {
      if role != Leader { return Err(NotLeader(leaderId)); }
      if transferState.Some? { return Err(TransferInProgress); }
      var index := log.Value().LastIndex() + 1;
      log.Append([LogEntry(index, currentTerm, data, Normal)]);
      if leaderState.Some? {
        var ls := leaderState.value;
        leaderState := Some(ls.(matchIndex := ls.matchIndex[id := log.Value().LastIndex()]));
      }
      r := Ok(index);
    }

    method CreateAppendRequests() returns (out: seq<(NodeId, AppendRequest)>)
      ensures out == NodeModel.CreateAppendRequests(State())
    {
      out := [];
      if role != Leader || leaderState.None? { return; }
      for i := 0 to |peers|
        invariant out == NodeModel.CreateAppendRequests(State())[..i]
      {
        out := out + [(peers[i], AppendRequestFor(State(), leaderState.value, peers[i]))];
      }
    }

    method HandleAppendResponse(from: NodeId, resp: AppendResponse)
      requires Durable()
      modifies this, readIndexState, membership
      ensures Durable() && State() == NodeModel.HandleAppendResponse(old(State()), from, resp)
    {
      if resp.term > currentTerm {
        StepDown(resp.term);
        return;
      }
      if role != Leader || leaderState.None? { return; }
      leaderState := Some(RecordResponse(leaderState.value, from, resp));
      TryAdvanceCommit();
    }

    /** The scan over the sorted match values. */
    method TryAdvanceCommit()
      modifies this`commitIndex
      ensures State() == NodeModel.TryAdvanceCommit(old(State()))
    {
      if leaderState.None? { return; }
      var ls := leaderState.value;
      var values := DescendingValues(ls.matchIndex);
      for i := 0 to |values|
        invariant State() == old(State())
        invariant forall j :: 0 <= j < i ==> !Committable(State(), ls, values[j])
      {
        var candidate := values[i];
        if candidate <= commitIndex {
          NothingBelow(State(), ls, values, i);
          return;
        }
        if membership.Value().HasQuorum(Voters(ls, candidate)) {
          var entry := log.Value().Get(candidate);
          if entry.Some? && entry.value.term == currentTerm {
            FirstIsGreatest(State(), ls, values, i);
            commitIndex := candidate;
            return;
          }
        }
      }
      assert forall v :: v in CommitCandidates(State(), ls) ==> v in values;
    }

    method TakeCommittedEntries() returns (out: seq<LogEntry>)
      requires Durable()
      modifies this`lastApplied
      ensures Durable() && (State(), out) == NodeModel.TakeCommitted(old(State()))
    {
      out := [];
      ghost var start := lastApplied;
      while lastApplied < commitIndex
        invariant start <= lastApplied && (lastApplied <= commitIndex || lastApplied == start)
        invariant Taken(log.Value(), start, lastApplied, out)
      {
        CollectOneMore(log.Value(), start, lastApplied - start);
        lastApplied := lastApplied + 1;
        match log.Value().Get(lastApplied) {
          case Some(entry) => out := out + [entry];
          case None =>
        }
      }
    }

    // ------------------------------------------------- read index and transfer

    method RequestReadIndex() returns (r: Result<(nat, LogIndex), ProposalError>)
      requires Durable()
      modifies readIndexState
      ensures Durable() && (State(), r) == NodeModel.RequestReadIndex(old(State()))
    {
      if role != Leader { return Err(NotLeader(leaderId)); }
      var readIndex := commitIndex;
      var requestId := readIndexState.Register(readIndex, id, |membership.current|);
      r := Ok((requestId, readIndex));
    }

    method ReadIndexAck(from: NodeId) returns (confirmed: seq<nat>)
      requires Durable()
      modifies readIndexState
      ensures Durable() && State() == NodeModel.ReadIndexAck(old(State()), from)
      ensures forall i :: i in confirmed <==> State().pendingReads.IsConfirmed(i)
    {
      confirmed := readIndexState.RecordAck(from);
    }

    method TakeReadIndex(requestId: nat) returns (r: Option<LogIndex>)
      requires Durable()
      modifies readIndexState
      ensures Durable() && (State(), r) == NodeModel.TakeReadIndex(old(State()), requestId)
    {
      r := readIndexState.Take(requestId);
    }

    method TransferLeadership(target: NodeId) returns (r: Result<(), TransferError>)
      requires Durable()
      modifies this`transferState
      ensures Durable() && (State(), r) == NodeModel.TransferLeadership(old(State()), target)
    {
      if role != Leader { return Err(TransferNotLeader); }
      if target == id { return Err(AlreadyLeader); }
      if transferState.Some? { return Err(AlreadyInProgress); }
      if !membership.Value().IsVoter(target) { return Err(TargetNotInCluster); }
      transferState := Some(Transfer(target, false));
      r := Ok(());
    }

    method CheckTransferProgress() returns (r: Option<NodeId>)
      requires Durable()
      modifies this`transferState
      ensures Durable() && (State(), r) == NodeModel.CheckTransferProgress(old(State()))
    {
      if transferState.None? || transferState.value.timeoutNowSent { return None; }
      var target := transferState.value.target;
      var targetMatch := 0;
      if leaderState.Some? && target in leaderState.value.matchIndex {
        targetMatch := leaderState.value.matchIndex[target];
      }
      if targetMatch >= log.Value().LastIndex() {
        transferState := Some(Transfer(target, true));
        return Some(target);
      }
      r := None;
    }

    method CheckTransferTimeout(expired: bool) returns (aborted: bool)
      requires Durable()
      modifies this`transferState
      ensures Durable() && State() == NodeModel.CheckTransferTimeout(old(State()), expired)
      ensures aborted <==> old(transferState).Some? && transferState.None?
    {
      if transferState.Some? && expired {
        transferState := None;
        return true;
      }
      aborted := false;
    }
  }
}
