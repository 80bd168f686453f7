/** Identifiers, log entries and messages exchanged by Raft nodes. */
module RaftTypes {
  import opened Bytes

  type NodeId = nat
  type Term = nat
  type LogIndex = nat

  datatype EntryType = Normal | ConfigChange | Noop

  datatype LogEntry = LogEntry(index: LogIndex, term: Term, data: Bytes, kind: EntryType)

  datatype VoteRequest = VoteRequest(
    term: Term, candidate: NodeId, lastLogIndex: LogIndex, lastLogTerm: Term, isPreVote: bool)

  datatype VoteResponse = VoteResponse(term: Term, granted: bool)

  datatype AppendRequest = AppendRequest(
    term: Term, leaderId: NodeId, prevLogIndex: LogIndex, prevLogTerm: Term,
    entries: seq<LogEntry>, leaderCommit: LogIndex)

  datatype AppendResponse = AppendResponse(term: Term, success: bool, matchIndex: LogIndex)

  datatype TimeoutNow = TimeoutNow(term: Term, leaderId: NodeId)
}
