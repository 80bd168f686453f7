/**
 The guarantees of the consensus layer over every run: election safety, log matching, leader
 completeness, state machine safety, truthful acknowledgements and linearizable reads.
 */
module ClusterRuns {
  import opened Common
  import opened RaftTypes
  import opened Quorums
  import opened NodeModel
  import opened Replication
  import opened ReplicationSteps
  import opened Clusters
  import opened ClusterSteps
  import opened ClusterLeaderSteps
  import opened ClusterReads

  /** The transfer operations touch nothing but the transfer itself. */
  lemma TransferOnly(s: Node, target: NodeId, expired: bool)
    ensures var s' := TransferLeadership(s, target).0; s' == s.(transfer := s'.transfer)
    ensures var s' := CheckTransferProgress(s).0; s' == s.(transfer := s'.transfer)
    ensures var s' := CheckTransferTimeout(s, expired); s' == s.(transfer := s'.transfer)
  {
  }

  lemma TransferStepOk(c: Cluster, n: NodeId, target: NodeId)
    requires ClusterInv(c) && n in c.nodes
    ensures ClusterInv(Put(c, n, TransferLeadership(c.nodes[n], target).0, c.h))
  {
    TransferOnly(c.nodes[n], target, false);
    SameButTransfer(c, n, TransferLeadership(c.nodes[n], target).0.transfer);
  }

  lemma CheckTransferStepOk(c: Cluster, n: NodeId)
    requires ClusterInv(c) && n in c.nodes
    ensures ClusterInv(Put(c, n, CheckTransferProgress(c.nodes[n]).0, c.h))
  {
    TransferOnly(c.nodes[n], n, false);
    SameButTransfer(c, n, CheckTransferProgress(c.nodes[n]).0.transfer);
  }

  lemma TransferTimeoutStepOk(c: Cluster, n: NodeId, expired: bool)
    requires ClusterInv(c) && n in c.nodes
    ensures ClusterInv(Put(c, n, CheckTransferTimeout(c.nodes[n], expired), c.h))
  {
    TransferOnly(c.nodes[n], n, expired);
    SameButTransfer(c, n, CheckTransferTimeout(c.nodes[n], expired).transfer);
  }

  lemma ElectionStepsKeepInv(c: Cluster, step: Step)
    requires ClusterInv(c) && Enabled(c, step)
    requires step.StartPreVoteStep? || step.StartElectionStep? || step.TimeoutNowStep? || step.VoteRequestStep?
             || step.VoteReplyStep?
    ensures ClusterInv(Next(c, step))
  {
    hide ClusterInv, DoPreVote, DoElection, DoTimeoutNow, DoVoteRequest, DoVoteReply;
    match step {
      case StartPreVoteStep(n) => PreVoteStep(c, n);
      case StartElectionStep(n) => CampaignStep(c, n);
      case TimeoutNowStep(n, msg) => TimeoutNowStepOk(c, n, msg);
      case VoteRequestStep(n, req) => VoteRequestStepOk(c, n, req);
      case VoteReplyStep(r) => VoteReplyStepOk(c, r);
    }
  }

  lemma LogStepsKeepInv(c: Cluster, step: Step)
    requires ClusterInv(c) && Enabled(c, step)
    requires step.AppendRequestStep? || step.AppendReplyStep? || step.ProposeStep? || step.SendAppendsStep?
             || step.TakeCommittedStep?
    ensures ClusterInv(Next(c, step))
  {
    hide ClusterInv, DoAppendRequest, DoAppendReply, DoPropose, DoSendAppends, DoTakeCommitted;
    match step {
      case AppendRequestStep(n, req) => AppendRequestStepOk(c, n, req);
      case AppendReplyStep(r) => AppendReplyStepOk(c, r);
      case ProposeStep(n, data) => ProposeStepOk(c, n, data);
      case SendAppendsStep(n) => SendStepOk(c, n);
      case TakeCommittedStep(n) => TakeStepOk(c, n);
    }
  }

  lemma ReadStepsKeepInv(c: Cluster, step: Step)
    requires ClusterInv(c) && Enabled(c, step)
    requires step.RequestReadStep? || step.ReadAckStep? || step.TakeReadStep?
    ensures ClusterInv(Next(c, step))
  {
    hide ClusterInv, DoRequestRead, DoReadAck, TakeReadIndex;
    match step {
      case RequestReadStep(n) => RequestReadStepOk(c, n);
      case ReadAckStep(r) => ReadAckStepOk(c, r);
      case TakeReadStep(n, id) => TakeReadStepOk(c, n, id);
    }
  }

  lemma TransferStepsKeepInv(c: Cluster, step: Step)
    requires ClusterInv(c) && Enabled(c, step)
    requires step.TransferStep? || step.CheckTransferStep? || step.TransferTimeoutStep?
    ensures ClusterInv(Next(c, step))
  {
    hide ClusterInv, TransferLeadership, CheckTransferProgress, CheckTransferTimeout;
    match step {
      case TransferStep(n, target) => TransferStepOk(c, n, target);
      case CheckTransferStep(n) => CheckTransferStepOk(c, n);
      case TransferTimeoutStep(n, expired) => TransferTimeoutStepOk(c, n, expired);
    }
  }

  /** No step of any node, and no delivery of any message, breaks the invariant. */
  lemma StepKeepsInv(c: Cluster, step: Step)
    requires ClusterInv(c) && Enabled(c, step)
    ensures ClusterInv(Next(c, step))
  {
    hide ClusterInv, Next;
    match step {
      case StartPreVoteStep(_) => ElectionStepsKeepInv(c, step);
      case StartElectionStep(_) => ElectionStepsKeepInv(c, step);
      case TimeoutNowStep(_, _) => ElectionStepsKeepInv(c, step);
      case VoteRequestStep(_, _) => ElectionStepsKeepInv(c, step);
      case VoteReplyStep(_) => ElectionStepsKeepInv(c, step);
      case RequestReadStep(_) => ReadStepsKeepInv(c, step);
      case ReadAckStep(_) => ReadStepsKeepInv(c, step);
      case TakeReadStep(_, _) => ReadStepsKeepInv(c, step);
      case TransferStep(_, _) => TransferStepsKeepInv(c, step);
      case CheckTransferStep(_) => TransferStepsKeepInv(c, step);
      case TransferTimeoutStep(_, _) => TransferStepsKeepInv(c, step);
      case _ => LogStepsKeepInv(c, step);
    }
  }

  lemma InitAbs(c: Cluster)
    requires Init(c)
    ensures Replication.Inv(Abs(c))
  {
    var a := Abs(c);
    assert InvViews(a) by {
      forall v | v in a.views ensures ViewOk(a, v) {
        assert c.nodes[v] == NewNode(v, c.nodes[v].peers);
      }
    }
  }

  lemma InitKeepsInv(c: Cluster)
    requires Init(c)
    ensures ClusterInv(c)
  {
    InitAbs(c);
    forall n | n in c.nodes
      ensures NodeOk(c, n)
    {
      assert c.nodes[n] == NewNode(n, c.nodes[n].peers);
    }
  }

  /** Every state of every run satisfies the invariant. */
  lemma {:induction false} RunInv(run: seq<Cluster>, steps: seq<Step>, i: nat)
    requires IsRun(run, steps) && i < |run|
    ensures ClusterInv(run[i])
    decreases i
  {
    hide ClusterInv, Next, Init;
    if i == 0 {
      InitKeepsInv(run[0]);
    } else {
      RunInv(run, steps, i - 1);
      StepKeepsInv(run[i - 1], steps[i - 1]);
    }
  }

  // ------------------------------------------------------- history over a whole run

  /** What later states of a run remember of earlier ones. */
  ghost predicate Remembers(h: History, h': History)
  {
    && h.termLog.Keys <= h'.termLog.Keys
    && (forall t :: t in h.termLog ==> h.termLog[t] <= h'.termLog[t])
    && (forall t :: t in h.leader ==> t in h'.leader && h'.leader[t] == h.leader[t])
    && h.leaderCommit.Keys <= h'.leaderCommit.Keys
    && (forall t :: t in h.leaderCommit ==> h.leaderCommit[t] <= h'.leaderCommit[t])
  }

  lemma WinHistoryRemembered(s: State, n: NodeId, q: set<NodeId>, noop: LogEntry)
    requires n in s.views && s.views[n].term !in s.h.leader
             && s.h.leader.Keys == s.h.leaderCommit.Keys == s.h.termLog.Keys
    ensures Remembers(s.h, Win(s, n, q, noop).h)
  {
  }

  lemma WinningRemembered(c: Cluster, r: VoteReply)
    requires ClusterInv(c) && r.to in c.nodes && VoteReplyOk(c, r) && NodeOk(c, r.to)
    requires Wins(c.nodes[r.to], r) && c.rounds[r.to] == r.round
    ensures Remembers(c.h, Abs(DoVoteReply(c, r)).h)
  {
    var q, noop := Ballots(c.nodes[r.to], r), FirstEntry(c.nodes[r.to]);
    NodeLog(c, r.to);
    WinAllowed(c, r);
    WinAbs(c, r);
    TermHasNoOtherLeader(Abs(c), r.to, q, noop);
    WinHistoryRemembered(Abs(c), r.to, q, noop);
  }

  lemma WinRemembered(c: Cluster, r: VoteReply)
    requires ClusterInv(c) && r in c.voteReplies && r.to in c.nodes && r.to in c.rounds
    requires Recorded(c.nodes[r.to], r.resp) ==> c.rounds[r.to] == r.round
    ensures Remembers(c.h, DoVoteReply(c, r).h)
  {
    if Wins(c.nodes[r.to], r) {
      assert VoteReplyOk(c, r);
      assert NodeOk(c, r.to);
      WinningRemembered(c, r);
    }
  }

  lemma ProposeRemembered(c: Cluster, n: NodeId, data: Bytes.Bytes)
    requires ClusterInv(c) && n in c.nodes
    ensures Remembers(c.h, DoPropose(c, n, data).h)
  {
    hide MessagesOk, ReadsOk, InvKept, InvComplete, InvGranted, InvCommit, InvAccepted, LogOk;
    assert NodeOk(c, n);
    if Propose(c.nodes[n], data).1.Ok? {
      NodeLog(c, n);
      ProposeAbs(c, n, data);
      ExtendGrows(Abs(c), n, Proposed(c.nodes[n], data));
      assert Abs(DoPropose(c, n, data)).h == DoPropose(c, n, data).h;
    }
  }

  lemma CommitRemembered(c: Cluster, r: AppendReply)
    requires ClusterInv(c) && Enabled(c, AppendReplyStep(r))
    ensures Remembers(c.h, DoAppendReply(c, r).h)
  {
    assert NodeOk(c, r.to);
    if Processed(c.nodes[r.to], r) && Advances(c.nodes[r.to], r) {
      assert AppendReplyOk(c, r);
      RecordedMatchOk(c, r.to, r);
      AdvanceAllowed(c, r);
      CommitHistory(Abs(c), r.to, HandleAppendResponse(c.nodes[r.to], r.from, r.resp).commitIndex);
      AdvanceAbs(c, r);
    } else if !Processed(c.nodes[r.to], r) {
      UnprocessedReply(c, r);
    }
  }

  lemma VoteRequestRemembers(c: Cluster, n: NodeId, req: VoteRequest)
    requires n in c.nodes
    ensures var h' := DoVoteRequest(c, n, req).h;
            h'.termLog == c.h.termLog && h'.leader == c.h.leader && h'.leaderCommit == c.h.leaderCommit
  {
    hide HandleVoteRequest;
  }

  lemma ElectionStepsRemember(c: Cluster, step: Step)
    requires Enabled(c, step)
    requires step.StartPreVoteStep? || step.StartElectionStep? || step.TimeoutNowStep? || step.VoteRequestStep?
    ensures var h' := Next(c, step).h;
            h'.termLog == c.h.termLog && h'.leader == c.h.leader && h'.leaderCommit == c.h.leaderCommit
  {
    if step.VoteRequestStep? { VoteRequestRemembers(c, step.n, step.vreq); }
  }

  lemma QuietStepsRemember(c: Cluster, step: Step)
    requires Enabled(c, step) && !step.VoteReplyStep? && !step.AppendReplyStep? && !step.ProposeStep?
    requires !step.StartPreVoteStep? && !step.StartElectionStep? && !step.TimeoutNowStep? && !step.VoteRequestStep?
    ensures var h' := Next(c, step).h;
            h'.termLog == c.h.termLog && h'.leader == c.h.leader && h'.leaderCommit == c.h.leaderCommit
  {
    hide HandleAppendEntries, TakeCommitted, CreateAppendRequests, RequestReadIndex, ReadIndexAck;
  }

  lemma SameRemembers(h: History, h': History)
    requires h'.termLog == h.termLog && h'.leader == h.leader && h'.leaderCommit == h.leaderCommit
    ensures Remembers(h, h')
  {
  }

  lemma StepRemembers(c: Cluster, step: Step)
    requires ClusterInv(c) && Enabled(c, step)
    ensures Remembers(c.h, Next(c, step).h)
  {
    hide ClusterInv, Remembers, DoVoteReply, DoAppendReply, DoPropose;
    if step.VoteReplyStep? {
      WinRemembered(c, step.vrep);
    } else if step.AppendReplyStep? {
      CommitRemembered(c, step.arep);
    } else if step.ProposeStep? {
      ProposeRemembered(c, step.n, step.data);
    } else {
      OtherStepsRemember(c, step);
    }
  }

  lemma OtherStepsRemember(c: Cluster, step: Step)
    requires Enabled(c, step) && !step.VoteReplyStep? && !step.AppendReplyStep? && !step.ProposeStep?
    ensures Remembers(c.h, Next(c, step).h)
  {
    hide Next, Remembers;
    if step.StartPreVoteStep? || step.StartElectionStep? || step.TimeoutNowStep? || step.VoteRequestStep? {
      ElectionStepsRemember(c, step);
    } else {
      QuietStepsRemember(c, step);
    }
    SameRemembers(c.h, Next(c, step).h);
  }

  lemma RemembersTransitive(h: History, h1: History, h2: History)
    requires Remembers(h, h1) && Remembers(h1, h2)
    ensures Remembers(h, h2)
  {
    forall t | t in h.termLog
      ensures h.termLog[t] <= h2.termLog[t]
    {
      assert h.termLog[t] <= h1.termLog[t] && h1.termLog[t] <= h2.termLog[t];
    }
  }

  lemma RunStepRemembers(run: seq<Cluster>, steps: seq<Step>, i: nat)
    requires IsRun(run, steps) && i < |steps|
    ensures Remembers(run[i].h, run[i + 1].h)
  {
    hide ClusterInv, Next, Remembers;
    RunInv(run, steps, i);
    StepRemembers(run[i], steps[i]);
  }

  lemma RemembersSelf(h: History)
    ensures Remembers(h, h)
  {
  }

  lemma RunRemembersStep(run: seq<Cluster>, steps: seq<Step>, h: History, j: nat)
    requires IsRun(run, steps) && j < |steps| && Remembers(h, run[j].h)
    ensures Remembers(h, run[j + 1].h)
  {
    hide Next, Init, Remembers;
    RunStepRemembers(run, steps, j);
    RemembersTransitive(h, run[j].h, run[j + 1].h);
  }

  lemma {:induction false} RunRemembers(run: seq<Cluster>, steps: seq<Step>, i: nat, j: nat)
    requires IsRun(run, steps) && i <= j < |run|
    ensures Remembers(run[i].h, run[j].h)
    decreases j
  {
    hide Next, Init, Remembers;
    if i == j {
      RemembersSelf(run[i].h);
    } else {
      RunRemembers(run, steps, i, j - 1);
      RunRemembersStep(run, steps, run[i].h, j - 1);
    }
  }

  lemma RememberedCommit(h: History, h': History, t: Term, prefix: seq<LogEntry>, s': State)
    requires Remembers(h, h') && CommittedBy(h, t, prefix) && s'.h == h' && InvCommit(s')
    ensures CommittedBy(h', t, prefix)
  {
    LeaderCommitBound(s');
    CommittedByStable(h, h', t, t, prefix);
  }

  lemma RememberedLog(h: History, h': History, log: seq<LogEntry>)
    requires Remembers(h, h') && LogOk(h, log)
    ensures LogOk(h', log)
  {
    forall i | 0 <= i < |log|
      ensures EntryOk(h', log, i)
    {
      assert EntryOk(h, log, i);
      var t := log[i].term;
      assert h.termLog[t] <= h'.termLog[t];
      assert h'.termLog[t][..i + 1] == h.termLog[t][..i + 1];
    }
  }

  /** The history of the later of two states of a run. */
  ghost function LaterHistory(run: seq<Cluster>, i: nat, j: nat): History
    requires i < |run| && j < |run|
  {
    if i <= j then run[j].h else run[i].h
  }

  lemma BothRemembered(run: seq<Cluster>, steps: seq<Step>, i: nat, j: nat)
    requires IsRun(run, steps) && i < |run| && j < |run|
    ensures Remembers(run[i].h, LaterHistory(run, i, j)) && Remembers(run[j].h, LaterHistory(run, i, j))
  {
    hide Next, Init, Remembers;
    RunRemembers(run, steps, if i <= j then i else j, if i <= j then j else i);
    RunRemembers(run, steps, j, j);
    RunRemembers(run, steps, i, i);
  }

  // ------------------------------------------------------------------ election safety

  /** Section 5.2: over a whole run, at most one node ever leads a given term. */
  lemma ElectionSafety(run: seq<Cluster>, steps: seq<Step>, i: nat, j: nat, a: NodeId, b: NodeId)
    requires IsRun(run, steps) && i < |run| && j < |run|
    requires a in run[i].nodes && run[i].nodes[a].role == Leader
    requires b in run[j].nodes && run[j].nodes[b].role == Leader
    requires run[i].nodes[a].term == run[j].nodes[b].term
    ensures a == b
  {
    RunInv(run, steps, i);
    RunInv(run, steps, j);
    BothRemembered(run, steps, i, j);
    assert NodeOk(run[i], a) && NodeOk(run[j], b);
  }

  // --------------------------------------------------------------------- log matching

  lemma RunLogOk(run: seq<Cluster>, steps: seq<Step>, i: nat, a: NodeId, h: History)
    requires IsRun(run, steps) && i < |run| && a in run[i].nodes && Remembers(run[i].h, h)
    ensures LogOk(h, run[i].nodes[a].log.entries)
  {
    RunInv(run, steps, i);
    assert ViewOk(Abs(run[i]), a);
    RememberedLog(run[i].h, h, run[i].nodes[a].log.entries);
  }

  /** Section 5.3: equal terms at an index mean equal logs up to that index, across nodes and across time. */
  lemma LogMatching(run: seq<Cluster>, steps: seq<Step>, i: nat, j: nat, a: NodeId, b: NodeId, k: LogIndex)
    requires IsRun(run, steps) && i < |run| && j < |run| && a in run[i].nodes && b in run[j].nodes
    requires var x, y := run[i].nodes[a].log.entries, run[j].nodes[b].log.entries;
             1 <= k <= |x| && k <= |y| && x[k - 1].term == y[k - 1].term
    ensures run[i].nodes[a].log.entries[..k] == run[j].nodes[b].log.entries[..k]
  {
    hide Next, Init, Remembers;
    var h := LaterHistory(run, i, j);
    BothRemembered(run, steps, i, j);
    RunLogOk(run, steps, i, a, h);
    RunLogOk(run, steps, j, b, h);
    SameTermSamePrefix(h, run[i].nodes[a].log.entries, run[j].nodes[b].log.entries, k - 1);
  }

  // ---------------------------------------------------- committed entries are for ever

  /** What a node has committed, at the moment it has committed it. */
  ghost function CommittedPrefix(c: Cluster, a: NodeId): seq<LogEntry>
    requires a in c.nodes
  {
    var s := c.nodes[a];
    if s.commitIndex <= |s.log.entries| then s.log.entries[..s.commitIndex] else s.log.entries
  }

  /** The later of two states of a run. */
  ghost function Later(i: nat, j: nat): nat
  {
    if i <= j then j else i
  }

  lemma RunCommitted(run: seq<Cluster>, steps: seq<Step>, i: nat, a: NodeId, m: nat)
    requires IsRun(run, steps) && i <= m < |run| && a in run[i].nodes
    ensures CommittedBy(run[m].h, run[i].nodes[a].term, CommittedPrefix(run[i], a))
    ensures |CommittedPrefix(run[i], a)| == run[i].nodes[a].commitIndex
  {
    RunInv(run, steps, i);
    RunInv(run, steps, m);
    RunRemembers(run, steps, i, m);
    assert Abs(run[i]).views[a].commit <= |Abs(run[i]).views[a].log|;
    RememberedCommit(run[i].h, run[m].h, run[i].nodes[a].term, CommittedPrefix(run[i], a), Abs(run[m]));
  }

  /** Whatever two nodes have committed, at whatever two moments of a run, one is a prefix of the other. */
  lemma CommittedPrefixesAgree(run: seq<Cluster>, steps: seq<Step>, i: nat, j: nat, a: NodeId, b: NodeId)
    requires IsRun(run, steps) && i < |run| && j < |run| && a in run[i].nodes && b in run[j].nodes
    ensures CommittedPrefix(run[i], a) <= CommittedPrefix(run[j], b)
            || CommittedPrefix(run[j], b) <= CommittedPrefix(run[i], a)
  {
    var m := Later(i, j);
    RunCommitted(run, steps, i, a, m);
    RunCommitted(run, steps, j, b, m);
    RunInv(run, steps, m);
    CommittedComparable(Abs(run[m]), run[i].nodes[a].term, CommittedPrefix(run[i], a), run[j].nodes[b].term,
        CommittedPrefix(run[j], b));
  }

  lemma DeliveredIsApplied(c: Cluster, a: NodeId)
    requires ClusterInv(c) && a in c.nodes
    ensures a in c.delivered && c.delivered[a] <= CommittedPrefix(c, a) && |c.delivered[a]| == c.nodes[a].lastApplied
    ensures forall p :: 0 <= p < |c.delivered[a]| ==> c.delivered[a][p].index == p + 1
  {
    hide Replication.Inv, MessagesOk, ReadsOk;
    assert NodeOk(c, a);
    NodeLog(c, a);
  }

  /**
   State machine safety, end to end (section 5.4.3): the outputs that any two nodes have delivered,
   at any two moments, are prefix-comparable, and each node delivers index 1, 2, 3, ... once each, in order.
   */
  lemma StateMachineSafety(run: seq<Cluster>, steps: seq<Step>, i: nat, j: nat, a: NodeId, b: NodeId)
    requires IsRun(run, steps) && i < |run| && j < |run| && a in run[i].nodes && b in run[j].nodes
    ensures a in run[i].delivered && b in run[j].delivered
    ensures run[i].delivered[a] <= run[j].delivered[b] || run[j].delivered[b] <= run[i].delivered[a]
    ensures forall p :: 0 <= p < |run[i].delivered[a]| ==> run[i].delivered[a][p].index == p + 1
  {
    RunInv(run, steps, i);
    RunInv(run, steps, j);
    DeliveredIsApplied(run[i], a);
    DeliveredIsApplied(run[j], b);
    CommittedPrefixesAgree(run, steps, i, j, a, b);
    PrefixesOfComparable(run[i].delivered[a], CommittedPrefix(run[i], a), run[j].delivered[b],
        CommittedPrefix(run[j], b));
  }

  lemma PrefixesOfComparable(x: seq<LogEntry>, p: seq<LogEntry>, y: seq<LogEntry>, q: seq<LogEntry>)
    requires x <= p && y <= q && (p <= q || q <= p)
    ensures x <= y || y <= x
  {
  }

  // --------------------------------------------------------------- leader completeness

  lemma LeaderLogAt(c: Cluster, b: NodeId)
    requires ClusterInv(c) && b in c.nodes && c.nodes[b].role == Leader
    ensures var t := c.nodes[b].term;
            t in c.h.termLog && c.h.termLog[t] == c.nodes[b].log.entries
            && c.nodes[b].log.entries != [] && LastTermOf(c.nodes[b].log.entries) == t
  {
    assert NodeOk(c, b);
    LeaderLogEndsInOwnTerm(Abs(c), b);
  }

  /** A committed prefix lies inside any log that ends in a later term, however short that log still is. */
  lemma CommittedInsideLaterLog(s: State, t: Term, prefix: seq<LogEntry>, log: seq<LogEntry>)
    requires InvLeaders(s) && InvComplete(s) && InvCommit(s) && CommittedBy(s.h, t, prefix)
    requires LogOk(s.h, log) && log != [] && t < LastTermOf(log)
    ensures prefix <= log
  {
    if prefix != [] {
      var w: Term :| CommittedIn(s.h, w, prefix) && w <= t;
      var n, t2 := s.h.leaderCommit[w], LastTermOf(log);
      assert CommitOk(s, w);
      IsPrefixOfLastTerm(s.h, log);
      LeaderCompleteness(s, w, n, t2);
      assert LeaderOk(s, t2);
      ReachesPast(s.h, log, w, n);
      assert prefix == log[..n][..|prefix|];
    }
  }

  /**
   Leader completeness (sections 5.4.1 to 5.4.3): what any node committed while in term T is in the
   log of every leader of every later term, whether that leader was seen before or after.
   */
  lemma EveryLaterLeaderHasIt(run: seq<Cluster>, steps: seq<Step>, i: nat, j: nat, a: NodeId, b: NodeId)
    requires IsRun(run, steps) && i < |run| && j < |run| && a in run[i].nodes && b in run[j].nodes
    requires run[j].nodes[b].role == Leader && run[j].nodes[b].term > run[i].nodes[a].term
    ensures CommittedPrefix(run[i], a) <= run[j].nodes[b].log.entries
  {
    var m := Later(i, j);
    RunInv(run, steps, j);
    LeaderLogAt(run[j], b);
    RunRemembers(run, steps, j, m);
    RunLogOk(run, steps, j, b, run[m].h);
    RunCommitted(run, steps, i, a, m);
    RunInv(run, steps, m);
    CommittedInsideLaterLog(Abs(run[m]), run[i].nodes[a].term, CommittedPrefix(run[i], a), run[j].nodes[b].log.entries);
  }

  // ------------------------------------------------------------ truthful acknowledgements

  lemma AcceptedHere(c: Cluster, n: NodeId, t: Term)
    requires ClusterInv(c) && n in c.nodes && (t, n) in c.h.accepted && c.nodes[n].term == t
    ensures t in c.h.termLog && c.h.accepted[(t, n)] <= |c.h.termLog[t]|
    ensures c.nodes[n].log.entries == c.h.termLog[t][..c.h.accepted[(t, n)]]
  {
    hide MessagesOk, ReadsOk, NodeOk;
    assert AcceptedOk(Abs(c), t, n);
  }

  /** A successful reply means the node is in the term of the request, and reports its own last index. */
  lemma AcceptingTerm(s: Node, req: AppendRequest)
    requires HandleAppendEntries(s, req).1.success
    ensures var (s', resp) := HandleAppendEntries(s, req); s'.term == req.term && resp.matchIndex == s'.log.LastIndex()
  {
    hide MergeEntries;
  }

  /**
   After any successful append in term T the follower's whole log is a prefix of the leader's log,
   so the reported match index never exceeds what the leader has and the follower holds.
   */
  lemma AcknowledgementsAreTruthful(c: Cluster, n: NodeId, req: AppendRequest, l: NodeId)
    requires ClusterInv(c) && Enabled(c, AppendRequestStep(n, req)) && HandleAppendEntries(c.nodes[n], req).1.success
    requires var c' := Next(c, AppendRequestStep(n, req));
             l in c'.nodes && c'.nodes[l].role == Leader && c'.nodes[l].term == req.term
    ensures var c' := Next(c, AppendRequestStep(n, req));
            && c'.nodes[n].term == req.term
            && c'.nodes[n].log.entries <= c'.nodes[l].log.entries
            && HandleAppendEntries(c.nodes[n], req).1.matchIndex == |c'.nodes[n].log.entries|
  {
    hide ClusterInv, HandleAppendEntries;
    var c' := DoAppendRequest(c, n, req);
    StepKeepsInv(c, AppendRequestStep(n, req));
    AcceptingTerm(c.nodes[n], req);
    LeaderLogAt(c', l);
    AcceptedHere(c', n, req.term);
    NodeLog(c', n);
  }

  /** A leader never sends past its own end: match and next indices stay within its log. */
  lemma NextIndexStaysInLog(c: Cluster, n: NodeId, p: NodeId)
    requires ClusterInv(c) && n in c.nodes && c.nodes[n].role == Leader && c.nodes[n].leader.Some?
    ensures var ls := c.nodes[n].leader.value;
            && (p in ls.nextIndex ==> 1 <= ls.nextIndex[p] <= |c.nodes[n].log.entries| + 1)
            && (p in ls.matchIndex ==> ls.matchIndex[p] <= |c.nodes[n].log.entries|)
  {
    assert NodeOk(c, n);
    LeaderLogAt(c, n);
    if p in c.nodes[n].leader.value.matchIndex && (c.nodes[n].term, p) in c.h.accepted {
      assert AcceptedOk(Abs(c), c.nodes[n].term, p);
    }
  }

  /**
   A transfer target picked by a leader had acknowledged the leader's full log in that term; as long
   as the target stays in the term, the two logs are equal.
   */
  lemma TransferTargetIsCaughtUp(c: Cluster, n: NodeId, target: NodeId)
    requires ClusterInv(c) && n in c.nodes && c.nodes[n].role == Leader && target in c.nodes
    requires CheckTransferProgress(c.nodes[n]).1 == Some(target)
    ensures Accepted(c.h, c.nodes[n].term, target) == |c.nodes[n].log.entries|
    ensures c.nodes[target].term == c.nodes[n].term ==> c.nodes[target].log.entries == c.nodes[n].log.entries
    ensures c.nodes[target].term >= c.nodes[n].term
  {
    hide MessagesOk, ReadsOk;
    assert NodeOk(c, n);
    NodeLog(c, n);
    LeaderLogAt(c, n);
    var t := c.nodes[n].term;
    assert (t, target) in c.h.accepted;
    assert AcceptedOk(Abs(c), t, target);
  }

  // ----------------------------------------------------------------- linearizable reads

  /**
   Read index: when a majority has acknowledged, after registration and in the reader's term, then
   the read index was at least every index committed anywhere in the cluster when the read arrived,
   provided the leader had then committed all that earlier terms left in its log.
   */
  lemma ReadIndexIsLinearizable(c: Cluster, n: NodeId, id: nat, m: NodeId)
    requires ClusterInv(c) && (n, id) in c.readLog && m in c.members
    requires var info := c.readLog[(n, id)]; info.oldCommitted && IsMajority(info.confirmedBy, c.members)
    ensures var info := c.readLog[(n, id)]; m in info.commits && info.commits[m] <= info.readIndex
  {
    hide Replication.Inv, NodesOk, MessagesOk;
    var info := c.readLog[(n, id)];
    assert ReadOk(c, (n, id));
    assert Unmoved(c.members, info, info.confirmedBy);
  }

  lemma ConfirmedMajority(c: Cluster, n: NodeId, id: nat)
    requires n in c.nodes && (n, id) in c.readLog && ReadOk(c, (n, id)) && c.nodes[n].pendingReads.IsConfirmed(id)
    requires c.nodes[n].pendingReads.pending[id].acks <= c.readLog[(n, id)].confirmedBy
    ensures IsMajority(c.readLog[(n, id)].confirmedBy, c.members)
  {
    var acks, confirmed := c.nodes[n].pendingReads.pending[id].acks, c.readLog[(n, id)].confirmedBy;
    SubsetSize(acks, confirmed);
    assert confirmed * c.members == confirmed;
  }

  /** The node's own test: a confirmed request whose acknowledgements were all fresh is linearizable. */
  lemma ConfirmedReadIsLinearizable(c: Cluster, n: NodeId, id: nat, m: NodeId)
    requires ClusterInv(c) && n in c.nodes && (n, id) in c.readLog && m in c.members
    requires c.nodes[n].pendingReads.IsConfirmed(id) && c.readLog[(n, id)].oldCommitted
    requires c.nodes[n].pendingReads.pending[id].acks <= c.readLog[(n, id)].confirmedBy
    ensures m in c.readLog[(n, id)].commits
    ensures c.readLog[(n, id)].commits[m] <= c.nodes[n].pendingReads.pending[id].readIndex
  {
    assert ReadOk(c, (n, id));
    ConfirmedMajority(c, n, id);
    ReadIndexIsLinearizable(c, n, id, m);
  }

  // ----------------------------------------------------- the same, in every reachable state

  /** In every run: after a successful append the follower's whole log is a prefix of the log of that term's leader. */
  lemma RunAcknowledgementsAreTruthful(run: seq<Cluster>, steps: seq<Step>, i: nat, n: NodeId, req: AppendRequest,
                                       l: NodeId)
    requires IsRun(run, steps) && i < |steps| && steps[i] == AppendRequestStep(n, req)
    requires HandleAppendEntries(run[i].nodes[n], req).1.success
    requires l in run[i + 1].nodes && run[i + 1].nodes[l].role == Leader && run[i + 1].nodes[l].term == req.term
    ensures n in run[i + 1].nodes && run[i + 1].nodes[n].term == req.term
    ensures run[i + 1].nodes[n].log.entries <= run[i + 1].nodes[l].log.entries
    ensures HandleAppendEntries(run[i].nodes[n], req).1.matchIndex == |run[i + 1].nodes[n].log.entries|
  {
    hide ClusterInv, Init, HandleAppendEntries;
    RunInv(run, steps, i);
    AcknowledgementsAreTruthful(run[i], n, req, l);
  }

  /** In every run: the target of a TimeoutNow had acknowledged the leader's full log in the leader's term. */
  lemma RunTransferTargetIsCaughtUp(run: seq<Cluster>, steps: seq<Step>, i: nat, n: NodeId, target: NodeId)
    requires IsRun(run, steps) && i < |run| && n in run[i].nodes && run[i].nodes[n].role == Leader
             && target in run[i].nodes
    requires CheckTransferProgress(run[i].nodes[n]).1 == Some(target)
    ensures Accepted(run[i].h, run[i].nodes[n].term, target) == |run[i].nodes[n].log.entries|
    ensures run[i].nodes[target].term == run[i].nodes[n].term ==>
            run[i].nodes[target].log.entries == run[i].nodes[n].log.entries
  {
    hide ClusterInv, Init, Next;
    RunInv(run, steps, i);
    TransferTargetIsCaughtUp(run[i], n, target);
  }

  /** In every run: a confirmed read with fresh acknowledgements saw everything committed when it was registered. */
  lemma RunReadsAreLinearizable(run: seq<Cluster>, steps: seq<Step>, i: nat, n: NodeId, id: nat, m: NodeId)
    requires IsRun(run, steps) && i < |run| && n in run[i].nodes && (n, id) in run[i].readLog && m in run[i].members
    requires run[i].nodes[n].pendingReads.IsConfirmed(id) && run[i].readLog[(n, id)].oldCommitted
    requires run[i].nodes[n].pendingReads.pending[id].acks <= run[i].readLog[(n, id)].confirmedBy
    ensures m in run[i].readLog[(n, id)].commits
    ensures run[i].readLog[(n, id)].commits[m] <= run[i].nodes[n].pendingReads.pending[id].readIndex
  {
    hide ClusterInv, Init, Next;
    RunInv(run, steps, i);
    ConfirmedReadIsLinearizable(run[i], n, id, m);
  }
}
