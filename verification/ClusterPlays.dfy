/**
 Continuations of runs, and what a leader keeps about itself and its followers in every reachable
 state.
 */
module ClusterPlays {
  import opened Common
  import opened RaftTypes
  import opened NodeModel
  import opened ReplicationSteps
  import opened Clusters
  import opened ClusterSteps
  import opened ClusterRuns

  // -------------------------------------------------------------- leaders know themselves

  /** A leader has its maps, knows its own end, and has a next index for every peer. */
  ghost predicate LeaderKnows(s: Node)
  {
    s.role == Leader ==>
      && s.leader.Some?
      && s.id in s.leader.value.matchIndex && s.leader.value.matchIndex[s.id] == |s.log.entries|
      && forall p :: p in s.peers ==> p in s.leader.value.nextIndex
  }

  ghost predicate NoneToSelf(c: Cluster)
  {
    && (forall p :: p in c.appendRequests ==> p.0 != p.1.leaderId)
    && (forall r :: r in c.appendReplies ==> r.from != r.to)
  }

  ghost predicate Steady(c: Cluster)
  {
    && (forall n {:trigger LeaderKnows(c.nodes[n])} :: n in c.nodes ==> LeaderKnows(c.nodes[n]))
    && NoneToSelf(c)
  }

  /** The handler left the leadership alone or gave it up. */
  ghost predicate NoNewLeader(s: Node, s': Node)
  {
    s'.role == Leader ==>
      s.role == Leader && s'.id == s.id && s'.peers == s.peers && s'.leader == s.leader && s'.log == s.log
  }

  lemma NoNewLeaderKnows(s: Node, s': Node)
    requires LeaderKnows(s) && NoNewLeader(s, s')
    ensures LeaderKnows(s')
  {
  }

  lemma OneNodeSteady(c: Cluster, c': Cluster, n: NodeId)
    requires Steady(c) && n in c.nodes && n in c'.nodes && c'.nodes == c.nodes[n := c'.nodes[n]]
    requires LeaderKnows(c'.nodes[n]) && NoneToSelf(c')
    ensures Steady(c')
  {
    hide LeaderKnows, NoneToSelf;
  }

  lemma BallotsKnow(s: Node, msg: TimeoutNow, req: VoteRequest)
    ensures NoNewLeader(s, StartPreVote(s).0) && NoNewLeader(s, StartElection(s).0)
    ensures NoNewLeader(s, HandleTimeoutNow(s, msg).0) && NoNewLeader(s, HandleVoteRequest(s, req).0)
  {
  }

  lemma AppendsKnow(s: Node, req: AppendRequest)
    ensures NoNewLeader(s, HandleAppendEntries(s, req).0)
  {
    hide MergeEntries;
  }

  /** Winning sets up the maps, with the leader's own end after its first entry. */
  lemma WinnerKnows(s: Node)
    requires s.log.LastIndex() == |s.log.entries|
    ensures LeaderKnows(BecomeLeader(s))
    ensures BecomeLeader(s).log.entries == s.log.entries + [LogEntry(|s.log.entries| + 1, s.term, [], Noop)]
  {
  }

  lemma VoteReplyKnows(s: Node, from: NodeId, resp: VoteResponse, pre: bool)
    requires LeaderKnows(s) && s.log.LastIndex() == |s.log.entries|
    ensures LeaderKnows(HandleVoteResponse(s, from, resp, pre).0)
  {
    hide BecomeLeader;
    if resp.term <= s.term && resp.granted && s.election.Some? {
      WinnerKnows(s.(election := Some(s.election.value.RecordVote(from))));
    }
  }

  lemma ReplyKnows(s: Node, from: NodeId, resp: AppendResponse)
    requires LeaderKnows(s) && from != s.id
    ensures LeaderKnows(HandleAppendResponse(s, from, resp))
  {
  }

  lemma ProposerKnows(s: Node, data: Bytes.Bytes)
    requires LeaderKnows(s) && s.log.LastIndex() == |s.log.entries|
    ensures LeaderKnows(Propose(s, data).0)
  {
  }

  lemma QuietKnow(s: Node, id: nat, target: NodeId, expired: bool, from: NodeId)
    ensures NoNewLeader(s, TakeCommitted(s).0) && NoNewLeader(s, RequestReadIndex(s).0)
    ensures NoNewLeader(s, ReadIndexAck(s, from)) && NoNewLeader(s, TakeReadIndex(s, id).0)
    ensures NoNewLeader(s, TransferLeadership(s, target).0) && NoNewLeader(s, CheckTransferProgress(s).0)
    ensures NoNewLeader(s, CheckTransferTimeout(s, expired)) && NoNewLeader(s, s)
  {
  }

  lemma ElectionStepsSteady(c: Cluster, step: Step)
    requires ClusterInv(c) && Steady(c) && Enabled(c, step)
    requires step.StartPreVoteStep? || step.StartElectionStep? || step.TimeoutNowStep? || step.VoteRequestStep?
             || step.VoteReplyStep?
    ensures Steady(Next(c, step))
  {
    hide ClusterInv, LeaderKnows, StartPreVote, StartElection, HandleTimeoutNow, HandleVoteRequest, HandleVoteResponse,
         NoNewLeader, Win, Grant, Campaign, RaiseTerm;
    var n := if step.VoteReplyStep? then step.vrep.to else step.n;
    var s, s' := c.nodes[n], Next(c, step).nodes[n];
    match step {
      case StartPreVoteStep(_) => BallotsKnow(s, TimeoutNow(0, 0), VoteRequest(0, 0, 0, 0, false));
      case StartElectionStep(_) => BallotsKnow(s, TimeoutNow(0, 0), VoteRequest(0, 0, 0, 0, false));
      case TimeoutNowStep(_, msg) => BallotsKnow(s, msg, VoteRequest(0, 0, 0, 0, false));
      case VoteRequestStep(_, req) => BallotsKnow(s, TimeoutNow(0, 0), req);
      case VoteReplyStep(r) => NodeLog(c, n); VoteReplyKnows(s, r.from, r.resp, r.round.PreRound?);
    }
    if !step.VoteReplyStep? { NoNewLeaderKnows(s, s'); }
    OneNodeSteady(c, Next(c, step), n);
  }

  lemma LogStepsSteady(c: Cluster, step: Step)
    requires ClusterInv(c) && Steady(c) && Enabled(c, step)
    requires step.AppendRequestStep? || step.AppendReplyStep? || step.ProposeStep?
    ensures Steady(Next(c, step))
  {
    hide ClusterInv, LeaderKnows, HandleAppendEntries, HandleAppendResponse, Propose, NoNewLeader, Extend;
    var n := if step.AppendReplyStep? then step.arep.to else step.n;
    var s, s' := c.nodes[n], Next(c, step).nodes[n];
    NodeBase(c, n);
    match step {
      case AppendRequestStep(_, req) =>
        AppendsKnow(s, req);
        NoNewLeaderKnows(s, s');
        assert (n, req) in c.appendRequests;
      case AppendReplyStep(r) => ReplyKnows(s, r.from, r.resp);
      case ProposeStep(_, data) => NodeLog(c, n); ProposerKnows(s, data);
    }
    OneNodeSteady(c, Next(c, step), n);
  }

  lemma NodeBase(c: Cluster, n: NodeId)
    requires ClusterInv(c) && n in c.nodes
    ensures BaseOk(c, n) && c.nodes.Keys == c.members
  {
    assert NodeOk(c, n);
  }

  lemma SendSteady(c: Cluster, n: NodeId)
    requires ClusterInv(c) && Steady(c) && n in c.nodes
    ensures Steady(DoSendAppends(c, n))
  {
    hide ClusterInv, LeaderKnows;
    NodeBase(c, n);
    OneNodeSteady(c, DoSendAppends(c, n), n);
  }

  lemma QuietStepsSteady(c: Cluster, step: Step)
    requires Steady(c) && Enabled(c, step)
    requires step.TakeCommittedStep? || step.RequestReadStep? || step.ReadAckStep? || step.TakeReadStep?
             || step.TransferStep? || step.CheckTransferStep? || step.TransferTimeoutStep?
    ensures Steady(Next(c, step))
  {
    hide LeaderKnows, NoNewLeader, TakeCommitted, RequestReadIndex, ReadIndexAck, TakeReadIndex, TransferLeadership,
         CheckTransferProgress, CheckTransferTimeout, OldCommitted;
    var n := if step.ReadAckStep? then step.arep.to else step.n;
    var id := if step.TakeReadStep? then step.id else 0;
    var target := if step.TransferStep? then step.target else 0;
    var from := if step.ReadAckStep? then step.arep.from else 0;
    QuietKnow(c.nodes[n], id, target, step.TransferTimeoutStep? && step.expired, from);
    NoNewLeaderKnows(c.nodes[n], Next(c, step).nodes[n]);
    OneNodeSteady(c, Next(c, step), n);
  }

  lemma StepSteady(c: Cluster, step: Step)
    requires ClusterInv(c) && Steady(c) && Enabled(c, step)
    ensures Steady(Next(c, step))
  {
    hide ClusterInv, Steady, Next;
    match step {
      case StartPreVoteStep(_) => ElectionStepsSteady(c, step);
      case StartElectionStep(_) => ElectionStepsSteady(c, step);
      case TimeoutNowStep(_, _) => ElectionStepsSteady(c, step);
      case VoteRequestStep(_, _) => ElectionStepsSteady(c, step);
      case VoteReplyStep(_) => ElectionStepsSteady(c, step);
      case AppendRequestStep(_, _) => LogStepsSteady(c, step);
      case AppendReplyStep(_) => LogStepsSteady(c, step);
      case ProposeStep(_, _) => LogStepsSteady(c, step);
      case SendAppendsStep(n) => SendIsNext(c, n); SendSteady(c, n);
      case _ => QuietStepsSteady(c, step);
    }
  }

  lemma SendIsNext(c: Cluster, n: NodeId)
    requires n in c.nodes
    ensures Next(c, SendAppendsStep(n)) == DoSendAppends(c, n)
  {
  }

  lemma InitSteady(c: Cluster)
    requires Init(c)
    ensures Steady(c)
  {
    forall n | n in c.nodes ensures LeaderKnows(c.nodes[n]) { assert c.nodes[n] == NewNode(n, c.nodes[n].peers); }
  }

  /** In every reachable state every leader knows its own end and has a next index for every peer. */
  lemma {:induction false} RunSteady(run: seq<Cluster>, steps: seq<Step>, i: nat)
    requires IsRun(run, steps) && i < |run|
    ensures Steady(run[i])
    decreases i
  {
    hide ClusterInv, Steady, Next, Init;
    if i == 0 {
      InitSteady(run[0]);
    } else {
      RunSteady(run, steps, i - 1);
      RunInv(run, steps, i - 1);
      StepSteady(run[i - 1], steps[i - 1]);
    }
  }

  // ------------------------------------------------------------------ continuations

  ghost predicate Good(c: Cluster)
  {
    ClusterInv(c) && Steady(c)
  }

  /** The steps can be taken one after the other. */
  ghost predicate Plays(c: Cluster, steps: seq<Step>)
    decreases |steps|
  {
    steps != [] ==> Enabled(c, steps[0]) && Plays(Next(c, steps[0]), steps[1..])
  }

  ghost function After(c: Cluster, steps: seq<Step>): Cluster
    requires Plays(c, steps)
    decreases |steps|
  {
    if steps == [] then c else After(Next(c, steps[0]), steps[1..])
  }

  /** Doing `steps` leads from one state to the other. */
  ghost predicate Leads(c: Cluster, steps: seq<Step>, c': Cluster)
  {
    Plays(c, steps) && After(c, steps) == c'
  }

  lemma LeadsNowhere(c: Cluster)
    ensures Leads(c, [], c)
  {
  }

  lemma LeadsOne(c: Cluster, step: Step)
    requires Enabled(c, step)
    ensures Leads(c, [step], Next(c, step))
  {
    hide Next;
    assert [step][1..] == [];
    LeadsNowhere(Next(c, step));
  }

  lemma {:induction false} LeadsOn(c: Cluster, a: seq<Step>, c1: Cluster, b: seq<Step>, c2: Cluster)
    requires Leads(c, a, c1) && Leads(c1, b, c2)
    ensures Leads(c, a + b, c2)
    decreases |a|
  {
    hide Next;
    if a == [] {
      assert a + b == b;
    } else {
      assert (a + b)[1..] == a[1..] + b && (a + b)[0] == a[0];
      LeadsOn(Next(c, a[0]), a[1..], c1, b, c2);
    }
  }

  lemma {:induction false} LeadsGood(c: Cluster, steps: seq<Step>, c': Cluster)
    requires Good(c) && Leads(c, steps, c')
    ensures Good(c')
    decreases |steps|
  {
    hide ClusterInv, Steady, Next;
    if steps != [] {
      StepKeepsInv(c, steps[0]);
      StepSteady(c, steps[0]);
      LeadsGood(Next(c, steps[0]), steps[1..], c');
    }
  }

  /** A continuation makes a longer run. */
  lemma {:induction false} RunGoesOn(run: seq<Cluster>, steps: seq<Step>, more: seq<Step>, c': Cluster)
      returns (states: seq<Cluster>)
    requires IsRun(run, steps) && Leads(run[|run| - 1], more, c')
    ensures |states| == |more| && IsRun(run + states, steps + more) && (run + states)[|run + states| - 1] == c'
    decreases |more|
  {
    hide Next, Enabled, Init;
    if more == [] {
      states := [];
      assert run + states == run && steps + more == steps;
    } else {
      var c1 := Next(run[|run| - 1], more[0]);
      OneMoreState(run, steps, more[0]);
      var rest := RunGoesOn(run + [c1], steps + [more[0]], more[1..], c');
      states := [c1] + rest;
      assert run + states == run + [c1] + rest;
      assert steps + more == steps + [more[0]] + more[1..];
    }
  }

  lemma OneMoreState(run: seq<Cluster>, steps: seq<Step>, step: Step)
    requires IsRun(run, steps) && Enabled(run[|run| - 1], step)
    ensures IsRun(run + [Next(run[|run| - 1], step)], steps + [step])
  {
    hide Next, Init;
    var run', steps' := run + [Next(run[|run| - 1], step)], steps + [step];
    forall i | 0 <= i < |steps'| ensures Enabled(run'[i], steps'[i]) && run'[i + 1] == Next(run'[i], steps'[i]) {
      if i < |steps| { assert steps[i] == steps'[i]; }
    }
  }
}
