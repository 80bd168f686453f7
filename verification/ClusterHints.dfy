/** Whom a node names as leader, and how leadership moves to a chosen node. */
module ClusterHints {
  import opened Common
  import opened Bytes
  import opened RaftTypes
  import opened Quorums
  import opened NodeModel
  import opened Replication
  import opened ReplicationSteps
  import opened Clusters
  import opened ClusterSteps
  import opened ClusterRuns
  import opened ClusterPlays
  import opened ClusterProgress
  import opened ClusterElections

  // -------------------------------------------------------------------- redirects

  /** Whom the node names is the leader of its term. */
  ghost predicate HintOk(h: History, s: Node)
  {
    s.leaderId.Some? ==> s.term in h.leader && h.leader[s.term] == s.leaderId.value
  }

  ghost predicate SenderOk(h: History, req: AppendRequest)
  {
    req.term in h.leader && h.leader[req.term] == req.leaderId
  }

  ghost predicate HintsOk(c: Cluster)
  {
    && (forall n {:trigger HintOk(c.h, c.nodes[n])} :: n in c.nodes ==> HintOk(c.h, c.nodes[n]))
    && (forall p {:trigger SenderOk(c.h, p.1)} :: p in c.appendRequests ==> SenderOk(c.h, p.1))
  }

  /** The handler kept term and hint, or dropped the hint. */
  predicate NoNewHint(s: Node, s': Node)
  {
    s'.leaderId.None? || (s'.leaderId == s.leaderId && s'.term == s.term)
  }

  lemma BallotHints(s: Node, msg: TimeoutNow, req: VoteRequest)
    ensures NoNewHint(s, StartPreVote(s).0) && NoNewHint(s, StartElection(s).0)
    ensures NoNewHint(s, HandleTimeoutNow(s, msg).0) && NoNewHint(s, HandleVoteRequest(s, req).0)
  {
  }

  /** A node that handled an append of its term or a later one sends clients to the sender. */
  lemma AppendHints(s: Node, req: AppendRequest, data: Bytes)
    ensures var s' := HandleAppendEntries(s, req).0;
            if req.term < s.term then s' == s
            else
              && s'.term == req.term && s'.leaderId == Some(req.leaderId)
              && Propose(s', data) == (s', Err(NotLeader(Some(req.leaderId))))
              && RequestReadIndex(s') == (s', Err(NotLeader(Some(req.leaderId))))
  {
    hide MergeEntries;
  }

  lemma VoteReplyHints(s: Node, from: NodeId, resp: VoteResponse, pre: bool)
    ensures var (s', won) := HandleVoteResponse(s, from, resp, pre);
            if won then s'.role == Leader && s'.leaderId == Some(s.id) && s'.term == s.term else NoNewHint(s, s')
  {
  }

  lemma OtherHints(s: Node, from: NodeId, resp: AppendResponse, data: Bytes, id: nat, target: NodeId, expired: bool)
    ensures NoNewHint(s, HandleAppendResponse(s, from, resp)) && NoNewHint(s, Propose(s, data).0)
    ensures NoNewHint(s, TakeCommitted(s).0) && NoNewHint(s, RequestReadIndex(s).0)
    ensures NoNewHint(s, ReadIndexAck(s, from)) && NoNewHint(s, TakeReadIndex(s, id).0)
    ensures NoNewHint(s, TransferLeadership(s, target).0) && NoNewHint(s, CheckTransferProgress(s).0)
    ensures NoNewHint(s, CheckTransferTimeout(s, expired)) && NoNewHint(s, s)
  {
  }

  lemma KeptHint(h: History, h': History, s: Node, s': Node)
    requires HintOk(h, s) && Remembers(h, h') && NoNewHint(s, s')
    ensures HintOk(h', s')
  {
  }

  lemma HintsAfter(c: Cluster, c': Cluster, n: NodeId)
    requires HintsOk(c) && Remembers(c.h, c'.h)
    requires n in c.nodes && n in c'.nodes && c'.nodes == c.nodes[n := c'.nodes[n]]
    requires HintOk(c'.h, c'.nodes[n])
    requires forall p :: p in c'.appendRequests && p !in c.appendRequests ==> SenderOk(c'.h, p.1)
    ensures HintsOk(c')
  {
    forall m | m in c'.nodes ensures HintOk(c'.h, c'.nodes[m]) {
      if m != n { assert HintOk(c.h, c.nodes[m]); }
    }
    forall p | p in c'.appendRequests ensures SenderOk(c'.h, p.1) {
      if p in c.appendRequests { assert SenderOk(c.h, p.1); }
    }
  }

  lemma ElectionHints(c: Cluster, step: Step)
    requires ClusterInv(c) && HintsOk(c) && Enabled(c, step)
    requires step.StartPreVoteStep? || step.StartElectionStep? || step.TimeoutNowStep? || step.VoteRequestStep?
    ensures HintsOk(Next(c, step))
  {
    hide ClusterInv, HintsOk, StartPreVote, StartElection, HandleTimeoutNow, HandleVoteRequest, NoNewHint, HintOk,
         Remembers, Grant, Campaign, RaiseTerm;
    StepRemembers(c, step);
    var msg := if step.TimeoutNowStep? then step.msg else TimeoutNow(0, 0);
    var req := if step.VoteRequestStep? then step.vreq else VoteRequest(0, 0, 0, 0, false);
    BallotHints(c.nodes[step.n], msg, req);
    HintHere(c, step.n);
    KeptHint(c.h, Next(c, step).h, c.nodes[step.n], Next(c, step).nodes[step.n]);
    HintsAfter(c, Next(c, step), step.n);
  }

  lemma HintHere(c: Cluster, n: NodeId)
    requires HintsOk(c) && n in c.nodes
    ensures HintOk(c.h, c.nodes[n])
  {
  }

  lemma WinHints(c: Cluster, r: VoteReply)
    requires ClusterInv(c) && HintsOk(c) && Enabled(c, VoteReplyStep(r))
    ensures HintsOk(Next(c, VoteReplyStep(r)))
  {
    hide ClusterInv, HintsOk, HandleVoteResponse, NoNewHint, Remembers, Win;
    var step, n := VoteReplyStep(r), r.to;
    var c' := Next(c, step);
    StepRemembers(c, step);
    StepKeepsInv(c, step);
    NodeBase(c, n);
    HintHere(c, n);
    VoteReplyHints(c.nodes[n], r.from, r.resp, r.round.PreRound?);
    if HandleVoteResponse(c.nodes[n], r.from, r.resp, r.round.PreRound?).1 {
      LeadsHere(c', n);
    } else {
      KeptHint(c.h, c'.h, c.nodes[n], c'.nodes[n]);
    }
    HintsAfter(c, c', n);
  }

  lemma LeadsHere(c: Cluster, n: NodeId)
    requires ClusterInv(c) && n in c.nodes && c.nodes[n].role == Leader
    ensures c.nodes[n].term in c.h.leader && c.h.leader[c.nodes[n].term] == n
  {
    assert NodeOk(c, n);
  }

  lemma HandledHints(c: Cluster, n: NodeId, req: AppendRequest)
    requires ClusterInv(c) && HintsOk(c) && Enabled(c, AppendRequestStep(n, req))
    ensures HintsOk(Next(c, AppendRequestStep(n, req)))
  {
    hide ClusterInv, HandleAppendEntries, Remembers;
    StepRemembers(c, AppendRequestStep(n, req));
    AppendHints(c.nodes[n], req, []);
    assert SenderOk(c.h, (n, req).1);
    HintHere(c, n);
    HintsAfter(c, Next(c, AppendRequestStep(n, req)), n);
  }

  lemma SentHints(c: Cluster, n: NodeId)
    requires ClusterInv(c) && HintsOk(c) && n in c.nodes
    ensures HintsOk(Next(c, SendAppendsStep(n)))
  {
    hide ClusterInv, HintsOk, Remembers;
    StepRemembers(c, SendAppendsStep(n));
    HintHere(c, n);
    NodeBase(c, n);
    if c.nodes[n].role == Leader { LeadsHere(c, n); }
    HintsAfter(c, Next(c, SendAppendsStep(n)), n);
  }

  lemma QuietHints(c: Cluster, step: Step)
    requires ClusterInv(c) && HintsOk(c) && Enabled(c, step)
    requires !step.StartPreVoteStep? && !step.StartElectionStep? && !step.TimeoutNowStep? && !step.VoteRequestStep?
    requires !step.VoteReplyStep? && !step.AppendRequestStep? && !step.SendAppendsStep?
    ensures HintsOk(Next(c, step))
  {
    hide ClusterInv, HintsOk, HintOk, NoNewHint, Remembers, HandleAppendResponse, Propose, TakeCommitted,
         RequestReadIndex, ReadIndexAck, TakeReadIndex, TransferLeadership, CheckTransferProgress, CheckTransferTimeout,
         Extend, OldCommitted;
    StepRemembers(c, step);
    var n := if step.AppendReplyStep? || step.ReadAckStep? then step.arep.to else step.n;
    var from := if step.AppendReplyStep? || step.ReadAckStep? then step.arep.from else 0;
    var resp := if step.AppendReplyStep? then step.arep.resp else AppendResponse(0, false, 0);
    var data := if step.ProposeStep? then step.data else [];
    var id := if step.TakeReadStep? then step.id else 0;
    var target := if step.TransferStep? then step.target else 0;
    OtherHints(c.nodes[n], from, resp, data, id, target, step.TransferTimeoutStep? && step.expired);
    HintHere(c, n);
    KeptHint(c.h, Next(c, step).h, c.nodes[n], Next(c, step).nodes[n]);
    HintsAfter(c, Next(c, step), n);
  }

  lemma StepHints(c: Cluster, step: Step)
    requires ClusterInv(c) && HintsOk(c) && Enabled(c, step)
    ensures HintsOk(Next(c, step))
  {
    hide ClusterInv, HintsOk, Next;
    match step {
      case StartPreVoteStep(_) => ElectionHints(c, step);
      case StartElectionStep(_) => ElectionHints(c, step);
      case TimeoutNowStep(_, _) => ElectionHints(c, step);
      case VoteRequestStep(_, _) => ElectionHints(c, step);
      case VoteReplyStep(r) => WinHints(c, r);
      case AppendRequestStep(n, req) => HandledHints(c, n, req);
      case SendAppendsStep(n) => SentHints(c, n);
      case _ => QuietHints(c, step);
    }
  }

  lemma InitHints(c: Cluster)
    requires Init(c)
    ensures HintsOk(c)
  {
    forall n | n in c.nodes ensures HintOk(c.h, c.nodes[n]) { assert c.nodes[n] == NewNode(n, c.nodes[n].peers); }
  }

  lemma {:induction false} RunHints(run: seq<Cluster>, steps: seq<Step>, i: nat)
    requires IsRun(run, steps) && i < |run|
    ensures HintsOk(run[i])
    decreases i
  {
    hide ClusterInv, HintsOk, Next, Init;
    if i == 0 {
      InitHints(run[0]);
    } else {
      RunHints(run, steps, i - 1);
      RunInv(run, steps, i - 1);
      StepHints(run[i - 1], steps[i - 1]);
    }
  }

  /**
   Redirects are right: a node that names a leader in its refusal names the one node that ever
   leads its term.
   */
  lemma RedirectsAreRight(run: seq<Cluster>, steps: seq<Step>, i: nat, j: nat, n: NodeId, m: NodeId, data: Bytes,
                          l: NodeId)
    requires IsRun(run, steps) && i < |run| && n in run[i].nodes
    requires Propose(run[i].nodes[n], data).1 == Err(NotLeader(Some(l)))
    requires j < |run| && m in run[j].nodes && run[j].nodes[m].role == Leader
    ensures run[i].nodes[n].term in run[i].h.leader && run[i].h.leader[run[i].nodes[n].term] == l
    ensures run[j].nodes[m].term == run[i].nodes[n].term ==> m == l
  {
    hide ClusterInv, HintsOk, Init, Next;
    RunHints(run, steps, i);
    HintHere(run[i], n);
    RunInv(run, steps, j);
    LeadsHere(run[j], m);
    BothRemembered(run, steps, i, j);
  }

  // --------------------------------------------------------------------- transfers

  /** Each refusal of a transfer under exactly its condition; while one is under way no proposal is taken. */
  lemma TransferExactly(c: Cluster, n: NodeId, target: NodeId, data: Bytes)
    requires ClusterInv(c) && n in c.nodes
    ensures var s := c.nodes[n];
            var (s', r) := TransferLeadership(s, target);
            match r
            case Ok(_) =>
              && s.role == Leader && target in c.members && target != n && s.transfer.None?
              && s' == s.(transfer := Some(Transfer(target, false)))
              && Propose(s', data) == (s', Err(TransferInProgress))
              && CheckTransferTimeout(s', false) == s' && CheckTransferTimeout(s', true) == s
            case Err(e) =>
              && s' == s
              && (e == TransferNotLeader <==> s.role != Leader)
              && (e == AlreadyLeader <==> s.role == Leader && target == n)
              && (e == AlreadyInProgress <==> s.role == Leader && target != n && s.transfer.Some?)
              && (e == TargetNotInCluster <==> s.role == Leader && s.transfer.None? && target !in c.members)
  {
    hide ClusterInv;
    NodeBase(c, n);
    ClusterSize(c, n);
  }

  /** The leader may start a transfer and, once the target is up to date, names it. */
  lemma TargetIsNamed(c: Cluster, l: NodeId, target: NodeId)
    requires LeaderAt(c, l) && Matched(c, l, target) && c.nodes[l].transfer == Some(Transfer(target, false))
    ensures CheckTransferProgress(c.nodes[l]).1 == Some(target)
  {
    hide ClusterInv, Steady;
    NodeLog(c, l);
  }

  lemma StartTransfer(c: Cluster, l: NodeId, target: NodeId) returns (steps: seq<Step>, c': Cluster)
    requires LeaderAt(c, l) && target in c.nodes && target != l
    ensures Leads(c, steps, c') && LeaderAt(c', l) && c'.members == c.members && c'.nodes.Keys == c.nodes.Keys
    ensures c'.nodes[l] == c.nodes[l].(transfer := Some(Transfer(target, false)))
    ensures forall m :: m in c.nodes && m != l ==> c'.nodes[m] == c.nodes[m]
  {
    hide ClusterInv, Steady, Plays, ClusterPlays.After, TransferLeadership;
    var x, y := TransferTimeoutStep(l, true), TransferStep(l, target);
    var c1 := Next(c, x);
    StepKeepsInv(c, x);
    StepSteady(c, x);
    NodeBase(c1, l);
    TransferExactly(c1, l, target, []);
    StepKeepsInv(c1, y);
    StepSteady(c1, y);
    c' := Next(c1, y);
    LeadsOne(c, x);
    LeadsOne(c1, y);
    LeadsOn(c, [x], c1, [y], c');
    steps := [x] + [y];
  }

  /**
   Leadership can be moved to any follower: the leader starts the transfer, brings the target up to
   date, names it and sends it a TimeoutNow, and the target wins the next term with any majority
   that has not left the leader's term.
   */
  lemma LeadershipCanMove(c: Cluster, l: NodeId, target: NodeId, q: set<NodeId>) returns (steps: seq<Step>, c': Cluster)
    requires LeaderAt(c, l) && Reachable(c, l, target) && target in q && |q| > 1 && IsMajority(q, c.members)
    requires forall v :: v in q ==> v in c.nodes && c.nodes[v].term <= c.nodes[l].term
    ensures Leads(c, steps, c') && LeaderAt(c', target) && c'.nodes[target].term == c.nodes[l].term + 1
    ensures c.nodes[l].log.entries < c'.nodes[target].log.entries
  {
    hide ClusterInv, Steady, Leads, IsMajority, CommitsKnown, CheckTransferProgress, AllReachable;
    var a, c1 := StartTransfer(c, l, target);
    var b, c2 := CatchUp(c1, l, target);
    TargetIsNamed(c2, l, target);
    var vs := q - {target};
    assert {target} + vs == q;
    var d, c3 := TransferCanSucceed(c2, l, target, vs);
    LeadsOn(c, a, c1, b, c2);
    LeadsOn(c, a + b, c2, d, c3);
    steps, c' := a + b + d, c3;
  }
}
