/**
 No reachable state is a dead end: a leader can bring any follower up to date, a majority that has
 not left its term lets it commit and deliver its whole log, and any majority can elect a leader.
 */
module ClusterProgress {
  import opened Common
  import opened RaftTypes
  import opened RaftLogs
  import opened Quorums
  import opened MembershipStates
  import opened NodeModel
  import opened Clusters
  import opened ClusterSteps
  import opened ClusterLeaderSteps
  import opened ClusterRuns
  import opened ClusterClients
  import opened ClusterPlays
  import opened CommitRule

  // --------------------------------------------------------------- one exchange

  ghost predicate LeaderAt(c: Cluster, l: NodeId)
  {
    Good(c) && l in c.nodes && c.nodes[l].role == Leader && c.nodes[l].leader.Some?
  }

  /** A follower that the leader can reach and that has not left its term. */
  ghost predicate Reachable(c: Cluster, l: NodeId, p: NodeId)
    requires l in c.nodes
  {
    p in c.nodes && p != l && c.nodes[p].term <= c.nodes[l].term
  }

  lemma LeaderIs(c: Cluster, l: NodeId)
    requires Good(c) && l in c.nodes && c.nodes[l].role == Leader
    ensures LeaderAt(c, l) && LeaderKnows(c.nodes[l])
  {
    hide ClusterInv;
    assert LeaderKnows(c.nodes[l]);
  }

  ghost function RequestFor(c: Cluster, l: NodeId, p: NodeId): AppendRequest
    requires LeaderAt(c, l)
  {
    AppendRequestFor(c.nodes[l], c.nodes[l].leader.value, p)
  }

  lemma SentToPeer(s: Node, p: NodeId)
    requires s.role == Leader && s.leader.Some? && p in s.peers
    ensures (p, AppendRequestFor(s, s.leader.value, p)) in CreateAppendRequests(s)
  {
    hide AppendRequestFor;
    var i :| 0 <= i < |s.peers| && s.peers[i] == p;
    assert CreateAppendRequests(s)[i] == (p, AppendRequestFor(s, s.leader.value, p));
  }

  /** What is on the wire: the leader's log behind the next index, and its commit index. */
  lemma RequestShape(c: Cluster, l: NodeId, p: NodeId)
    requires LeaderAt(c, l) && p in c.nodes && p != l
    ensures p in c.nodes[l].leader.value.nextIndex && 1 <= c.nodes[l].leader.value.nextIndex[p]
    ensures var s, req := c.nodes[l], RequestFor(c, l, p);
            && p in s.peers && req.term == s.term && req.leaderId == l && req.leaderCommit == s.commitIndex
            && req.prevLogIndex == s.leader.value.nextIndex[p] - 1
            && req.prevLogIndex + |req.entries| == |s.log.entries|
  {
    hide ClusterInv, HandleAppendEntries;
    NodeBase(c, l);
    NodeLog(c, l);
    LeaderIs(c, l);
    NextIndexStaysInLog(c, l, p);
  }

  ghost function Sent(c: Cluster, l: NodeId): Cluster
    requires l in c.nodes
  {
    Next(c, SendAppendsStep(l))
  }

  lemma SentParts(c: Cluster, l: NodeId, p: NodeId)
    requires LeaderAt(c, l) && p in c.nodes && p != l
    ensures var c1 := Sent(c, l);
            && c1.nodes == c.nodes && c1.members == c.members && c1.delivered == c.delivered
            && (p, RequestFor(c, l, p)) in c1.appendRequests && Good(c1)
  {
    hide ClusterInv, Steady, CreateAppendRequests, AppendRequestFor;
    RequestShape(c, l, p);
    SentToPeer(c.nodes[l], p);
    StepKeepsInv(c, SendAppendsStep(l));
    StepSteady(c, SendAppendsStep(l));
    assert c.nodes[l := c.nodes[l]] == c.nodes;
  }

  /** How a follower in or below the leader's term answers. */
  lemma AnswerShape(s: Node, req: AppendRequest)
    requires req.term >= s.term
    ensures var (s', resp) := HandleAppendEntries(s, req);
            && s'.term == req.term == resp.term && (req.prevLogIndex == 0 ==> resp.success)
            && resp.matchIndex == s'.log.LastIndex()
  {
    hide MergeEntries, Log.MatchTerm;
  }

  ghost function ReplyOf(c: Cluster, p: NodeId, req: AppendRequest): AppendReply
    requires p in c.nodes
  {
    AppendReply(p, req.leaderId, req.term, HandleAppendEntries(c.nodes[p], req).1, c.clock)
  }

  /** The follower's side of an exchange. */
  lemma Answered(c: Cluster, l: NodeId, p: NodeId, req: AppendRequest)
    requires Good(c) && l in c.nodes && Reachable(c, l, p) && (p, req) in c.appendRequests
    requires req.term == c.nodes[l].term && req.leaderId == l && c.nodes[l].role == Leader
    requires req.leaderCommit == c.nodes[l].commitIndex
    requires req.prevLogIndex + |req.entries| == |c.nodes[l].log.entries|
    ensures var c2, r := Next(c, AppendRequestStep(p, req)), ReplyOf(c, p, req);
            && c2.nodes == c.nodes[p := c2.nodes[p]] && c2.members == c.members && c2.delivered == c.delivered
            && r in c2.appendReplies && c2.nodes[p].term == req.term == r.resp.term
            && (req.prevLogIndex == 0 ==> r.resp.success)
            && (r.resp.success ==>
                  && c2.nodes[p].log.entries == c.nodes[l].log.entries && r.resp.matchIndex == |c.nodes[l].log.entries|
                  && c2.nodes[p].commitIndex >= c.nodes[l].commitIndex)
  {
    hide ClusterInv, Steady, HandleAppendEntries;
    AnswerShape(c.nodes[p], req);
    if HandleAppendEntries(c.nodes[p], req).1.success {
      AcknowledgementsAreTruthful(c, p, req, l);
      AppendMovesUp(c, p, req);
    }
  }

  /** The leader's side: the answer is recorded, and the commit index goes as far as it may. */
  lemma Heard(c: Cluster, l: NodeId, p: NodeId, r: AppendReply)
    requires LeaderAt(c, l) && Enabled(c, AppendReplyStep(r))
    requires r.to == l && r.from == p && r.resp.term <= c.nodes[l].term
    ensures var c', s := Next(c, AppendReplyStep(r)), c.nodes[l];
            var ls := RecordResponse(s.leader.value, p, r.resp);
            && c'.members == c.members && c'.delivered == c.delivered
            && l in c'.nodes && c'.nodes == c.nodes[l := c'.nodes[l]]
            && c'.nodes[l] == s.(leader := Some(ls), commitIndex := c'.nodes[l].commitIndex)
            && c'.nodes[l].commitIndex >= s.commitIndex
            && (IsMajority(Voters(ls, |s.log.entries|), c.members) ==> c'.nodes[l].commitIndex >= |s.log.entries|)
  {
    hide ClusterInv, Steady, HandleAppendResponse, RecordResponse;
    ReplyNode(c.nodes[l], r);
    ReplyMovesUp(c.nodes[l], p, r.resp);
    StepKeepsInv(c, AppendReplyStep(r));
    if IsMajority(Voters(RecordResponse(c.nodes[l].leader.value, p, r.resp), |c.nodes[l].log.entries|), c.members) {
      MajorityCommits(c, Next(c, AppendReplyStep(r)), l, p, r);
    }
  }

  lemma ReplyIsAdvance(s: Node, r: AppendReply)
    requires Processed(s, r)
    ensures HandleAppendResponse(s, r.from, r.resp) ==
            TryAdvanceCommit(s.(leader := Some(RecordResponse(s.leader.value, r.from, r.resp))))
  {
  }

  lemma MajorityCommits(c: Cluster, c': Cluster, l: NodeId, p: NodeId, r: AppendReply)
    requires LeaderAt(c, l) && ClusterInv(c') && r.to == l && r.from == p && r.resp.term <= c.nodes[l].term
    requires l in c'.nodes && c'.nodes[l] == HandleAppendResponse(c.nodes[l], p, r.resp)
    requires var ls := RecordResponse(c.nodes[l].leader.value, p, r.resp);
             && c'.nodes[l] == c.nodes[l].(leader := Some(ls), commitIndex := c'.nodes[l].commitIndex)
             && IsMajority(Voters(ls, |c.nodes[l].log.entries|), c.members)
    ensures c'.nodes[l].commitIndex >= |c.nodes[l].log.entries|
  {
    hide ClusterInv, Steady, HandleAppendResponse, RecordResponse, TryAdvanceCommit, Voters, Membership.HasQuorum;
    var s := c.nodes[l];
    var ls := RecordResponse(s.leader.value, p, r.resp);
    var s1, n := s.(leader := Some(ls)), |s.log.entries|;
    ReplyIsAdvance(s, r);
    LeaderTermsRise(c, l);
    NodeLog(c, l);
    LeaderLogAt(c, l);
    forall v | v in ls.matchIndex ensures ls.matchIndex[v] <= s1.log.LastIndex() { NextIndexStaysInLog(c', l, v); }
    if n > s.commitIndex {
      QuorumHere(c, l, Voters(ls, n));
      assert s1.log.Get(n) == Some(s.log.entries[n - 1]);
      assert Committable(s1, ls, n);
    }
    AdvanceIsGreatest(s1, n);
  }

  /** In a cluster of fixed members the quorum test is the majority of the members. */
  lemma QuorumHere(c: Cluster, n: NodeId, q: set<NodeId>)
    requires ClusterInv(c) && n in c.nodes && IsMajority(q, c.members)
    ensures c.nodes[n].membership.HasQuorum(q)
  {
    hide ClusterInv, Membership.HasQuorum;
    NodeBase(c, n);
    ClusterSize(c, n);
    QuorumIsMajority(c.nodes[n].membership, q);
  }

  // ---------------------------------------------------------- an exchange as a whole

  /** The follower's log is the leader's, and the leader knows. */
  ghost predicate Matched(c: Cluster, l: NodeId, p: NodeId)
    requires l in c.nodes && c.nodes[l].leader.Some?
  {
    var s := c.nodes[l];
    && p in c.nodes && c.nodes[p].term == s.term && c.nodes[p].log.entries == s.log.entries
    && p in s.leader.value.matchIndex && s.leader.value.matchIndex[p] == |s.log.entries|
  }

  /** Only the leader's maps and commit index and the nodes in `ps` have changed. */
  ghost predicate OnlyAbout(c: Cluster, c': Cluster, l: NodeId, ps: set<NodeId>)
  {
    && l in c.nodes && l in c'.nodes && c'.nodes.Keys == c.nodes.Keys
    && c'.members == c.members && c'.delivered == c.delivered
    && (forall m :: m in c.nodes && m != l && m !in ps ==> c'.nodes[m] == c.nodes[m])
    && (forall m :: m in c.nodes && m in ps && m != l ==> c'.nodes[m].term == c.nodes[l].term)
    && c'.nodes[l] == c.nodes[l].(leader := c'.nodes[l].leader, commitIndex := c'.nodes[l].commitIndex)
    && c'.nodes[l].commitIndex >= c.nodes[l].commitIndex
    && c.nodes[l].leader.Some? && c'.nodes[l].leader.Some?
    && var x, x' := c.nodes[l].leader.value.matchIndex, c'.nodes[l].leader.value.matchIndex;
       forall v :: v in x && v !in ps ==> v in x' && x'[v] == x[v]
  }

  ghost function NextOf(c: Cluster, l: NodeId, p: NodeId): nat
    requires l in c.nodes
  {
    var ls := c.nodes[l].leader;
    if ls.Some? && p in ls.value.nextIndex then ls.value.nextIndex[p] else 1
  }

  /** The leader has committed everything as soon as it knows a majority that has everything. */
  ghost predicate CommitsKnown(c: Cluster, l: NodeId)
    requires l in c.nodes && c.nodes[l].leader.Some?
  {
    var s := c.nodes[l];
    IsMajority(Voters(s.leader.value, |s.log.entries|), c.members) ==> s.commitIndex >= |s.log.entries|
  }

  /** What an exchange does: the follower is up to date, or the next attempt starts one entry further back. */
  ghost predicate Exchanged(c: Cluster, c': Cluster, l: NodeId, p: NodeId)
    requires l in c.nodes
  {
    && OnlyAbout(c, c', l, {p}) && LeaderAt(c', l) && CommitsKnown(c', l)
    && (|| (Matched(c', l, p) && p in c'.nodes && c'.nodes[p].commitIndex >= c.nodes[l].commitIndex)
        || NextOf(c', l, p) < NextOf(c, l, p))
  }

  lemma RecordShape(ls: LeaderState, p: NodeId, resp: AppendResponse)
    ensures var ls' := RecordResponse(ls, p, resp);
            && (forall v :: v in ls.matchIndex && v != p ==>
                  v in ls'.matchIndex && ls'.matchIndex[v] == ls.matchIndex[v])
            && (resp.success ==> p in ls'.matchIndex && ls'.matchIndex[p] == resp.matchIndex)
            && p in ls'.nextIndex
            && (!resp.success && p in ls.nextIndex && ls.nextIndex[p] > 1 ==> ls'.nextIndex[p] < ls.nextIndex[p])
  {
  }

  ghost predicate SameCluster(c: Cluster, c': Cluster)
  {
    c'.nodes == c.nodes && c'.members == c.members && c'.delivered == c.delivered
  }

  lemma AfterHearing(c: Cluster, c1: Cluster, c2: Cluster, c3: Cluster, l: NodeId, p: NodeId, r: AppendReply)
    requires LeaderAt(c, l) && Reachable(c, l, p) && Good(c3) && l in c1.nodes
    requires SameCluster(c, c1) && c2.members == c.members && c2.delivered == c.delivered
    requires p in c2.nodes && c2.nodes == c.nodes[p := c2.nodes[p]] && c2.nodes[p].term == c.nodes[l].term
    requires r.resp.success ==>
               && c2.nodes[p].log.entries == c.nodes[l].log.entries && r.resp.matchIndex == |c.nodes[l].log.entries|
               && c2.nodes[p].commitIndex >= c.nodes[l].commitIndex
    requires !r.resp.success ==> p in c.nodes[l].leader.value.nextIndex && c.nodes[l].leader.value.nextIndex[p] > 1
    requires var ls := RecordResponse(c.nodes[l].leader.value, p, r.resp);
             && c3.members == c2.members && c3.delivered == c2.delivered
             && l in c3.nodes && c3.nodes == c2.nodes[l := c3.nodes[l]]
             && c3.nodes[l] == c.nodes[l].(leader := Some(ls), commitIndex := c3.nodes[l].commitIndex)
             && c3.nodes[l].commitIndex >= c.nodes[l].commitIndex
             && (IsMajority(Voters(ls, |c.nodes[l].log.entries|), c.members) ==>
                 c3.nodes[l].commitIndex >= |c.nodes[l].log.entries|)
    ensures Exchanged(c, c3, l, p)
  {
    hide ClusterInv, Steady, RecordResponse, Voters, IsMajority;
    RecordShape(c.nodes[l].leader.value, p, r.resp);
  }

  lemma Exchange(c: Cluster, l: NodeId, p: NodeId) returns (steps: seq<Step>, c': Cluster)
    requires LeaderAt(c, l) && Reachable(c, l, p)
    ensures Leads(c, steps, c') && Exchanged(c, c', l, p)
  {
    hide ClusterInv, Steady, Next, RecordResponse, HandleAppendEntries, Voters, IsMajority, AppendRequestFor, Exchanged,
         Plays, ClusterPlays.After;
    var req := RequestFor(c, l, p);
    RequestShape(c, l, p);
    SentParts(c, l, p);
    var c1 := Sent(c, l);
    Answered(c1, l, p, req);
    var c2, r := Next(c1, AppendRequestStep(p, req)), ReplyOf(c1, p, req);
    StepKeepsInv(c1, AppendRequestStep(p, req));
    StepSteady(c1, AppendRequestStep(p, req));
    Heard(c2, l, p, r);
    c' := Next(c2, AppendReplyStep(r));
    StepKeepsInv(c2, AppendReplyStep(r));
    StepSteady(c2, AppendReplyStep(r));
    AfterHearing(c, c1, c2, c', l, p, r);
    steps := ThreeSteps(c, SendAppendsStep(l), AppendRequestStep(p, req), AppendReplyStep(r));
  }

  lemma ThreeSteps(c: Cluster, x: Step, y: Step, z: Step) returns (steps: seq<Step>)
    requires Enabled(c, x) && Enabled(Next(c, x), y) && Enabled(Next(Next(c, x), y), z)
    ensures Leads(c, steps, Next(Next(Next(c, x), y), z))
  {
    hide Next, Enabled, Leads;
    var c1, c2 := Next(c, x), Next(Next(c, x), y);
    LeadsOne(c, x);
    LeadsOne(c1, y);
    LeadsOne(c2, z);
    LeadsOn(c, [x], c1, [y], c2);
    LeadsOn(c, [x] + [y], c2, [z], Next(c2, z));
    steps := [x] + [y] + [z];
  }

  // ------------------------------------------------------------- bringing up to date

  lemma OnlyAboutTwice(c: Cluster, c1: Cluster, c2: Cluster, l: NodeId, a: set<NodeId>, b: set<NodeId>)
    requires OnlyAbout(c, c1, l, a) && OnlyAbout(c1, c2, l, b)
    ensures OnlyAbout(c, c2, l, a + b)
  {
  }

  /** An undisturbed leader brings a follower up to date, however far apart the two logs are. */
  lemma {:induction false} CatchUp(c: Cluster, l: NodeId, p: NodeId) returns (steps: seq<Step>, c': Cluster)
    requires LeaderAt(c, l) && Reachable(c, l, p)
    ensures Leads(c, steps, c') && OnlyAbout(c, c', l, {p}) && LeaderAt(c', l) && CommitsKnown(c', l)
    ensures Matched(c', l, p) && p in c'.nodes && c'.nodes[p].commitIndex >= c.nodes[l].commitIndex
    decreases NextOf(c, l, p)
  {
    hide Good, Leads, CommitsKnown;
    steps, c' := Exchange(c, l, p);
    if !Matched(c', l, p) || c'.nodes[p].commitIndex < c.nodes[l].commitIndex {
      var more, c2 := CatchUp(c', l, p);
      LeadsOn(c, steps, c', more, c2);
      OnlyAboutTwice(c, c', c2, l, {p}, {p});
      assert {p} + {p} == {p};
      steps, c' := steps + more, c2;
    }
  }

  ghost predicate AllReachable(c: Cluster, l: NodeId, ps: set<NodeId>)
    requires l in c.nodes
  {
    forall p :: p in ps ==> Reachable(c, l, p)
  }

  ghost predicate AllMatched(c: Cluster, l: NodeId, ps: set<NodeId>, commit: nat)
    requires l in c.nodes && c.nodes[l].leader.Some?
  {
    forall p :: p in ps ==> Matched(c, l, p) && p in c.nodes && c.nodes[p].commitIndex >= commit
  }

  lemma MatchedStays(c: Cluster, c': Cluster, l: NodeId, p: NodeId, ps: set<NodeId>)
    requires OnlyAbout(c, c', l, ps) && c.nodes[l].leader.Some? && Matched(c, l, p) && p !in ps && p != l
    ensures Matched(c', l, p) && c'.nodes[p] == c.nodes[p]
  {
  }

  lemma ReachableStays(c: Cluster, c': Cluster, l: NodeId, ps: set<NodeId>, qs: set<NodeId>)
    requires OnlyAbout(c, c', l, qs) && AllReachable(c, l, ps)
    ensures AllReachable(c', l, ps)
  {
  }

  lemma {:induction false} CatchUpAll(c: Cluster, l: NodeId, ps: set<NodeId>) returns (steps: seq<Step>, c': Cluster)
    requires LeaderAt(c, l) && AllReachable(c, l, ps)
    ensures Leads(c, steps, c') && OnlyAbout(c, c', l, ps) && LeaderAt(c', l)
    ensures AllMatched(c', l, ps, c.nodes[l].commitIndex)
    decreases |ps|
  {
    hide Good, Leads, Matched;
    if ps == {} {
      steps, c' := [], c;
      LeadsNowhere(c);
    } else {
      var p :| p in ps;
      var a, c1 := CatchUpAll(c, l, ps - {p});
      ReachableStays(c, c1, l, ps, ps - {p});
      var b, c2 := CatchUp(c1, l, p);
      LeadsOn(c, a, c1, b, c2);
      OnlyAboutTwice(c, c1, c2, l, ps - {p}, {p});
      assert ps - {p} + {p} == ps;
      forall x | x in ps
        ensures Matched(c2, l, x) && x in c2.nodes && c2.nodes[x].commitIndex >= c.nodes[l].commitIndex
      {
        if x != p { MatchedStays(c1, c2, l, x, {p}); }
      }
      steps, c' := a + b, c2;
    }
  }

  // ------------------------------------------------------- committing and delivering

  lemma MatchedVote(c: Cluster, l: NodeId, ps: set<NodeId>)
    requires LeaderAt(c, l) && LeaderKnows(c.nodes[l]) && c.nodes[l].id == l
    requires forall p :: p in ps ==> Matched(c, l, p)
    requires IsMajority(ps + {l}, c.members)
    ensures IsMajority(Voters(c.nodes[l].leader.value, |c.nodes[l].log.entries|), c.members)
  {
    hide Good;
    var voters := Voters(c.nodes[l].leader.value, |c.nodes[l].log.entries|);
    SubsetSize((ps + {l}) * c.members, voters * c.members);
  }

  /** With a majority, itself included, the leader commits its whole log. */
  lemma CommitAll(c: Cluster, l: NodeId, ps: set<NodeId>) returns (steps: seq<Step>, c': Cluster)
    requires LeaderAt(c, l) && AllReachable(c, l, ps) && ps != {} && IsMajority(ps + {l}, c.members)
    ensures Leads(c, steps, c') && OnlyAbout(c, c', l, ps) && LeaderAt(c', l)
    ensures c'.nodes[l].commitIndex >= |c'.nodes[l].log.entries|
  {
    hide Good, Leads, Matched, Voters, IsMajority;
    var a, c1 := CatchUpAll(c, l, ps);
    ReachableStays(c, c1, l, ps, ps);
    var p :| p in ps;
    var b, c2 := CatchUp(c1, l, p);
    LeadsOn(c, a, c1, b, c2);
    OnlyAboutTwice(c, c1, c2, l, ps, {p});
    assert ps + {p} == ps;
    forall x | x in ps ensures Matched(c2, l, x) { if x != p { MatchedStays(c1, c2, l, x, {p}); } }
    LeaderIsItself(c2, l);
    MatchedVote(c2, l, ps);
    steps, c' := a + b, c2;
  }

  lemma LeaderIsItself(c: Cluster, l: NodeId)
    requires LeaderAt(c, l)
    ensures LeaderKnows(c.nodes[l]) && c.nodes[l].id == l && c.nodes.Keys == c.members
  {
    hide ClusterInv;
    LeaderIs(c, l);
    NodeBase(c, l);
  }

  /** ... and then every one of them has committed it. */
  lemma AllCommit(c: Cluster, l: NodeId, ps: set<NodeId>) returns (steps: seq<Step>, c': Cluster)
    requires LeaderAt(c, l) && AllReachable(c, l, ps) && ps != {} && IsMajority(ps + {l}, c.members)
    ensures Leads(c, steps, c') && OnlyAbout(c, c', l, ps) && LeaderAt(c', l)
    ensures c'.nodes[l].commitIndex >= |c.nodes[l].log.entries|
    ensures AllMatched(c', l, ps, |c.nodes[l].log.entries|)
  {
    hide Good, Leads, Matched, Voters, IsMajority;
    var a, c1 := CommitAll(c, l, ps);
    ReachableStays(c, c1, l, ps, ps);
    var b, c2 := CatchUpAll(c1, l, ps);
    LeadsOn(c, a, c1, b, c2);
    OnlyAboutTwice(c, c1, c2, l, ps, ps);
    assert ps + ps == ps;
    steps, c' := a + b, c2;
  }

  ghost predicate Delivered(c: Cluster, q: set<NodeId>, log: seq<LogEntry>)
  {
    forall p :: p in q ==> p in c.delivered && c.delivered[p] == log
  }

  /** A node that has committed the log hands all of it out. */
  lemma TakeAll(c: Cluster, p: NodeId, log: seq<LogEntry>)
    requires Good(c) && p in c.nodes && c.nodes[p].log.entries == log && c.nodes[p].commitIndex >= |log|
    ensures var c' := Next(c, TakeCommittedStep(p));
            && c'.nodes.Keys == c.nodes.Keys && c'.members == c.members && Good(c')
            && (forall m :: m in c.nodes ==> c'.nodes[m] == c.nodes[m].(lastApplied := c'.nodes[m].lastApplied))
            && p in c'.delivered && c'.delivered[p] == log
            && (forall m :: m in c.delivered && m != p ==> m in c'.delivered && c'.delivered[m] == c.delivered[m])
  {
    hide ClusterInv, Steady;
    StepKeepsInv(c, TakeCommittedStep(p));
    StepSteady(c, TakeCommittedStep(p));
    TakeDeliversAll(c, p);
    var c' := Next(c, TakeCommittedStep(p));
    Ready(c', p);
    assert c'.nodes[p].log.entries == log;
  }

  ghost predicate Committed(c: Cluster, q: set<NodeId>, log: seq<LogEntry>)
  {
    forall p :: p in q ==> p in c.nodes && c.nodes[p].log.entries == log && c.nodes[p].commitIndex >= |log|
  }

  /** Nothing but the applied indices has changed. */
  ghost predicate OnlyTaken(c: Cluster, c': Cluster)
  {
    && c'.nodes.Keys == c.nodes.Keys && c'.members == c.members
    && (forall m :: m in c.nodes ==> c'.nodes[m] == c.nodes[m].(lastApplied := c'.nodes[m].lastApplied))
  }

  lemma {:induction false} DeliverAll(c: Cluster, q: set<NodeId>, log: seq<LogEntry>)
      returns (steps: seq<Step>, c': Cluster)
    requires Good(c) && Committed(c, q, log)
    ensures Leads(c, steps, c') && Good(c') && Delivered(c', q, log) && OnlyTaken(c, c')
    decreases |q|
  {
    hide Good, Leads, Next;
    if q == {} {
      steps, c' := [], c;
      LeadsNowhere(c);
    } else {
      var p :| p in q;
      var a, c1 := DeliverAll(c, q - {p}, log);
      assert Enabled(c1, TakeCommittedStep(p));
      TakeAll(c1, p, log);
      LeadsOne(c1, TakeCommittedStep(p));
      c' := Next(c1, TakeCommittedStep(p));
      LeadsOn(c, a, c1, [TakeCommittedStep(p)], c');
      steps := a + [TakeCommittedStep(p)];
      forall x | x in q ensures x in c'.delivered && c'.delivered[x] == log { assert x != p ==> x in q - {p}; }
    }
  }

  /**
   From any state in which `l` leads: with a majority that has not left its term there is a
   continuation after which every node of it has delivered the leader's whole log.
   */
  lemma LeaderDelivers(c: Cluster, l: NodeId, q: set<NodeId>) returns (steps: seq<Step>, c': Cluster)
    requires LeaderAt(c, l) && l in q && |q| > 1 && IsMajority(q, c.members) && AllReachable(c, l, q - {l})
    ensures Leads(c, steps, c') && LeaderAt(c', l) && c'.nodes[l].log == c.nodes[l].log
    ensures Delivered(c', q, c.nodes[l].log.entries)
  {
    hide Good, Leads, IsMajority, Matched;
    var ps, log := q - {l}, c.nodes[l].log.entries;
    assert ps + {l} == q;
    var a, c1 := AllCommit(c, l, ps);
    forall p | p in q ensures p in c1.nodes && c1.nodes[p].log.entries == log && c1.nodes[p].commitIndex >= |log| {
      if p != l { MatchedLog(c1, l, p); }
    }
    var b, c2 := DeliverAll(c1, q, log);
    LeadsOn(c, a, c1, b, c2);
    steps, c' := a + b, c2;
  }

  lemma MatchedLog(c: Cluster, l: NodeId, p: NodeId)
    requires l in c.nodes && c.nodes[l].leader.Some? && Matched(c, l, p)
    ensures p in c.nodes && c.nodes[p].log.entries == c.nodes[l].log.entries
  {
  }
}
