/**
 The commit rule. The leader tries only the values listed in its match map; the result is
 nevertheless the greatest index of all that the rule of section 5.4.2 allows.
 */
module CommitRule {
  import opened RaftTypes
  import opened RaftLogs
  import opened MembershipStates
  import opened NodeModel
  import opened Replication
  import opened Clusters
  import opened ClusterSteps
  import opened ClusterRuns

  /** Terms do not decrease along the log and none is beyond the current term. */
  ghost predicate TermsRise(log: Log, term: Term)
  {
    && log.Contiguous()
    && (forall i, j :: 0 <= i < j < |log.entries| ==> log.entries[i].term <= log.entries[j].term)
    && (forall i :: 0 <= i < |log.entries| ==> log.entries[i].term <= term)
  }

  /** No follower is recorded as holding more than the leader has. */
  ghost predicate MatchWithinLog(s: Node, ls: LeaderState)
  {
    forall id :: id in ls.matchIndex ==> ls.matchIndex[id] <= s.log.LastIndex()
  }

  lemma {:induction false} NobodyIsNoQuorum(c: Config)
    ensures CountIn(c, {}) == 0
  {
    if c != [] { NobodyIsNoQuorum(c[..|c| - 1]); }
  }

  /** Some voter has the least match value of them all. */
  lemma {:induction false} LeastMatch(ls: LeaderState, voters: set<NodeId>) returns (low: NodeId)
    requires voters != {} && voters <= ls.matchIndex.Keys
    ensures low in voters && forall v :: v in voters ==> ls.matchIndex[low] <= ls.matchIndex[v]
    decreases voters
  {
    var x :| x in voters;
    if voters == {x} {
      low := x;
    } else {
      var y := LeastMatch(ls, voters - {x});
      low := if ls.matchIndex[x] < ls.matchIndex[y] then x else y;
      assert forall v :: v in voters ==> v == x || v in voters - {x};
    }
  }

  /** Any committable index lies at or below a committable one that is listed in the match map. */
  lemma ListedAtLeast(s: Node, ls: LeaderState, n: LogIndex) returns (m: LogIndex)
    requires TermsRise(s.log, s.term) && MatchWithinLog(s, ls) && Committable(s, ls, n)
    ensures n <= m && m in CommitCandidates(s, ls)
  {
    var voters := Voters(ls, n);
    NobodyIsNoQuorum(s.membership.current);
    var low := LeastMatch(ls, voters);
    m := ls.matchIndex[low];
    assert Voters(ls, m) == voters;
    assert s.log.entries[n - s.log.snapshotIndex - 1].term <= s.log.entries[m - s.log.snapshotIndex - 1].term;
  }

  /**
   Commit advance refines its specification: over all indices, not only the listed match values,
   the new commit index is the greatest committable one, and it does not move when there is none.
   */
  lemma AdvanceIsGreatest(s: Node, n: LogIndex)
    requires s.leader.Some? && TermsRise(s.log, s.term) && MatchWithinLog(s, s.leader.value)
    ensures var c := TryAdvanceCommit(s).commitIndex;
            && c >= s.commitIndex
            && (c != s.commitIndex ==> Committable(s, s.leader.value, c))
            && (Committable(s, s.leader.value, n) ==> n <= c)
            && TryAdvanceCommit(s) == s.(commitIndex := c)
  {
    if Committable(s, s.leader.value, n) {
      var m := ListedAtLeast(s, s.leader.value, n);
    }
  }

  lemma LeaderTermsRise(c: Cluster, n: NodeId)
    requires ClusterInv(c) && n in c.nodes
    ensures TermsRise(c.nodes[n].log, c.nodes[n].term)
  {
    NodeLog(c, n);
    assert ViewOk(Abs(c), n);
    var es := c.nodes[n].log.entries;
    forall i, j | 0 <= i < j < |es|
      ensures es[i].term <= es[j].term
    {
      assert EntryOk(c.h, es, j);
    }
  }

  /** In every reachable state every leader's advance finds the greatest committable index. */
  lemma LeadersAdvanceToTheGreatest(run: seq<Cluster>, steps: seq<Step>, i: nat, a: NodeId, n: LogIndex)
    requires IsRun(run, steps) && i < |run| && a in run[i].nodes
    requires run[i].nodes[a].role == Leader && run[i].nodes[a].leader.Some?
    ensures var s := run[i].nodes[a];
            var k := TryAdvanceCommit(s).commitIndex;
            && (Committable(s, s.leader.value, n) ==> n <= k)
            && (k == s.commitIndex || (k > s.commitIndex && Committable(s, s.leader.value, k)))
  {
    var s := run[i].nodes[a];
    RunInv(run, steps, i);
    LeaderTermsRise(run[i], a);
    NodeLog(run[i], a);
    forall p | p in s.leader.value.matchIndex
      ensures s.leader.value.matchIndex[p] <= s.log.LastIndex()
    {
      NextIndexStaysInLog(run[i], a, p);
    }
    AdvanceIsGreatest(s, n);
  }
}
