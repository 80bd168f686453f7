/**
 The seven ways a cluster changes the observable state, and the proof that each keeps the
 replication invariant. Every handler of a node is one of these steps or none.
 */
module ReplicationSteps {
  import opened RaftTypes
  import opened Quorums
  import opened NodeModel
  import opened Replication

  // ------------------------------------------------------------------- steps

  /** A node learns of a higher term. */
  ghost function RaiseTerm(s: State, v: NodeId, t: Term): State
    requires v in s.views
  {
    s.(views := s.views[v := s.views[v].(term := t)])
  }

  /** A node starts an election: next term, vote for itself. */
  ghost function Campaign(s: State, c: NodeId): State
    requires c in s.views
  {
    var t := s.views[c].term + 1;
    s.(views := s.views[c := s.views[c].(term := t)],
       h := s.h.(votes := s.h.votes[(t, c) := c], campaign := s.h.campaign[(t, c) := s.views[c].log]))
  }

  /** A node grants its vote in its current term. */
  ghost function Grant(s: State, v: NodeId, c: NodeId): State
    requires v in s.views
  {
    s.(h := s.h.(votes := s.h.votes[(s.views[v].term, v) := c]))
  }

  /** A candidate wins its term with the votes of `q` and appends its first entry. */
  ghost function Win(s: State, c: NodeId, q: set<NodeId>, noop: LogEntry): State
    requires c in s.views
  {
    var t, log := s.views[c].term, s.views[c].log + [noop];
    s.(views := s.views[c := s.views[c].(log := log)],
       h := s.h.(leader := s.h.leader[t := c], electors := s.h.electors[t := q], termLog := s.h.termLog[t := log],
                 accepted := s.h.accepted[(t, c) := |log|], leaderCommit := s.h.leaderCommit[t := 0]))
  }

  /** A leader appends an entry of its own term. */
  ghost function Extend(s: State, c: NodeId, e: LogEntry): State
    requires c in s.views
  {
    var t, log := s.views[c].term, s.views[c].log + [e];
    s.(views := s.views[c := s.views[c].(log := log)],
       h := s.h.(termLog := s.h.termLog[t := log], accepted := s.h.accepted[(t, c) := |log|]))
  }

  /** The follower's log after an append that ships the leader's log up to `n`. */
  ghost function Overlay(log: seq<LogEntry>, shipped: seq<LogEntry>): seq<LogEntry>
  {
    if shipped <= log then log else shipped
  }

  /** A node in term `t` accepts the leader's log up to `n` together with commit index `c`. */
  ghost function Accept(s: State, v: NodeId, n: nat, c: LogIndex): State
    requires v in s.views && s.views[v].term in s.h.termLog && n <= |s.h.termLog[s.views[v].term]|
  {
    var w := s.views[v];
    var log := Overlay(w.log, s.h.termLog[w.term][..n]);
    s.(views := s.views[v := w.(log := log, commit := if c > w.commit then c else w.commit)],
       h := s.h.(accepted := s.h.accepted[(w.term, v) := |log|]))
  }

  /** The leader of the current term commits index `n`. */
  ghost function Commit(s: State, c: NodeId, n: nat): State
    requires c in s.views
  {
    s.(views := s.views[c := s.views[c].(commit := n)],
       h := s.h.(leaderCommit := s.h.leaderCommit[s.views[c].term := n]))
  }

  // ---------------------------------------- facts that only need the evolution

  /** Steps that create no log entries keep completeness. */
  lemma CompleteStable(s: State, s': State)
    requires Evolves(s, s') && s'.h.termLog == s.h.termLog && InvComplete(s)
    ensures InvComplete(s')
  {
    forall t: Term, t2: Term, n: nat | Own(s'.h, t, n) && t2 in s'.h.termLog && t < t2
      ensures Safe(s', s'.h.termLog[t2], t, n)
    {
      assert Own(s.h, t, n);
      assert Safe(s, s.h.termLog[t2], t, n);
      SafeStable(s, s', s.h.termLog[t2], t, n);
    }
  }

  /** Granted votes stay certificates: what the voter acknowledged in left terms is frozen. */
  lemma GrantedStable(s: State, s': State, t: Term, t2: Term, v: NodeId, n: nat)
    requires Evolves(s, s') && InvGranted(s) && InvVotes(s)
    requires Own(s.h, t, n) && (t2, v) in s.h.votes && t < t2 && n <= Accepted(s'.h, t, v)
    ensures Safe(s', s.h.campaign[(t2, s.h.votes[(t2, v)])], t, n)
  {
    var log := s.h.campaign[(t2, s.h.votes[(t2, v)])];
    assert Accepted(s'.h, t, v) == Accepted(s.h, t, v);
    assert Safe(s, log, t, n);
    SafeStable(s, s', log, t, n);
  }

  lemma KeptStable(s: State, s': State, t: Term, v: NodeId, n: nat)
    requires Evolves(s, s') && InvKept(s)
    requires Own(s.h, t, n) && v in s.views && n <= Accepted(s.h, t, v)
    ensures Safe(s', s.views[v].log, t, n)
  {
    assert Safe(s, s.views[v].log, t, n);
    SafeStable(s, s', s.views[v].log, t, n);
  }

  lemma LeadersStable(s: State, s': State)
    requires Evolves(s, s') && InvLeaders(s)
    requires s'.h.leader == s.h.leader && s'.h.electors == s.h.electors && s'.h.termLog == s.h.termLog
    requires s'.h.leaderCommit.Keys == s.h.leaderCommit.Keys
    requires forall k :: k in s.h.votes ==> k in s'.h.votes && s'.h.votes[k] == s.h.votes[k]
    requires forall k :: k in s.h.campaign ==> k in s'.h.campaign && s'.h.campaign[k] == s.h.campaign[k]
    ensures InvLeaders(s')
  {
    forall t | t in s'.h.leader
      ensures LeaderOk(s', t)
    {
      assert LeaderOk(s, t);
      LogOkStable(s, s', s.h.termLog[t]);
    }
  }

  lemma CommittedByStable(h: History, h': History, t: Term, t': Term, prefix: seq<LogEntry>)
    requires CommittedBy(h, t, prefix) && t <= t'
    requires h.leaderCommit.Keys <= h'.leaderCommit.Keys && h.termLog.Keys <= h'.termLog.Keys
    requires forall w :: w in h.leaderCommit ==> h.leaderCommit[w] <= h'.leaderCommit[w]
    requires forall w :: w in h.termLog ==> h.termLog[w] <= h'.termLog[w]
    requires forall w :: w in h'.leaderCommit && w in h'.termLog ==> h'.leaderCommit[w] <= |h'.termLog[w]|
    ensures CommittedBy(h', t', prefix)
  {
    if prefix != [] {
      var w: Term :| CommittedIn(h, w, prefix) && w <= t;
      assert h'.termLog[w][..|prefix|] == h.termLog[w][..|prefix|];
      assert CommittedIn(h', w, prefix) && w <= t';
    }
  }

  lemma LeaderCommitBound(s: State)
    requires InvCommit(s)
    ensures forall w :: w in s.h.leaderCommit && w in s.h.termLog ==> s.h.leaderCommit[w] <= |s.h.termLog[w]|
  {
    forall w | w in s.h.leaderCommit && w in s.h.termLog
      ensures s.h.leaderCommit[w] <= |s.h.termLog[w]|
    {
      assert CommitOk(s, w);
    }
  }

  /** Steps that touch neither term logs nor commit indices keep the commit invariant. */
  lemma CommitStable(s: State, s': State)
    requires Evolves(s, s') && InvCommit(s)
    requires s'.h.termLog == s.h.termLog && s'.h.leaderCommit == s.h.leaderCommit && s'.h.leader == s.h.leader
    requires forall v :: v in s.views ==> s'.views[v].log == s.views[v].log && s'.views[v].commit == s.views[v].commit
    ensures InvCommit(s')
  {
    LeaderCommitBound(s);
    forall t | t in s'.h.leaderCommit
      ensures CommitOk(s', t)
    {
      assert CommitOk(s, t);
      if s.h.leaderCommit[t] > 0 { ChosenStable(s, s', t, s.h.leaderCommit[t]); }
    }
    forall v | v in s'.views
      ensures CommittedBy(s'.h, s'.views[v].term, s'.views[v].log[..s'.views[v].commit])
    {
      CommittedByStable(s.h, s'.h, s.views[v].term, s'.views[v].term, s.views[v].log[..s.views[v].commit]);
    }
  }

  // ------------------------------- steps that only move terms, votes and campaigns

  /** Logs, commit indices, leaders and acknowledgements stay; terms may rise, votes and campaigns may appear. */
  ghost predicate Quiet(s: State, s': State)
  {
    && s'.members == s.members && s'.views.Keys == s.views.Keys
    && s'.h.termLog == s.h.termLog && s'.h.accepted == s.h.accepted && s'.h.leader == s.h.leader
    && s'.h.electors == s.h.electors && s'.h.leaderCommit == s.h.leaderCommit
    && (forall v :: v in s.views ==>
          s'.views[v].log == s.views[v].log && s'.views[v].commit == s.views[v].commit
              && s.views[v].term <= s'.views[v].term)
    && (forall k :: k in s.h.votes ==> k in s'.h.votes && s'.h.votes[k] == s.h.votes[k])
    && (forall k :: k in s.h.campaign ==> k in s'.h.campaign && s'.h.campaign[k] == s.h.campaign[k])
  }

  lemma QuietEvolves(s: State, s': State)
    requires Quiet(s, s')
    ensures Evolves(s, s')
  {
  }

  lemma QuietKept(s: State, s': State)
    requires Quiet(s, s') && InvKept(s)
    ensures InvKept(s')
  {
    QuietEvolves(s, s');
    forall t: Term, v: NodeId, n: nat | Own(s'.h, t, n) && v in s'.views && n <= Accepted(s'.h, t, v)
      ensures Safe(s', s'.views[v].log, t, n)
    {
      assert Own(s.h, t, n);
      KeptStable(s, s', t, v, n);
    }
  }

  /** A leader of term `t` has already reached `t`, so nobody rises into a term it leads. */
  lemma LeaderReachedItsTerm(s: State, t: Term)
    requires InvLeaders(s) && InvCampaign(s) && t in s.h.leader
    ensures s.h.leader[t] in s.views && t <= s.views[s.h.leader[t]].term
  {
    assert LeaderOk(s, t);
    assert CampaignOk(s, t, s.h.leader[t]);
  }

  lemma QuietViews(s: State, s': State)
    requires Quiet(s, s') && InvViews(s) && InvLeaders(s) && InvCampaign(s)
    ensures InvViews(s')
  {
    QuietEvolves(s, s');
    forall v | v in s'.views
      ensures ViewOk(s', v)
    {
      assert ViewOk(s, v);
      LogOkStable(s, s', s.views[v].log);
      var t := s'.views[v].term;
      if t in s.h.leader { LeaderReachedItsTerm(s, t); }
    }
  }

  lemma QuietAccepted(s: State, s': State)
    requires Quiet(s, s') && InvAccepted(s)
    ensures InvAccepted(s')
  {
    forall t, v | (t, v) in s'.h.accepted
      ensures AcceptedOk(s', t, v)
    {
      assert AcceptedOk(s, t, v);
    }
  }

  /** Old campaigns survive: only the current term of a candidate ties its log to its campaign. */
  lemma QuietCampaign(s: State, s': State, t: Term, c: NodeId)
    requires Quiet(s, s') && InvCampaign(s) && (t, c) in s.h.campaign
    ensures CampaignOk(s', t, c)
  {
    QuietEvolves(s, s');
    assert CampaignOk(s, t, c);
    LogOkStable(s, s', s.h.campaign[(t, c)]);
  }

  lemma QuietRest(s: State, s': State)
    requires Quiet(s, s') && Inv(s)
    ensures Evolves(s, s') && InvLeaders(s') && InvViews(s') && InvAccepted(s')
    ensures InvKept(s') && InvComplete(s') && InvCommit(s')
  {
    QuietEvolves(s, s');
    LeadersStable(s, s');
    QuietViews(s, s');
    QuietAccepted(s, s');
    QuietKept(s, s');
    CompleteStable(s, s');
    CommitStable(s, s');
  }

  lemma RaiseTermInv(s: State, v: NodeId, t: Term)
    requires Inv(s) && v in s.views && t > s.views[v].term
    ensures Inv(RaiseTerm(s, v, t)) && Evolves(s, RaiseTerm(s, v, t))
  {
    var s' := RaiseTerm(s, v, t);
    QuietRest(s, s');
    forall u, c | (u, c) in s'.h.campaign
      ensures CampaignOk(s', u, c)
    {
      QuietCampaign(s, s', u, c);
    }
    SameVotesGranted(s, s');
  }

  lemma SameVotesGranted(s: State, s': State)
    requires Quiet(s, s') && InvGranted(s) && InvVotes(s) && s'.h.votes == s.h.votes && s'.h.campaign == s.h.campaign
    ensures InvGranted(s')
  {
    QuietEvolves(s, s');
    forall t: Term, t2: Term, v: NodeId, n: nat |
      Own(s'.h, t, n) && (t2, v) in s'.h.votes && t < t2 && n <= Accepted(s'.h, t, v)
      ensures Safe(s', s'.h.campaign[(t2, s'.h.votes[(t2, v)])], t, n)
    {
      assert Own(s.h, t, n);
      GrantedStable(s, s', t, t2, v, n);
    }
  }

  // ------------------------------------------------------------------ campaigns

  lemma CampaignFresh(s: State, c: NodeId)
    requires InvVotes(s) && InvCampaign(s) && c in s.views
    ensures (s.views[c].term + 1, c) !in s.h.votes && (s.views[c].term + 1, c) !in s.h.campaign
    ensures Quiet(s, Campaign(s, c)) && InvVotes(Campaign(s, c))
  {
    var t := s.views[c].term + 1;
    assert (t, c) !in s.h.campaign || CampaignOk(s, t, c);
  }

  lemma CampaignCampaigns(s: State, c: NodeId)
    requires InvCampaign(s) && InvViews(s) && c in s.views && Quiet(s, Campaign(s, c))
    ensures InvCampaign(Campaign(s, c))
  {
    var s' := Campaign(s, c);
    forall u, d | (u, d) in s'.h.campaign
      ensures CampaignOk(s', u, d)
    {
      if (u, d) == (s.views[c].term + 1, c) {
        assert ViewOk(s, c);
        QuietEvolves(s, s');
        LogOkStable(s, s', s.views[c].log);
      } else {
        QuietCampaign(s, s', u, d);
      }
    }
  }

  lemma CampaignInv(s: State, c: NodeId)
    requires Inv(s) && c in s.views
    ensures Inv(Campaign(s, c)) && Evolves(s, Campaign(s, c))
  {
    CampaignFresh(s, c);
    QuietRest(s, Campaign(s, c));
    CampaignCampaigns(s, c);
    CampaignGranted(s, c);
  }

  lemma CampaignGranted(s: State, c: NodeId)
    requires InvGranted(s) && InvVotes(s) && InvKept(s) && c in s.views && Quiet(s, Campaign(s, c))
    ensures InvGranted(Campaign(s, c))
  {
    var s' := Campaign(s, c);
    QuietEvolves(s, s');
    forall t: Term, t2: Term, v: NodeId, n: nat |
      Own(s'.h, t, n) && (t2, v) in s'.h.votes && t < t2 && n <= Accepted(s'.h, t, v)
      ensures Safe(s', s'.h.campaign[(t2, s'.h.votes[(t2, v)])], t, n)
    {
      assert Own(s.h, t, n);
      if (t2, v) in s.h.votes {
        GrantedStable(s, s', t, t2, v, n);
      } else {
        KeptStable(s, s', t, v, n);
      }
    }
  }

  // --------------------------------------------------------------------- votes

  /** Section 5.4.1: an up-to-date candidate has whatever the voter still holds of an earlier term. */
  lemma UpToDateHas(s: State, t: Term, n: nat, ours: seq<LogEntry>, theirs: seq<LogEntry>)
    requires InvLeaders(s) && InvComplete(s)
    requires Own(s.h, t, n) && Has(s.h, ours, t, n) && LogOk(s.h, ours) && LogOk(s.h, theirs)
    requires IsLogUpToDate(LastTermOf(theirs), |theirs|, LastTermOf(ours), |ours|)
    ensures Safe(s, theirs, t, n)
  {
    assert ours[n - 1] == ours[..n][n - 1] == s.h.termLog[t][..n][n - 1];
    assert t <= LastTermOf(ours);
    IsPrefixOfLastTerm(s.h, ours);
    assert LeaderOk(s, t);
    assert theirs != [];
    IsPrefixOfLastTerm(s.h, theirs);
    var t2 := LastTermOf(theirs);
    if t2 == LastTermOf(ours) {
      assert theirs[..n] == s.h.termLog[t2][..n] == ours[..n];
    } else if Has(s.h, s.h.termLog[t2], t, n) {
      assert LeaderOk(s, t2);
      ReachesPast(s.h, theirs, t, n);
    } else {
      assert Safe(s, s.h.termLog[t2], t, n);
    }
  }

  /** What `Grant` requires: a campaign in the voter's term, no other vote, an up-to-date log. */
  ghost predicate MayGrant(s: State, v: NodeId, c: NodeId)
  {
    v in s.views &&
    var t := s.views[v].term;
    && (t, c) in s.h.campaign
    && ((t, v) in s.h.votes ==> s.h.votes[(t, v)] == c)
    && IsLogUpToDate(LastTermOf(s.h.campaign[(t, c)]), |s.h.campaign[(t, c)]|, LastTermOf(s.views[v].log),
       |s.views[v].log|)
  }

  lemma GrantCampaigns(s: State, v: NodeId, c: NodeId)
    requires InvVotes(s) && InvCampaign(s) && MayGrant(s, v, c)
    ensures Quiet(s, Grant(s, v, c)) && InvVotes(Grant(s, v, c)) && InvCampaign(Grant(s, v, c))
  {
    var s' := Grant(s, v, c);
    forall u, d | (u, d) in s'.h.campaign
      ensures CampaignOk(s', u, d)
    {
      QuietCampaign(s, s', u, d);
    }
  }

  lemma NewVoteSafe(s: State, v: NodeId, c: NodeId, t: Term, n: nat)
    requires InvKept(s) && InvCampaign(s) && InvViews(s) && InvLeaders(s) && InvComplete(s)
    requires MayGrant(s, v, c) && Own(s.h, t, n) && n <= Accepted(s.h, t, v)
    ensures Safe(s, s.h.campaign[(s.views[v].term, c)], t, n)
  {
    assert Safe(s, s.views[v].log, t, n);
    if Has(s.h, s.views[v].log, t, n) {
      var theirs := s.h.campaign[(s.views[v].term, c)];
      assert ViewOk(s, v) && CampaignOk(s, s.views[v].term, c);
      UpToDateHas(s, t, n, s.views[v].log, theirs);
    }
  }

  lemma GrantGranted(s: State, v: NodeId, c: NodeId)
    requires InvGranted(s) && InvVotes(s) && MayGrant(s, v, c) && Quiet(s, Grant(s, v, c))
    requires forall t: Term, n: nat :: Own(s.h, t, n) && n <= Accepted(s.h, t, v) ==>
             Safe(s, s.h.campaign[(s.views[v].term, c)], t, n)
    ensures InvGranted(Grant(s, v, c))
  {
    var s' := Grant(s, v, c);
    QuietEvolves(s, s');
    forall t: Term, t2: Term, w: NodeId, n: nat |
      Own(s'.h, t, n) && (t2, w) in s'.h.votes && t < t2 && n <= Accepted(s'.h, t, w)
      ensures Safe(s', s'.h.campaign[(t2, s'.h.votes[(t2, w)])], t, n)
    {
      assert Own(s.h, t, n);
      if (t2, w) in s.h.votes {
        GrantedStable(s, s', t, t2, w, n);
      } else {
        SafeStable(s, s', s.h.campaign[(s.views[v].term, c)], t, n);
      }
    }
  }

  lemma GrantInv(s: State, v: NodeId, c: NodeId)
    requires Inv(s) && MayGrant(s, v, c)
    ensures Inv(Grant(s, v, c)) && Evolves(s, Grant(s, v, c))
  {
    GrantCampaigns(s, v, c);
    QuietRest(s, Grant(s, v, c));
    forall t: Term, n: nat | Own(s.h, t, n) && n <= Accepted(s.h, t, v)
      ensures Safe(s, s.h.campaign[(s.views[v].term, c)], t, n)
    {
      NewVoteSafe(s, v, c, t, n);
    }
    GrantGranted(s, v, c);
  }

  // -------------------------------------------------------- the leader's log grows

  /** Node `c` appends `e` of its own term `t`, and term log `t` is its log from now on. */
  ghost predicate Grows(s: State, s': State, c: NodeId, e: LogEntry)
  {
    && c in s.views && s'.members == s.members
    && var t, log := s.views[c].term, s.views[c].log;
    && e.term == t && e.index == |log| + 1
    && s'.views == s.views[c := s.views[c].(log := log + [e])]
    && s'.h.votes == s.h.votes && s'.h.campaign == s.h.campaign
    && s'.h.termLog == s.h.termLog[t := log + [e]]
    && s'.h.accepted == s.h.accepted[(t, c) := |log| + 1]
    && s'.h.leader == s.h.leader[t := c]
    && (t in s.h.termLog ==>
       t in s.h.leader && s.h.leader[t] == c && s.h.termLog[t] == log && s'.h.leaderCommit == s.h.leaderCommit)
    && (t !in s.h.termLog ==> s'.h.leaderCommit == s.h.leaderCommit[t := 0])
  }

  /** Only the new entry is new: everything else of term `t` was there before, and only `c` has the new one. */
  lemma GrowsOwn(s: State, s': State, c: NodeId, e: LogEntry, t: Term, n: nat)
    requires Grows(s, s', c, e) && InvViews(s) && InvAccepted(s)
    requires Own(s'.h, t, n) && !Own(s.h, t, n)
    ensures t == s.views[c].term && n == |s.views[c].log| + 1
    ensures forall v :: v != c ==> Accepted(s'.h, t, v) < n
  {
    assert ViewOk(s, c);
    var log := s.views[c].log;
    assert t == s.views[c].term;
    assert n <= |log| ==> EntryOk(s.h, log, n - 1);
    forall v | v != c
      ensures Accepted(s'.h, t, v) < n
    {
      if (t, v) in s.h.accepted { assert AcceptedOk(s, t, v); }
    }
  }

  lemma GrowsEvolves(s: State, s': State, c: NodeId, e: LogEntry)
    requires Grows(s, s', c, e) && InvAccepted(s)
    ensures Evolves(s, s')
  {
    var t, log := s.views[c].term, s.views[c].log;
    if (t, c) in s.h.accepted { assert AcceptedOk(s, t, c); }
  }

  lemma GrowsLogOk(s: State, s': State, c: NodeId, e: LogEntry)
    requires Grows(s, s', c, e) && InvViews(s) && Evolves(s, s')
    ensures LogOk(s'.h, s'.views[c].log)
  {
    var log, log' := s.views[c].log, s.views[c].log + [e];
    assert ViewOk(s, c);
    LogOkStable(s, s', log);
    forall i | 0 <= i < |log'|
      ensures EntryOk(s'.h, log', i)
    {
      if i < |log| {
        assert EntryOk(s'.h, log, i);
        assert log'[..i + 1] == log[..i + 1];
      }
    }
  }

  lemma GrowsViews(s: State, s': State, c: NodeId, e: LogEntry)
    requires Grows(s, s', c, e) && InvViews(s) && Evolves(s, s') && LogOk(s'.h, s'.views[c].log)
    ensures InvViews(s')
  {
    forall v | v in s'.views
      ensures ViewOk(s', v)
    {
      assert ViewOk(s, v);
      if v != c { LogOkStable(s, s', s.views[v].log); }
    }
  }

  lemma GrowsCampaign(s: State, s': State, c: NodeId, e: LogEntry)
    requires Grows(s, s', c, e) && InvCampaign(s) && Evolves(s, s')
    ensures InvCampaign(s')
  {
    forall u, d | (u, d) in s'.h.campaign
      ensures CampaignOk(s', u, d)
    {
      assert CampaignOk(s, u, d);
      LogOkStable(s, s', s.h.campaign[(u, d)]);
    }
  }

  lemma GrowsAccepted(s: State, s': State, c: NodeId, e: LogEntry)
    requires Grows(s, s', c, e) && InvAccepted(s) && Evolves(s, s')
    ensures InvAccepted(s')
  {
    forall u, v | (u, v) in s'.h.accepted
      ensures AcceptedOk(s', u, v)
    {
      if (u, v) != (s.views[c].term, c) {
        assert AcceptedOk(s, u, v);
        var n := s.h.accepted[(u, v)];
        assert s'.h.termLog[u][..n] == s.h.termLog[u][..n];
      } else {
        assert s'.h.termLog[u][..|s'.h.termLog[u]|] == s'.h.termLog[u];
      }
    }
  }

  lemma HasLonger(h: History, log: seq<LogEntry>, e: LogEntry, t: Term, n: nat)
    requires Has(h, log, t, n)
    ensures Has(h, log + [e], t, n)
  {
    assert (log + [e])[..n] == log[..n];
  }

  lemma GrowsKept(s: State, s': State, c: NodeId, e: LogEntry)
    requires Grows(s, s', c, e) && InvKept(s) && Evolves(s, s') && InvViews(s) && InvAccepted(s)
    ensures InvKept(s')
  {
    var now, log := s.views[c].term, s.views[c].log;
    forall t: Term, v: NodeId, n: nat | Own(s'.h, t, n) && v in s'.views && n <= Accepted(s'.h, t, v)
      ensures Safe(s', s'.views[v].log, t, n)
    {
      if v == c && t == now {
        assert Has(s'.h, s'.views[c].log, t, n);
      } else {
        if !Own(s.h, t, n) { GrowsOwn(s, s', c, e, t, n); }
        KeptStable(s, s', t, v, n);
        if v == c && Has(s'.h, log, t, n) { HasLonger(s'.h, log, e, t, n); }
      }
    }
  }

  /** Whoever elected a later leader has left term `t` and did not see the new entry. */
  lemma NewEntryBlocked(s: State, s': State, c: NodeId, e: LogEntry, t2: Term)
    requires Grows(s, s', c, e) && InvLeaders(s) && InvVotes(s) && InvViews(s) && InvAccepted(s)
    requires t2 in s.h.termLog && t2 > s.views[c].term
    requires Own(s'.h, s.views[c].term, |s.views[c].log| + 1)
    ensures Blocked(s', s.views[c].term, |s.views[c].log| + 1)
  {
    var t, n := s.views[c].term, |s.views[c].log| + 1;
    assert LeaderOk(s, t2);
    var q := s.h.electors[t2];
    assert Quorum(s', q);
    assert !Own(s.h, t, n);
    GrowsOwn(s, s', c, e, t, n);
    assert AllPast(s', q, t, n);
  }

  lemma GrowsComplete(s: State, s': State, c: NodeId, e: LogEntry)
    requires Grows(s, s', c, e) && InvComplete(s) && Evolves(s, s')
    requires InvLeaders(s) && InvVotes(s) && InvViews(s) && InvAccepted(s)
    requires forall t: Term, n: nat :: Own(s.h, t, n) && t < s.views[c].term ==> Safe(s, s.views[c].log, t, n)
    ensures InvComplete(s')
  {
    var now, log := s.views[c].term, s.views[c].log;
    forall t: Term, t2: Term, n: nat | Own(s'.h, t, n) && t2 in s'.h.termLog && t < t2
      ensures Safe(s', s'.h.termLog[t2], t, n)
    {
      if !Own(s.h, t, n) {
        GrowsOwn(s, s', c, e, t, n);
        NewEntryBlocked(s, s', c, e, t2);
      } else if t2 == now {
        SafeStable(s, s', log, t, n);
        if Has(s'.h, log, t, n) { HasLonger(s'.h, log, e, t, n); }
      } else {
        assert Safe(s, s.h.termLog[t2], t, n);
        SafeStable(s, s', s.h.termLog[t2], t, n);
      }
    }
  }

  lemma GrowsGranted(s: State, s': State, c: NodeId, e: LogEntry)
    requires Grows(s, s', c, e) && InvGranted(s) && InvVotes(s) && Evolves(s, s') && InvViews(s) && InvAccepted(s)
    ensures InvGranted(s')
  {
    forall t: Term, t2: Term, v: NodeId, n: nat |
      Own(s'.h, t, n) && (t2, v) in s'.h.votes && t < t2 && n <= Accepted(s'.h, t, v)
      ensures Safe(s', s'.h.campaign[(t2, s'.h.votes[(t2, v)])], t, n)
    {
      if !Own(s.h, t, n) { GrowsOwn(s, s', c, e, t, n); }
      GrantedStable(s, s', t, t2, v, n);
    }
  }

  lemma GrowsLeaderCommit(s: State, s': State, c: NodeId, e: LogEntry, t: Term)
    requires Grows(s, s', c, e) && InvCommit(s) && Evolves(s, s') && InvLeaders(s) && t in s'.h.leaderCommit
    ensures CommitOk(s', t)
  {
    if t in s.h.leaderCommit {
      assert CommitOk(s, t);
      var n := s.h.leaderCommit[t];
      if n > 0 {
        ChosenStable(s, s', t, n);
        assert s'.h.termLog[t][n - 1] == s.h.termLog[t][n - 1];
      }
    }
  }

  lemma GrowsCommitted(s: State, s': State, c: NodeId, e: LogEntry, v: NodeId)
    requires Grows(s, s', c, e) && Evolves(s, s') && InvCommit(s) && v in s.views
    requires s.h.termLog.Keys == s.h.leaderCommit.Keys
    ensures s'.views[v].commit <= |s'.views[v].log|
    ensures CommittedBy(s'.h, s'.views[v].term, s'.views[v].log[..s'.views[v].commit])
  {
    LeaderCommitBound(s);
    var k := s.views[v].commit;
    CommittedByStable(s.h, s'.h, s.views[v].term, s'.views[v].term, s.views[v].log[..k]);
    assert s'.views[v].log[..k] == s.views[v].log[..k];
  }

  lemma GrowsCommit(s: State, s': State, c: NodeId, e: LogEntry)
    requires Grows(s, s', c, e) && InvCommit(s) && Evolves(s, s') && InvLeaders(s)
    ensures InvCommit(s')
  {
    forall t | t in s'.h.leaderCommit
      ensures CommitOk(s', t)
    {
      GrowsLeaderCommit(s, s', c, e, t);
    }
    forall v | v in s'.views
      ensures s'.views[v].commit <= |s'.views[v].log|
      ensures CommittedBy(s'.h, s'.views[v].term, s'.views[v].log[..s'.views[v].commit])
    {
      GrowsCommitted(s, s', c, e, v);
    }
  }

  lemma GrowsRest(s: State, s': State, c: NodeId, e: LogEntry)
    requires Inv(s) && Grows(s, s', c, e)
    requires forall t: Term, n: nat :: Own(s.h, t, n) && t < s.views[c].term ==> Safe(s, s.views[c].log, t, n)
    ensures Evolves(s, s') && InvVotes(s') && InvCampaign(s') && InvViews(s') && InvAccepted(s')
    ensures InvKept(s') && InvComplete(s') && InvGranted(s') && InvCommit(s') && LogOk(s'.h, s'.views[c].log)
  {
    GrowsEvolves(s, s', c, e);
    GrowsLogOk(s, s', c, e);
    GrowsViews(s, s', c, e);
    GrowsCampaign(s, s', c, e);
    GrowsAccepted(s, s', c, e);
    GrowsKept(s, s', c, e);
    GrowsComplete(s, s', c, e);
    GrowsGranted(s, s', c, e);
    GrowsCommit(s, s', c, e);
  }

  // ------------------------------------------------------------ winning an election

  ghost predicate MayWin(s: State, c: NodeId, q: set<NodeId>, noop: LogEntry)
  {
    c in s.views &&
    var t := s.views[c].term;
    && (t, c) in s.h.campaign
    && !(t in s.h.leader && s.h.leader[t] == c)
    && Quorum(s, q)
    && (forall v :: v in q ==> (t, v) in s.h.votes && s.h.votes[(t, v)] == c)
    && noop.term == t && noop.index == |s.views[c].log| + 1
  }

  /** Election safety (section 5.2): a second majority for the same term would share a voter with the first. */
  lemma TermHasNoOtherLeader(s: State, c: NodeId, q: set<NodeId>, noop: LogEntry)
    requires InvLeaders(s) && MayWin(s, c, q, noop)
    ensures s.views[c].term !in s.h.leader && s.views[c].term !in s.h.termLog
  {
    var t := s.views[c].term;
    if t in s.h.leader {
      assert LeaderOk(s, t);
      var v := MajoritiesMeet(q, s.h.electors[t], s.members);
      assert false;
    }
  }

  /** What an earlier term may have chosen is in the log of everyone a majority elects. */
  lemma WinnerHas(s: State, c: NodeId, q: set<NodeId>, noop: LogEntry, t: Term, n: nat)
    requires InvVotes(s) && InvGranted(s) && InvCampaign(s) && MayWin(s, c, q, noop) && s.views[c].term !in s.h.leader
    requires Own(s.h, t, n) && t < s.views[c].term
    ensures Safe(s, s.views[c].log, t, n)
  {
    var now := s.views[c].term;
    assert CampaignOk(s, now, c);
    if v :| v in q && n <= Accepted(s.h, t, v) {
      assert (now, v) in s.h.votes;
      assert Safe(s, s.h.campaign[(now, s.h.votes[(now, v)])], t, n);
    } else {
      assert AllPast(s, q, t, n);
    }
  }

  lemma OtherLeaderOk(s: State, s': State, t: Term)
    requires Evolves(s, s') && InvLeaders(s) && t in s.h.leader
    requires t in s'.h.leader && t in s'.h.electors && t in s'.h.termLog
    requires s'.h.leader[t] == s.h.leader[t] && s'.h.electors[t] == s.h.electors[t] && s'.h.termLog[t] == s.h.termLog[t]
    requires s'.h.votes == s.h.votes && s'.h.campaign == s.h.campaign
    ensures LeaderOk(s', t)
  {
    assert LeaderOk(s, t);
    LogOkStable(s, s', s.h.termLog[t]);
  }

  lemma NewLeaderOk(s: State, c: NodeId, q: set<NodeId>, noop: LogEntry)
    requires InvCampaign(s) && MayWin(s, c, q, noop) && s.views[c].term !in s.h.leader
    requires LogOk(Win(s, c, q, noop).h, Win(s, c, q, noop).views[c].log)
    ensures LeaderOk(Win(s, c, q, noop), s.views[c].term)
  {
    assert CampaignOk(s, s.views[c].term, c);
  }

  lemma WinLeaders(s: State, s': State, c: NodeId, q: set<NodeId>, noop: LogEntry)
    requires c in s.views && s' == Win(s, c, q, noop) && Evolves(s, s')
    requires InvLeaders(s) && s.views[c].term !in s.h.leader && LeaderOk(s', s.views[c].term)
    ensures InvLeaders(s')
  {
    forall t | t in s'.h.leader
      ensures LeaderOk(s', t)
    {
      if t != s.views[c].term { OtherLeaderOk(s, s', t); }
    }
  }

  lemma WinInv(s: State, c: NodeId, q: set<NodeId>, noop: LogEntry)
    requires Inv(s) && MayWin(s, c, q, noop)
    ensures Inv(Win(s, c, q, noop)) && Evolves(s, Win(s, c, q, noop))
  {
    var s' := Win(s, c, q, noop);
    TermHasNoOtherLeader(s, c, q, noop);
    assert Grows(s, s', c, noop);
    forall t: Term, n: nat | Own(s.h, t, n) && t < s.views[c].term
      ensures Safe(s, s.views[c].log, t, n)
    {
      WinnerHas(s, c, q, noop, t, n);
    }
    GrowsRest(s, s', c, noop);
    NewLeaderOk(s, c, q, noop);
    WinLeaders(s, s', c, q, noop);
  }

  // -------------------------------------------------------- a leader's own entries

  ghost predicate MayExtend(s: State, c: NodeId, e: LogEntry)
  {
    c in s.views &&
    var t := s.views[c].term;
    t in s.h.leader && s.h.leader[t] == c && e.term == t && e.index == |s.views[c].log| + 1
  }

  lemma ExtendedLeaderOk(s: State, c: NodeId, e: LogEntry)
    requires InvLeaders(s) && InvViews(s) && MayExtend(s, c, e)
    requires LogOk(Extend(s, c, e).h, Extend(s, c, e).views[c].log)
    ensures LeaderOk(Extend(s, c, e), s.views[c].term)
  {
    assert ViewOk(s, c);
    assert LeaderOk(s, s.views[c].term);
  }

  lemma ExtendLeaders(s: State, c: NodeId, e: LogEntry)
    requires InvLeaders(s) && InvViews(s) && MayExtend(s, c, e)
    requires Evolves(s, Extend(s, c, e)) && LogOk(Extend(s, c, e).h, Extend(s, c, e).views[c].log)
    ensures InvLeaders(Extend(s, c, e))
  {
    var s' := Extend(s, c, e);
    forall t | t in s'.h.leader
      ensures LeaderOk(s', t)
    {
      if t != s.views[c].term { OtherLeaderOk(s, s', t); } else { ExtendedLeaderOk(s, c, e); }
    }
  }

  lemma ExtendGrows(s: State, c: NodeId, e: LogEntry)
    requires InvLeaders(s) && InvViews(s) && MayExtend(s, c, e)
    ensures Grows(s, Extend(s, c, e), c, e) && s.h.termLog[s.views[c].term] == s.views[c].log
  {
    assert ViewOk(s, c);
  }

  lemma ExtendInv(s: State, c: NodeId, e: LogEntry)
    requires Inv(s) && MayExtend(s, c, e)
    ensures Inv(Extend(s, c, e)) && Evolves(s, Extend(s, c, e))
  {
    ExtendGrows(s, c, e);
    forall t: Term, n: nat | Own(s.h, t, n) && t < s.views[c].term
      ensures Safe(s, s.views[c].log, t, n)
    {
      assert Safe(s, s.h.termLog[s.views[c].term], t, n);
    }
    GrowsRest(s, Extend(s, c, e), c, e);
    ExtendLeaders(s, c, e);
  }

  // ------------------------------------------------------------- accepting entries

  /** The shipped log ends in an entry of the leader's own term; its commit index is backed by a commit. */
  ghost predicate MayAccept(s: State, v: NodeId, n: nat, c: LogIndex)
  {
    v in s.views &&
    var t := s.views[v].term;
    Own(s.h, t, n) && c <= n && CommittedBy(s.h, t, s.h.termLog[t][..c])
  }

  /**
   Acknowledgements never over-report: after an append in term T the whole follower log, however
   long it was before, is a prefix of the leader's log and contains everything shipped.
   */
  lemma AcceptedLogIsPrefix(s: State, v: NodeId, n: nat)
    requires InvViews(s) && InvLeaders(s) && v in s.views && Own(s.h, s.views[v].term, n)
    ensures var t := s.views[v].term;
            var log := Overlay(s.views[v].log, s.h.termLog[t][..n]);
            n <= |log| && log <= s.h.termLog[t] && LogOk(s.h, log) && TermsAtMost(log, t)
            && s.h.termLog[t][..n] <= log
  {
    var t, log := s.views[v].term, s.views[v].log;
    var shipped := s.h.termLog[t][..n];
    assert ViewOk(s, v) && LeaderOk(s, t);
    if shipped <= log {
      assert log[n - 1] == shipped[n - 1];
      assert LastTermOf(log) == t;
      IsPrefixOfLastTerm(s.h, log);
    } else {
      PrefixOk(s.h, s.h.termLog[t], n);
      assert shipped[n - 1].term == t;
    }
  }

  lemma AcceptEvolves(s: State, v: NodeId, n: nat, c: LogIndex)
    requires InvAccepted(s) && MayAccept(s, v, n, c)
    ensures Evolves(s, Accept(s, v, n, c))
    ensures var t := s.views[v].term; (t, v) in s.h.accepted ==> s.views[v].log <= Accept(s, v, n, c).views[v].log
  {
    var t := s.views[v].term;
    if (t, v) in s.h.accepted {
      assert AcceptedOk(s, t, v);
      var k := s.h.accepted[(t, v)];
      assert s.views[v].log == s.h.termLog[t][..k];
      if k < n { assert s.h.termLog[t][..n][..k] == s.h.termLog[t][..k]; }
    }
  }

  lemma AcceptViews(s: State, v: NodeId, n: nat, c: LogIndex)
    requires InvViews(s) && InvLeaders(s) && MayAccept(s, v, n, c) && Evolves(s, Accept(s, v, n, c))
    ensures InvViews(Accept(s, v, n, c))
  {
    var s' := Accept(s, v, n, c);
    AcceptedLogIsPrefix(s, v, n);
    forall u | u in s'.views
      ensures ViewOk(s', u)
    {
      assert ViewOk(s, u);
      LogOkStable(s, s', s'.views[u].log);
    }
  }

  lemma AcceptCampaign(s: State, v: NodeId, n: nat, c: LogIndex)
    requires InvLeaders(s) && InvCampaign(s) && MayAccept(s, v, n, c) && Evolves(s, Accept(s, v, n, c))
    ensures InvCampaign(Accept(s, v, n, c))
  {
    var s' := Accept(s, v, n, c);
    forall u, d | (u, d) in s'.h.campaign
      ensures CampaignOk(s', u, d)
    {
      assert CampaignOk(s, u, d);
      LogOkStable(s, s', s.h.campaign[(u, d)]);
    }
  }

  lemma AcceptAccepted(s: State, v: NodeId, n: nat, c: LogIndex)
    requires InvAccepted(s) && InvViews(s) && InvLeaders(s) && MayAccept(s, v, n, c)
    ensures InvAccepted(Accept(s, v, n, c))
  {
    var s' := Accept(s, v, n, c);
    AcceptedLogIsPrefix(s, v, n);
    forall u, d | (u, d) in s'.h.accepted
      ensures AcceptedOk(s', u, d)
    {
      if (u, d) != (s.views[v].term, v) { assert AcceptedOk(s, u, d); }
    }
  }

  /** Overwriting a conflicting suffix loses nothing that can still be chosen. */
  lemma AcceptKeeps(s: State, v: NodeId, n: nat, c: LogIndex, t: Term, k: nat)
    requires InvKept(s) && InvComplete(s) && InvViews(s) && InvLeaders(s) && InvAccepted(s) && MayAccept(s, v, n, c)
    requires Own(s.h, t, k) && k <= Accepted(s.h, t, v) && t != s.views[v].term
    ensures Safe(s, Accept(s, v, n, c).views[v].log, t, k)
  {
    var now := s.views[v].term;
    var log' := Accept(s, v, n, c).views[v].log;
    assert AcceptedOk(s, t, v);
    assert Safe(s, s.views[v].log, t, k);
    if log' != s.views[v].log && !Blocked(s, t, k) {
      assert Safe(s, s.h.termLog[now], t, k);
      AcceptedLogIsPrefix(s, v, n);
      assert LastTermOf(log') == now;
      assert LeaderOk(s, now);
      ReachesPast(s.h, log', t, k);
    }
  }

  lemma AcceptKeptByFollower(s: State, v: NodeId, n: nat, c: LogIndex, t: Term, k: nat)
    requires InvKept(s) && InvComplete(s) && InvViews(s) && InvLeaders(s) && InvAccepted(s) && MayAccept(s, v, n, c)
    requires Evolves(s, Accept(s, v, n, c)) && Own(s.h, t, k) && k <= Accepted(Accept(s, v, n, c).h, t, v)
    ensures Safe(Accept(s, v, n, c), Accept(s, v, n, c).views[v].log, t, k)
  {
    var s' := Accept(s, v, n, c);
    if t == s.views[v].term {
      AcceptedLogIsPrefix(s, v, n);
      assert s'.views[v].log[..k] == s'.h.termLog[t][..k];
      assert Has(s'.h, s'.views[v].log, t, k);
    } else {
      AcceptKeeps(s, v, n, c, t, k);
      SafeStable(s, s', s'.views[v].log, t, k);
    }
  }

  lemma AcceptKept(s: State, v: NodeId, n: nat, c: LogIndex)
    requires InvKept(s) && InvComplete(s) && InvViews(s) && InvLeaders(s) && InvAccepted(s) && MayAccept(s, v, n, c)
    requires Evolves(s, Accept(s, v, n, c))
    ensures InvKept(Accept(s, v, n, c))
  {
    var s' := Accept(s, v, n, c);
    forall t: Term, u: NodeId, k: nat | Own(s'.h, t, k) && u in s'.views && k <= Accepted(s'.h, t, u)
      ensures Safe(s', s'.views[u].log, t, k)
    {
      assert Own(s.h, t, k);
      if u != v {
        KeptStable(s, s', t, u, k);
      } else {
        AcceptKeptByFollower(s, v, n, c, t, k);
      }
    }
  }

  lemma SameLogsGranted(s: State, s': State)
    requires Evolves(s, s') && InvGranted(s) && InvVotes(s)
    requires s'.h.votes == s.h.votes && s'.h.campaign == s.h.campaign && s'.h.termLog == s.h.termLog
    ensures InvGranted(s')
  {
    forall t: Term, t2: Term, v: NodeId, n: nat |
      Own(s'.h, t, n) && (t2, v) in s'.h.votes && t < t2 && n <= Accepted(s'.h, t, v)
      ensures Safe(s', s'.h.campaign[(t2, s'.h.votes[(t2, v)])], t, n)
    {
      assert Own(s.h, t, n);
      GrantedStable(s, s', t, t2, v, n);
    }
  }

  /** An append never takes back a committed entry. */
  lemma AcceptKeepsCommitted(s: State, v: NodeId, n: nat, c: LogIndex)
    requires InvCommit(s) && InvComplete(s) && MayAccept(s, v, n, c)
    ensures var k := s.views[v].commit;
            var log' := Accept(s, v, n, c).views[v].log;
            k <= |log'| && log'[..k] == s.views[v].log[..k]
  {
    var t, log, k := s.views[v].term, s.views[v].log, s.views[v].commit;
    var shipped := s.h.termLog[t][..n];
    if !(shipped <= log) && k > 0 {
      assert CommittedBy(s.h, t, log[..k]);
      var w: Term :| CommittedIn(s.h, w, log[..k]) && w <= t;
      CommittedReachesLaterLeaders(s, w, log[..k], t);
      if n < k {
        assert false;
      }
      assert shipped[..k] == s.h.termLog[t][..k];
    }
  }

  lemma FollowerCommitted(s: State, v: NodeId, n: nat, c: LogIndex)
    requires InvCommit(s) && InvComplete(s) && InvViews(s) && InvLeaders(s) && MayAccept(s, v, n, c)
    ensures var w := Accept(s, v, n, c).views[v]; w.commit <= |w.log| && CommittedBy(s.h, w.term, w.log[..w.commit])
  {
    var t, log' := s.views[v].term, Accept(s, v, n, c).views[v].log;
    AcceptKeepsCommitted(s, v, n, c);
    if c > s.views[v].commit {
      AcceptedLogIsPrefix(s, v, n);
      assert log'[..c] == s.h.termLog[t][..c];
    }
  }

  lemma AcceptCommitted(s: State, v: NodeId, n: nat, c: LogIndex, u: NodeId)
    requires InvCommit(s) && InvComplete(s) && InvViews(s) && InvLeaders(s) && MayAccept(s, v, n, c) && u in s.views
    ensures var s' := Accept(s, v, n, c);
            s'.views[u].commit <= |s'.views[u].log|
            && CommittedBy(s'.h, s'.views[u].term, s'.views[u].log[..s'.views[u].commit])
  {
    var s' := Accept(s, v, n, c);
    FollowerCommitted(s, v, n, c);
    LeaderCommitBound(s);
    CommittedByStable(s.h, s'.h, s'.views[u].term, s'.views[u].term, s'.views[u].log[..s'.views[u].commit]);
  }

  lemma AcceptCommit(s: State, v: NodeId, n: nat, c: LogIndex)
    requires InvCommit(s) && InvComplete(s) && InvViews(s) && InvLeaders(s) && MayAccept(s, v, n, c)
    requires Evolves(s, Accept(s, v, n, c))
    ensures InvCommit(Accept(s, v, n, c))
  {
    var s' := Accept(s, v, n, c);
    forall t | t in s'.h.leaderCommit
      ensures CommitOk(s', t)
    {
      assert CommitOk(s, t);
      if s.h.leaderCommit[t] > 0 { ChosenStable(s, s', t, s.h.leaderCommit[t]); }
    }
    forall u | u in s'.views
      ensures s'.views[u].commit <= |s'.views[u].log|
              && CommittedBy(s'.h, s'.views[u].term, s'.views[u].log[..s'.views[u].commit])
    {
      AcceptCommitted(s, v, n, c, u);
    }
  }

  lemma AcceptInv(s: State, v: NodeId, n: nat, c: LogIndex)
    requires Inv(s) && MayAccept(s, v, n, c)
    ensures Inv(Accept(s, v, n, c)) && Evolves(s, Accept(s, v, n, c))
  {
    var s' := Accept(s, v, n, c);
    AcceptEvolves(s, v, n, c);
    AcceptViews(s, v, n, c);
    AcceptCampaign(s, v, n, c);
    AcceptAccepted(s, v, n, c);
    AcceptKept(s, v, n, c);
    AcceptCommit(s, v, n, c);
    LeadersStable(s, s');
    CompleteStable(s, s');
    SameLogsGranted(s, s');
  }

  // -------------------------------------------------------------------- committing

  ghost predicate MayCommit(s: State, c: NodeId, n: nat)
  {
    c in s.views &&
    var t := s.views[c].term;
    t in s.h.leader && s.h.leader[t] == c && Own(s.h, t, n) && Chosen(s, t, n) && n > s.views[c].commit
  }

  lemma CommitEvolves(s: State, c: NodeId, n: nat)
    requires c in s.views
    ensures Evolves(s, Commit(s, c, n))
  {
  }

  lemma CommitCommitted(s: State, c: NodeId, n: nat, v: NodeId)
    requires InvCommit(s) && InvViews(s) && InvLeaders(s) && MayCommit(s, c, n) && v in s.views
    ensures var s' := Commit(s, c, n);
            s'.views[v].commit <= |s'.views[v].log|
            && CommittedBy(s'.h, s'.views[v].term, s'.views[v].log[..s'.views[v].commit])
  {
    var s' := Commit(s, c, n);
    var now := s.views[c].term;
    assert CommitOk(s, now) && ViewOk(s, c);
    if v == c {
      assert CommittedIn(s'.h, now, s'.views[c].log[..n]);
    } else {
      LeaderCommitBound(s);
      CommittedByStable(s.h, s'.h, s.views[v].term, s.views[v].term, s.views[v].log[..s.views[v].commit]);
    }
  }

  lemma CommitLeaderCommit(s: State, c: NodeId, n: nat, t: Term)
    requires MayCommit(s, c, n) && t in s.h.leaderCommit && CommitOk(s, t) && Evolves(s, Commit(s, c, n))
    ensures CommitOk(Commit(s, c, n), t)
  {
    var s' := Commit(s, c, n);
    if t == s.views[c].term {
      ChosenStable(s, s', t, n);
    } else if s.h.leaderCommit[t] > 0 {
      ChosenStable(s, s', t, s.h.leaderCommit[t]);
    }
  }

  lemma CommitCommit(s: State, c: NodeId, n: nat)
    requires InvCommit(s) && InvViews(s) && InvLeaders(s) && MayCommit(s, c, n) && Evolves(s, Commit(s, c, n))
    ensures InvCommit(Commit(s, c, n))
  {
    var s' := Commit(s, c, n);
    forall t | t in s'.h.leaderCommit
      ensures CommitOk(s', t)
    {
      assert CommitOk(s, t);
      CommitLeaderCommit(s, c, n, t);
    }
    forall v | v in s'.views
      ensures s'.views[v].commit <= |s'.views[v].log|
              && CommittedBy(s'.h, s'.views[v].term, s'.views[v].log[..s'.views[v].commit])
    {
      CommitCommitted(s, c, n, v);
    }
  }

  lemma CommitViews(s: State, c: NodeId, n: nat)
    requires InvViews(s) && InvCampaign(s) && InvAccepted(s) && MayCommit(s, c, n) && Evolves(s, Commit(s, c, n))
    ensures InvViews(Commit(s, c, n)) && InvCampaign(Commit(s, c, n)) && InvAccepted(Commit(s, c, n))
  {
    var s' := Commit(s, c, n);
    forall v | v in s'.views ensures ViewOk(s', v) {
      assert ViewOk(s, v);
      LogOkStable(s, s', s.views[v].log);
    }
    forall u, d | (u, d) in s'.h.campaign ensures CampaignOk(s', u, d) {
      assert CampaignOk(s, u, d);
      LogOkStable(s, s', s.h.campaign[(u, d)]);
    }
    forall u, d | (u, d) in s'.h.accepted ensures AcceptedOk(s', u, d) {
      assert AcceptedOk(s, u, d);
    }
  }

  lemma CommitKept(s: State, c: NodeId, n: nat)
    requires InvKept(s) && c in s.views && Evolves(s, Commit(s, c, n))
    ensures InvKept(Commit(s, c, n))
  {
    var s' := Commit(s, c, n);
    forall t: Term, v: NodeId, k: nat | Own(s'.h, t, k) && v in s'.views && k <= Accepted(s'.h, t, v)
      ensures Safe(s', s'.views[v].log, t, k)
    {
      assert Own(s.h, t, k);
      KeptStable(s, s', t, v, k);
    }
  }

  lemma CommitInv(s: State, c: NodeId, n: nat)
    requires Inv(s) && MayCommit(s, c, n)
    ensures Inv(Commit(s, c, n)) && Evolves(s, Commit(s, c, n))
  {
    var s' := Commit(s, c, n);
    CommitEvolves(s, c, n);
    CommitViews(s, c, n);
    CommitKept(s, c, n);
    CommitCommit(s, c, n);
    LeadersStable(s, s');
    CompleteStable(s, s');
    SameLogsGranted(s, s');
  }
}
