/**
 The replication argument, over the part of a node that other nodes can observe (term, log,
 commit index) and a history of votes, leaders and acknowledgements that only the proof sees.

 `termLog[T]` is the log of the one leader of term T as far as it ever grew in that term. The
 whole argument rests on one shape: every log in the system is, up to each of its entries, a
 prefix of the term log named by that entry's term.
 */
module Replication {
  import opened RaftTypes
  import opened Quorums

  datatype View = View(term: Term, log: seq<LogEntry>, commit: LogIndex)

  datatype History = History(
    votes: map<(Term, NodeId), NodeId>,               // who voted for whom in which term
    campaign: map<(Term, NodeId), seq<LogEntry>>,     // a candidate's log when it campaigned
    leader: map<Term, NodeId>,
    electors: map<Term, set<NodeId>>,                 // the majority that elected the leader
    termLog: map<Term, seq<LogEntry>>,
    accepted: map<(Term, NodeId), nat>,               // length acknowledged in a term
    leaderCommit: map<Term, nat>)                     // what the leader of a term committed itself

  datatype State = State(members: set<NodeId>, views: map<NodeId, View>, h: History)

  const NO_HISTORY := History(map[], map[], map[], map[], map[], map[], map[])

  // -------------------------------------------------------------- vocabulary

  ghost function LastTermOf(log: seq<LogEntry>): Term
  {
    if log == [] then 0 else log[|log| - 1].term
  }

  ghost predicate Ordered(log: seq<LogEntry>)
  {
    forall i, j :: 0 <= i <= j < |log| ==> log[i].term <= log[j].term
  }

  ghost predicate EntryOk(h: History, log: seq<LogEntry>, i: nat)
    requires i < |log|
  {
    && log[i].index == i + 1
    && log[i].term in h.termLog
    && i < |h.termLog[log[i].term]|
    && log[..i + 1] == h.termLog[log[i].term][..i + 1]
  }

  /** Up to each entry, the log is a prefix of the term log of that entry's term. */
  ghost predicate LogOk(h: History, log: seq<LogEntry>)
  {
    && Ordered(log)
    && forall i {:trigger EntryOk(h, log, i)} :: 0 <= i < |log| ==> EntryOk(h, log, i)
  }

  ghost predicate TermsAtMost(log: seq<LogEntry>, t: Term)
  {
    forall i :: 0 <= i < |log| ==> log[i].term <= t
  }

  /** Index `n` of term log `t` was created in term `t` itself. */
  ghost predicate Own(h: History, t: Term, n: nat)
  {
    t in h.termLog && 1 <= n <= |h.termLog[t]| && h.termLog[t][n - 1].term == t
  }

  /** The log contains term log `t` up to index `n`. */
  ghost predicate Has(h: History, log: seq<LogEntry>, t: Term, n: nat)
  {
    t in h.termLog && n <= |h.termLog[t]| && n <= |log| && log[..n] == h.termLog[t][..n]
  }

  ghost function Accepted(h: History, t: Term, v: NodeId): nat
  {
    if (t, v) in h.accepted then h.accepted[(t, v)] else 0
  }

  ghost predicate Quorum(s: State, q: set<NodeId>)
  {
    q <= s.members && IsMajority(q, s.members)
  }

  ghost predicate AllAccepted(s: State, q: set<NodeId>, t: Term, n: nat)
  {
    forall v :: v in q ==> Accepted(s.h, t, v) >= n
  }

  ghost predicate AllPast(s: State, q: set<NodeId>, t: Term, n: nat)
  {
    forall v :: v in q ==> v in s.views && s.views[v].term > t && Accepted(s.h, t, v) < n
  }

  /** A majority acknowledged index `n` in term `t`. */
  ghost predicate Chosen(s: State, t: Term, n: nat)
  {
    exists q :: Quorum(s, q) && AllAccepted(s, q, t, n)
  }

  /** A majority has left term `t` without acknowledging `n`: it can never be chosen in `t`. */
  ghost predicate Blocked(s: State, t: Term, n: nat)
  {
    exists q :: Quorum(s, q) && AllPast(s, q, t, n)
  }

  ghost predicate Safe(s: State, log: seq<LogEntry>, t: Term, n: nat)
  {
    Has(s.h, log, t, n) || Blocked(s, t, n)
  }

  /** The log agrees with everything that the leader of some term up to `t` committed. */
  ghost predicate CommittedBy(h: History, t: Term, prefix: seq<LogEntry>)
  {
    || prefix == []
    || exists w: Term :: CommittedIn(h, w, prefix) && w <= t
  }

  ghost predicate CommittedIn(h: History, w: Term, prefix: seq<LogEntry>)
  {
    && w in h.leaderCommit && w in h.termLog
    && |prefix| <= h.leaderCommit[w] <= |h.termLog[w]|
    && prefix == h.termLog[w][..|prefix|]
  }

  // --------------------------------------------------------------- invariant

  ghost predicate InvVotes(s: State)
  {
    && s.views.Keys == s.members
    && (forall t, v :: (t, v) in s.h.votes ==>
          v in s.members && t <= s.views[v].term && (t, s.h.votes[(t, v)]) in s.h.campaign)
  }

  ghost predicate CampaignOk(s: State, t: Term, c: NodeId)
    requires (t, c) in s.h.campaign
  {
    var log := s.h.campaign[(t, c)];
    && c in s.views
    && 0 < t <= s.views[c].term
    && (t, c) in s.h.votes && s.h.votes[(t, c)] == c
    && LogOk(s.h, log)
    && (forall i :: 0 <= i < |log| ==> log[i].term < t)
    && (s.views[c].term == t && t !in s.h.leader ==> s.views[c].log == log)
  }

  ghost predicate InvCampaign(s: State)
  {
    forall t, c {:trigger CampaignOk(s, t, c)} :: (t, c) in s.h.campaign ==> CampaignOk(s, t, c)
  }

  ghost predicate LeaderOk(s: State, t: Term)
    requires t in s.h.leader && t in s.h.electors && t in s.h.termLog
  {
    var c, log := s.h.leader[t], s.h.termLog[t];
    && (t, c) in s.h.campaign
    && Quorum(s, s.h.electors[t])
    && (forall v :: v in s.h.electors[t] ==> (t, v) in s.h.votes && s.h.votes[(t, v)] == c)
    && s.h.campaign[(t, c)] < log
    && (forall i :: |s.h.campaign[(t, c)]| <= i < |log| ==> log[i].term == t)
    && LogOk(s.h, log)
  }

  ghost predicate InvLeaders(s: State)
  {
    && s.h.leader.Keys == s.h.electors.Keys == s.h.termLog.Keys == s.h.leaderCommit.Keys
    && forall t {:trigger LeaderOk(s, t)} :: t in s.h.leader ==> LeaderOk(s, t)
  }

  ghost predicate ViewOk(s: State, v: NodeId)
    requires v in s.views
  {
    var w := s.views[v];
    && LogOk(s.h, w.log)
    && TermsAtMost(w.log, w.term)
    && (w.term in s.h.leader && s.h.leader[w.term] == v ==> w.term in s.h.termLog && w.log == s.h.termLog[w.term])
  }

  ghost predicate InvViews(s: State)
  {
    forall v {:trigger ViewOk(s, v)} :: v in s.views ==> ViewOk(s, v)
  }

  ghost predicate AcceptedOk(s: State, t: Term, v: NodeId)
    requires (t, v) in s.h.accepted
  {
    var n := s.h.accepted[(t, v)];
    && v in s.views
    && t in s.h.termLog
    && t <= s.views[v].term
    && n <= |s.h.termLog[t]|
    && (s.views[v].term == t ==> s.views[v].log == s.h.termLog[t][..n])
  }

  ghost predicate InvAccepted(s: State)
  {
    && (forall t, v {:trigger AcceptedOk(s, t, v)} :: (t, v) in s.h.accepted ==> AcceptedOk(s, t, v))
    && (forall t :: t in s.h.leader ==> (t, s.h.leader[t]) in s.h.accepted)
  }

  /** A node keeps what it acknowledged, unless that can never be chosen any more. */
  ghost predicate InvKept(s: State)
  {
    forall t: Term, v: NodeId, n: nat {:trigger Own(s.h, t, n), s.views[v]} ::
      Own(s.h, t, n) && v in s.views && n <= Accepted(s.h, t, v) ==> Safe(s, s.views[v].log, t, n)
  }

  /** The leader of a later term has what an earlier term may have chosen. */
  ghost predicate InvComplete(s: State)
  {
    forall t: Term, t2: Term, n: nat {:trigger Own(s.h, t, n), s.h.termLog[t2]} ::
      Own(s.h, t, n) && t2 in s.h.termLog && t < t2 ==> Safe(s, s.h.termLog[t2], t, n)
  }

  /** A granted vote certifies that the candidate has what the voter acknowledged earlier. */
  ghost predicate InvGranted(s: State)
  {
    forall t: Term, t2: Term, v: NodeId, n: nat {:trigger Own(s.h, t, n), s.h.votes[(t2, v)]} ::
      Own(s.h, t, n) && (t2, v) in s.h.votes && t < t2 && n <= Accepted(s.h, t, v)
      && (t2, s.h.votes[(t2, v)]) in s.h.campaign
      ==> Safe(s, s.h.campaign[(t2, s.h.votes[(t2, v)])], t, n)
  }

  ghost predicate CommitOk(s: State, t: Term)
    requires t in s.h.leaderCommit
  {
    var n := s.h.leaderCommit[t];
    && (n > 0 ==> Own(s.h, t, n) && Chosen(s, t, n))
    && (t in s.h.leader && s.h.leader[t] in s.views ==> n <= s.views[s.h.leader[t]].commit)
  }

  ghost predicate InvCommit(s: State)
  {
    && (forall t {:trigger CommitOk(s, t)} :: t in s.h.leaderCommit ==> CommitOk(s, t))
    && (forall v :: v in s.views ==>
          s.views[v].commit <= |s.views[v].log|
          && CommittedBy(s.h, s.views[v].term, s.views[v].log[..s.views[v].commit]))
  }

  ghost predicate Inv(s: State)
  {
    && InvVotes(s) && InvCampaign(s) && InvLeaders(s) && InvViews(s) && InvAccepted(s)
    && InvKept(s) && InvComplete(s) && InvGranted(s) && InvCommit(s)
  }

  // ------------------------------------------------- prefix facts about logs

  /** Log matching: an entry's term at an index fixes the log up to that index. */
  lemma SameTermSamePrefix(h: History, a: seq<LogEntry>, b: seq<LogEntry>, i: nat)
    requires LogOk(h, a) && LogOk(h, b)
    requires i < |a| && i < |b| && a[i].term == b[i].term
    ensures a[..i + 1] == b[..i + 1]
  {
    assert EntryOk(h, a, i) && EntryOk(h, b, i);
  }

  lemma IsPrefixOfLastTerm(h: History, log: seq<LogEntry>)
    requires LogOk(h, log) && log != []
    ensures var t := LastTermOf(log); t in h.termLog && Has(h, log, t, |log|) && log <= h.termLog[t]
  {
    assert EntryOk(h, log, |log| - 1);
    assert log[..|log|] == log;
  }

  lemma PrefixOk(h: History, log: seq<LogEntry>, n: nat)
    requires LogOk(h, log) && n <= |log|
    ensures LogOk(h, log[..n])
  {
    forall i | 0 <= i < n
      ensures EntryOk(h, log[..n], i)
    {
      assert EntryOk(h, log, i);
      assert log[..n][..i + 1] == log[..i + 1];
    }
  }

  /** A log that ends in a later term reaches past everything of an earlier term that its leader has. */
  lemma ReachesPast(h: History, log: seq<LogEntry>, t: Term, n: nat)
    requires LogOk(h, log) && log != [] && t < LastTermOf(log)
    requires var t2 := LastTermOf(log); t2 in h.termLog && LogOk(h, h.termLog[t2]) && Has(h, h.termLog[t2], t, n)
    requires Own(h, t, n)
    ensures Has(h, log, t, n)
  {
    IsPrefixOfLastTerm(h, log);
    var t2 := LastTermOf(log);
    var full := h.termLog[t2];
    assert full[n - 1] == full[..n][n - 1] == h.termLog[t][..n][n - 1];
    if |log| < n {
      assert false;
    }
    assert log[..n] == full[..n];
  }

  // -------------------------------------------------------------- evolution

  /** What every step does to the shared facts: terms rise, histories grow, left terms stay frozen. */
  ghost predicate Evolves(s: State, s': State)
  {
    && s.members == s'.members
    && s.views.Keys == s'.views.Keys
    && (forall v :: v in s.views ==> s.views[v].term <= s'.views[v].term)
    && s.h.termLog.Keys <= s'.h.termLog.Keys
    && (forall t :: t in s.h.termLog ==> s.h.termLog[t] <= s'.h.termLog[t])
    && (forall t: Term, v: NodeId :: Accepted(s.h, t, v) <= Accepted(s'.h, t, v))
    && (forall t: Term, v: NodeId :: v in s.views && s.views[v].term > t ==>
         Accepted(s'.h, t, v) == Accepted(s.h, t, v))
  }

  lemma LogOkStable(s: State, s': State, log: seq<LogEntry>)
    requires Evolves(s, s') && LogOk(s.h, log)
    ensures LogOk(s'.h, log)
  {
    forall i | 0 <= i < |log|
      ensures EntryOk(s'.h, log, i)
    {
      assert EntryOk(s.h, log, i);
      var t := log[i].term;
      assert s'.h.termLog[t][..i + 1] == s.h.termLog[t][..i + 1];
    }
  }

  lemma SafeStable(s: State, s': State, log: seq<LogEntry>, t: Term, n: nat)
    requires Evolves(s, s') && Safe(s, log, t, n)
    ensures Safe(s', log, t, n)
  {
    if Has(s.h, log, t, n) {
      assert s'.h.termLog[t][..n] == s.h.termLog[t][..n];
    } else {
      var q :| Quorum(s, q) && AllPast(s, q, t, n);
      assert Quorum(s', q) && AllPast(s', q, t, n);
    }
  }

  lemma ChosenStable(s: State, s': State, t: Term, n: nat)
    requires Evolves(s, s') && Chosen(s, t, n)
    ensures Chosen(s', t, n)
  {
    var q :| Quorum(s, q) && AllAccepted(s, q, t, n);
    assert Quorum(s', q) && AllAccepted(s', q, t, n);
  }

  /** What was chosen cannot be blocked: two majorities meet. */
  lemma ChosenNotBlocked(s: State, t: Term, n: nat)
    requires Chosen(s, t, n)
    ensures !Blocked(s, t, n)
  {
    if Blocked(s, t, n) {
      var q :| Quorum(s, q) && AllAccepted(s, q, t, n);
      var p :| Quorum(s, p) && AllPast(s, p, t, n);
      var v := MajoritiesMeet(q, p, s.members);
      assert false;
    }
  }

  // -------------------------------------------------------------- main facts

  /** Section 5.4: a later leader has every entry that an earlier leader's term chose. */
  lemma LeaderCompleteness(s: State, t: Term, n: nat, t2: Term)
    requires InvComplete(s) && Own(s.h, t, n) && Chosen(s, t, n) && t2 in s.h.termLog && t <= t2
    ensures Has(s.h, s.h.termLog[t2], t, n)
  {
    ChosenNotBlocked(s, t, n);
    if t < t2 {
      assert Safe(s, s.h.termLog[t2], t, n);
    }
  }

  /** A prefix committed by some leader is in the log of every leader of the same or a later term. */
  lemma CommittedReachesLaterLeaders(s: State, w: Term, prefix: seq<LogEntry>, t: Term)
    requires InvComplete(s) && InvCommit(s) && CommittedIn(s.h, w, prefix) && w <= t && t in s.h.termLog
    ensures prefix <= s.h.termLog[t]
  {
    var n := s.h.leaderCommit[w];
    if n > 0 {
      assert CommitOk(s, w);
      LeaderCompleteness(s, w, n, t);
      assert s.h.termLog[t][..|prefix|] == s.h.termLog[t][..n][..|prefix|];
      assert s.h.termLog[w][..|prefix|] == s.h.termLog[w][..n][..|prefix|];
    }
  }

  /** State machine safety: any two committed prefixes are comparable. */
  lemma CommittedComparable(s: State, t1: Term, a: seq<LogEntry>, t2: Term, b: seq<LogEntry>)
    requires InvComplete(s) && InvCommit(s) && CommittedBy(s.h, t1, a) && CommittedBy(s.h, t2, b)
    ensures a <= b || b <= a
  {
    if a != [] && b != [] {
      var w1: Term :| CommittedIn(s.h, w1, a) && w1 <= t1;
      var w2: Term :| CommittedIn(s.h, w2, b) && w2 <= t2;
      var later := if w1 <= w2 then w2 else w1;
      CommittedReachesLaterLeaders(s, w1, a, later);
      CommittedReachesLaterLeaders(s, w2, b, later);
      var full := s.h.termLog[later];
      assert a == full[..|a|] && b == full[..|b|];
    }
  }
}
