/**
 What the conflict loop of `handle_append_entries` does to a log: it keeps the log when every
 shipped entry is already there, and otherwise cuts at the first mismatch and appends the rest.
 */
module AppendMerge {
  import opened RaftTypes
  import opened RaftLogs
  import opened NodeModel
  import opened Replication
  import opened ReplicationSteps

  /** Entries that follow index `prev` without a gap. */
  predicate Follows(entries: seq<LogEntry>, prev: LogIndex)
  {
    forall j :: 0 <= j < |entries| ==> entries[j].index == prev + 1 + j
  }

  /** Entry `j` is already in the log, as far as its term can tell. */
  predicate Present(log: Log, entries: seq<LogEntry>, j: nat)
    requires j < |entries|
  {
    log.Get(entries[j].index).Some? && log.Get(entries[j].index).value.term == entries[j].term
  }

  lemma {:induction false} SkipPresent(log: Log, entries: seq<LogEntry>, d: nat)
    requires d <= |entries| && forall j :: 0 <= j < d ==> Present(log, entries, j)
    ensures Reconcile(log, [], entries) == Reconcile(log, [], entries[d..])
    decreases d
  {
    if d == 0 {
      assert entries[0..] == entries;
    } else {
      assert Present(log, entries, 0);
      forall j | 0 <= j < d - 1
        ensures Present(log, entries[1..], j)
      {
        assert Present(log, entries, j + 1);
      }
      SkipPresent(log, entries[1..], d - 1);
      assert entries[1..][d - 1..] == entries[d..];
    }
  }

  lemma {:induction false} TakeAbsent(log: Log, added: seq<LogEntry>, entries: seq<LogEntry>)
    requires forall j :: 0 <= j < |entries| ==> log.Get(entries[j].index).None?
    ensures Reconcile(log, added, entries) == (log, added + entries)
    decreases |entries|
  {
    if entries == [] {
      assert added + entries == added;
    } else {
      assert log.Get(entries[0].index).None?;
      TakeAbsent(log, added + [entries[0]], entries[1..]);
      assert added + [entries[0]] + entries[1..] == added + entries;
    }
  }

  /** The first shipped entry that is not present. */
  lemma {:induction false} FirstMismatch(log: Log, entries: seq<LogEntry>) returns (d: nat)
    ensures d <= |entries| && (forall j :: 0 <= j < d ==> Present(log, entries, j))
    ensures d < |entries| ==> !Present(log, entries, d)
    decreases |entries|
  {
    if entries == [] || !Present(log, entries, 0) {
      d := 0;
    } else {
      var k := FirstMismatch(log, entries[1..]);
      d := k + 1;
      forall j | 0 <= j < d
        ensures Present(log, entries, j)
      {
        if j > 0 { assert Present(log, entries[1..], j - 1); }
      }
    }
  }

  lemma MergeShape(log: Log, prev: LogIndex, entries: seq<LogEntry>) returns (d: nat)
    requires log.Contiguous() && Follows(entries, prev)
             && log.snapshotIndex <= prev <= log.snapshotIndex + |log.entries|
    ensures d <= |entries| && (forall j :: 0 <= j < d ==> Present(log, entries, j))
    ensures d < |entries| ==> !Present(log, entries, d)
    ensures prev + d <= log.snapshotIndex + |log.entries|
    ensures MergeEntries(log, entries) == if d == |entries| then log
            else log.TruncateAfter(prev + d).Append(entries[d..])
  {
    d := FirstMismatch(log, entries);
    assert d > 0 ==> Present(log, entries, d - 1);
    SkipPresent(log, entries, d);
    if d == |entries| {
      assert entries[d..] == [] && log.entries + [] == log.entries;
    } else {
      var cut := log.TruncateAfter(prev + d);
      var rest := entries[d + 1..];
      assert entries[d..][1..] == rest && entries[d..] == [entries[d]] + rest;
      forall j | 0 <= j < |rest|
        ensures cut.Get(rest[j].index).None?
      {
        assert rest[j].index == prev + 1 + (d + 1 + j);
      }
      TakeAbsent(cut, [entries[d]], rest);
      if log.Get(entries[d].index).None? {
        assert prev + d == log.snapshotIndex + |log.entries|;
        assert cut == log;
      }
      var none: seq<LogEntry> := [];
      assert none + [entries[d]] == [entries[d]] && entries[d..][0] == entries[d];
      assert Reconcile(log, [], entries[d..]) == Reconcile(cut, [entries[d]], rest);
    }
  }

  lemma AgreeUpToMismatch(h: History, log: Log, prev: LogIndex, shipped: seq<LogEntry>, d: nat)
    requires log.snapshotIndex == 0 && LogOk(h, log.entries) && LogOk(h, shipped) && Follows(shipped, 0)
    requires prev + d <= |shipped| && prev + d <= |log.entries|
    requires prev > 0 ==> log.entries[prev - 1].term == shipped[prev - 1].term
    requires forall j :: 0 <= j < d ==> Present(log, shipped[prev..], j)
    ensures log.entries[..prev + d] == shipped[..prev + d]
  {
    if prev + d > 0 {
      assert d > 0 ==> Present(log, shipped[prev..], d - 1);
      SameTermSamePrefix(h, log.entries, shipped, prev + d - 1);
    }
  }

  lemma CutAndCopy(log: Log, prev: LogIndex, shipped: seq<LogEntry>, d: nat)
    requires log.snapshotIndex == 0 && Follows(shipped, 0)
    requires prev + d <= |shipped| && prev + d <= |log.entries|
    requires log.entries[..prev + d] == shipped[..prev + d]
    requires prev + d < |shipped| ==> !Present(log, shipped[prev..], d)
    ensures (if prev + d == |shipped| then log else log.TruncateAfter(prev + d).Append(shipped[prev..][d..]))
            == log.(entries := Overlay(log.entries, shipped))
  {
    var i := prev + d;
    if i == |shipped| {
      assert shipped[..i] == shipped;
    } else {
      assert shipped[prev..][d] == shipped[i];
      assert i == |log.entries| || log.entries[i].term != shipped[i].term;
      assert !(shipped <= log.entries);
      assert log.TruncateAfter(i).entries == log.entries[..i];
      assert shipped[prev..][d..] == shipped[i..];
      assert shipped == shipped[..i] + shipped[i..];
    }
  }

  /**
   On logs that obey log matching, the merge is the overlay of the replication argument: the
   follower keeps its log if the leader's log is a prefix of it, and copies the leader otherwise.
   */
  lemma MergeIsOverlay(h: History, log: Log, prev: LogIndex, shipped: seq<LogEntry>)
    requires log.snapshotIndex == 0 && log.Contiguous() && LogOk(h, log.entries) && LogOk(h, shipped)
    requires prev <= |shipped| && prev <= |log.entries|
    requires prev > 0 ==> log.entries[prev - 1].term == shipped[prev - 1].term
    requires Follows(shipped, 0)
    ensures MergeEntries(log, shipped[prev..]) == log.(entries := Overlay(log.entries, shipped))
  {
    var d := MergeShape(log, prev, shipped[prev..]);
    AgreeUpToMismatch(h, log, prev, shipped, d);
    CutAndCopy(log, prev, shipped, d);
  }

  /** After a merge every shipped entry is present. */
  lemma MergedIsPresent(log: Log, prev: LogIndex, entries: seq<LogEntry>)
    requires log.Contiguous() && Follows(entries, prev)
             && log.snapshotIndex <= prev <= log.snapshotIndex + |log.entries|
    ensures var m := MergeEntries(log, entries);
            && m.Contiguous() && m.snapshotIndex == log.snapshotIndex && m.snapshotTerm == log.snapshotTerm
            && prev + |entries| <= m.snapshotIndex + |m.entries|
            && (forall j :: 0 <= j < |entries| ==> Present(m, entries, j))
  {
    var m := MergeEntries(log, entries);
    var d := MergeShape(log, prev, entries);
    if d < |entries| {
      var keep := prev + d - log.snapshotIndex;
      assert log.TruncateAfter(prev + d).entries == log.entries[..keep];
      assert m.entries == log.entries[..keep] + entries[d..];
      forall j | 0 <= j < |entries|
        ensures Present(m, entries, j)
      {
        if j < d {
          assert Present(log, entries, j);
          assert m.entries[prev + j - log.snapshotIndex] == log.entries[prev + j - log.snapshotIndex];
        } else {
          assert m.entries[prev + j - log.snapshotIndex] == entries[j];
        }
      }
    }
  }

  /** Merging the same entries a second time changes nothing. */
  lemma MergeTwice(log: Log, prev: LogIndex, entries: seq<LogEntry>)
    requires log.Contiguous() && Follows(entries, prev)
             && log.snapshotIndex <= prev <= log.snapshotIndex + |log.entries|
    ensures MergeEntries(MergeEntries(log, entries), entries) == MergeEntries(log, entries)
  {
    var m := MergeEntries(log, entries);
    MergedIsPresent(log, prev, entries);
    SkipPresent(m, entries, |entries|);
    assert entries[|entries|..] == [] && m.entries + [] == m.entries;
  }

  /** A request whose entries follow its anchor; every request made by a leader has this shape. */
  predicate WellFormedRequest(log: Log, req: AppendRequest)
  {
    Follows(req.entries, req.prevLogIndex) && log.snapshotIndex <= req.prevLogIndex
  }

  /** A request anchored in the log stays anchored after it was merged. */
  lemma AnchorSurvives(log: Log, prev: LogIndex, prevTerm: Term, entries: seq<LogEntry>)
    requires log.Contiguous() && Follows(entries, prev) && log.snapshotIndex <= prev
    requires prev == 0 || log.MatchTerm(prev, prevTerm)
    ensures prev <= log.snapshotIndex + |log.entries|
    ensures prev == 0 || MergeEntries(log, entries).MatchTerm(prev, prevTerm)
  {
    var d := MergeShape(log, prev, entries);
    if d < |entries| && prev > log.snapshotIndex {
      var k := prev - log.snapshotIndex - 1;
      assert log.TruncateAfter(prev + d).entries[k] == log.entries[k];
    }
  }

  /** Delivering the same append twice leaves the node exactly as delivering it once. */
  lemma AppendIsIdempotent(s: Node, req: AppendRequest)
    requires s.log.Contiguous() && WellFormedRequest(s.log, req)
    ensures var once := HandleAppendEntries(s, req);
            HandleAppendEntries(once.0, req).0 == once.0 && HandleAppendEntries(once.0, req).1 == once.1
  {
    var prev := req.prevLogIndex;
    if prev == 0 || s.log.MatchTerm(prev, req.prevLogTerm) {
      AnchorSurvives(s.log, prev, req.prevLogTerm, req.entries);
      MergeTwice(s.log, prev, req.entries);
    }
  }
}
