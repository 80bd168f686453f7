/**
 What a read says about the past. A history of puts, deletes and commits is a list of single
 writes; every field that a read returns is tied to the writes of the list.
 */
module MvccHistory {
  import opened Common
  import opened Bytes
  import opened Version
  import opened MvccModel
  import opened TxnModel

  /** An operation that takes one revision; a commit is given by its buffered writes. */
  datatype StoreOp =
    | PutOp(key: Bytes, value: Bytes, leaseId: int, ttl: int)
    | DeleteOp(key: Bytes)
    | CommitOp(writes: Writes)

  ghost function Applied(s: Store, op: StoreOp): Store
    requires s.rev < U64_MAX
  {
    match op
    case PutOp(k, v, l, t) => PutVersion(s, k, v, l, t)
    case DeleteOp(k) => DeleteVersion(s, k)
    case CommitOp(ws) => Store(s.rev + 1, CommitWrites(s.vs, ws, s.rev + 1))
  }

  /** The store after the operations, from the empty one. */
  ghost function Exec(ops: seq<StoreOp>): (s: Store)
    requires |ops| <= U64_MAX
    ensures s.rev == |ops|
  {
    if ops == [] then Store(0, map[]) else Applied(Exec(ops[..|ops| - 1]), ops[|ops| - 1])
  }

  /** One write of one key; a delete has no value. */
  datatype Write = Write(rev: nat, key: Bytes, value: Option<Bytes>, leaseId: int, ttl: int)

  function CommitLog(rev: nat, ws: Writes): seq<Write>
  {
    seq(|ws|, i requires 0 <= i < |ws| => Write(rev, ws[i].0, ws[i].1, 0, 0))
  }

  function WritesAt(rev: nat, op: StoreOp): seq<Write>
  {
    match op
    case PutOp(k, v, l, t) => [Write(rev, k, Some(v), l, t)]
    case DeleteOp(k) => [Write(rev, k, None, 0, 0)]
    case CommitOp(ws) => CommitLog(rev, ws)
  }

  /** The single writes of a history, in order. */
  function WriteLog(ops: seq<StoreOp>): seq<Write>
  {
    if ops == [] then [] else WriteLog(ops[..|ops| - 1]) + WritesAt(|ops|, ops[|ops| - 1])
  }

  // ------------------------------------------------------- what the list says of a key

  predicate IsLast(log: seq<Write>, k: Bytes, m: nat)
  {
    m < |log| && log[m].key == k && forall i :: m < i < |log| ==> log[i].key != k
  }

  predicate DeletedBetween(log: seq<Write>, k: Bytes, i: nat, c: nat)
    requires c <= |log|
  {
    exists d :: i <= d < c && log[d].key == k && log[d].value.None?
  }

  /** The first put of the key after its last delete. */
  predicate IsCreation(log: seq<Write>, k: Bytes, c: nat)
  {
    && c < |log| && log[c].key == k
    && (forall i :: c <= i < |log| && log[i].key == k ==> log[i].value.Some?)
    && (forall i :: 0 <= i < c && log[i].key == k ==> DeletedBetween(log, k, i, c))
  }

  ghost predicate Records(log: seq<Write>, k: Bytes, v: VersionedValue, m: nat, c: nat)
  {
    && IsLast(log, k, m)
    && v.value == log[m].value && v.modRevision == log[m].rev
    && v.leaseId == log[m].leaseId && v.ttlSeconds == log[m].ttl
    && (if v.value.Some? then IsCreation(log, k, c) && v.createRevision == log[c].rev else v.createRevision == 0)
  }

  /** The version is the last write of the key, with the revision of its creation. */
  ghost predicate Describes(log: seq<Write>, k: Bytes, v: Option<VersionedValue>)
  {
    match v
    case None => forall i :: 0 <= i < |log| ==> log[i].key != k
    case Some(vv) => exists m: nat, c: nat :: Records(log, k, vv, m, c)
  }

  // --------------------------------------------------------------- one more write

  lemma StillDeletedBetween(log: seq<Write>, w: Write, k: Bytes, i: nat, c: nat)
    requires c <= |log| && DeletedBetween(log, k, i, c)
    ensures DeletedBetween(log + [w], k, i, c)
  {
    var d :| i <= d < c && log[d].key == k && log[d].value.None?;
    assert (log + [w])[d] == log[d];
  }

  lemma CreationStays(log: seq<Write>, w: Write, k: Bytes, c: nat)
    requires IsCreation(log, k, c) && (w.key == k ==> w.value.Some?)
    ensures c < |log| && IsCreation(log + [w], k, c)
  {
    hide DeletedBetween;
    forall i | 0 <= i < c && (log + [w])[i].key == k ensures DeletedBetween(log + [w], k, i, c) {
      StillDeletedBetween(log, w, k, i, c);
    }
  }

  lemma OtherKeyWritten(log: seq<Write>, k: Bytes, v: Option<VersionedValue>, w: Write)
    requires Describes(log, k, v) && w.key != k
    ensures Describes(log + [w], k, v)
  {
    hide IsCreation;
    if v.Some? {
      var m: nat, c: nat :| Records(log, k, v.value, m, c);
      if v.value.value.Some? { CreationStays(log, w, k, c); }
      assert Records(log + [w], k, v.value, m, c);
    }
  }

  /** The creation revision that a write of a value finds. */
  function Created(v: Option<VersionedValue>, rev: nat): nat
  {
    if v.Some? && v.value.value.Some? then v.value.createRevision else rev
  }

  lemma CreatedAnew(log: seq<Write>, v: Option<VersionedValue>, w: Write)
    requires Describes(log, w.key, v) && w.value.Some? && !(v.Some? && v.value.value.Some?)
    ensures IsCreation(log + [w], w.key, |log|)
  {
    if v.Some? {
      var m: nat, c: nat :| Records(log, w.key, v.value, m, c);
      assert (log + [w])[m] == log[m];
      assert forall i :: 0 <= i < |log| && log[i].key == w.key ==> i <= m;
    }
  }

  lemma KeyWritten(log: seq<Write>, v: Option<VersionedValue>, w: Write, vv: VersionedValue)
    requires Describes(log, w.key, v)
    requires vv.value == w.value && vv.modRevision == w.rev && vv.leaseId == w.leaseId && vv.ttlSeconds == w.ttl
    requires vv.createRevision == if w.value.Some? then Created(v, w.rev) else 0
    ensures Describes(log + [w], w.key, Some(vv))
  {
    hide IsCreation;
    var c := |log|;
    if w.value.Some? {
      if v.Some? && v.value.value.Some? {
        var m: nat, c0: nat :| Records(log, w.key, v.value, m, c0);
        c := c0;
        CreationStays(log, w, w.key, c);
      } else {
        CreatedAnew(log, v, w);
      }
    }
    assert Records(log + [w], w.key, vv, |log|, c);
  }

  // ------------------------------------------------------------------ whole histories

  /** Nothing lies above the revision, and the latest version of every key is as the list says. */
  ghost predicate Reflects(vs: Versions, rev: nat, log: seq<Write>)
  {
    && (forall p :: p in vs ==> p.1 <= rev)
    && (forall k {:trigger VersionAt(vs, k, U64_MAX)} :: Describes(log, k, VersionAt(vs, k, U64_MAX)))
  }

  lemma TopWrite(vs: Versions, k: Bytes, rev: Revision, v: VersionedValue, x: Bytes)
    requires forall p :: p in vs ==> p.1 <= rev
    ensures VersionAt(vs[(k, rev) := v], x, U64_MAX) == if x == k then Some(v) else VersionAt(vs, x, U64_MAX)
  {
    var vs' := vs[(k, rev) := v];
    LatestAtExactly(vs, x, U64_MAX);
    LatestAtExactly(vs', x, U64_MAX);
    if x == k { LatestAtIs(vs', k, U64_MAX, rev); }
  }

  lemma OneWrite(vs: Versions, rev: nat, log: seq<Write>, w: Write, v: VersionedValue)
    requires Reflects(vs, rev, log) && rev <= w.rev <= U64_MAX
    requires v.value == w.value && v.modRevision == w.rev && v.leaseId == w.leaseId && v.ttlSeconds == w.ttl
    requires v.createRevision == if w.value.Some? then Created(VersionAt(vs, w.key, U64_MAX), w.rev) else 0
    ensures Reflects(vs[(w.key, w.rev) := v], w.rev, log + [w])
  {
    hide Describes, VersionAt, Created;
    var vs' := vs[(w.key, w.rev) := v];
    forall k ensures Describes(log + [w], k, VersionAt(vs', k, U64_MAX)) {
      TopWrite(vs, w.key, w.rev, v, k);
      assert Describes(log, k, VersionAt(vs, k, U64_MAX));
      if k == w.key {
        KeyWritten(log, VersionAt(vs, k, U64_MAX), w, v);
      } else {
        OtherKeyWritten(log, k, VersionAt(vs, k, U64_MAX), w);
      }
    }
  }

  /** What a commit carries over is what a put carries over. */
  lemma CommitCreates(vs: Versions, k: Bytes, v: Option<Bytes>, rev: nat)
    ensures var w := CommitVersion(vs, k, v, rev);
            && w.value == v && w.modRevision == rev && w.leaseId == 0 && w.ttlSeconds == 0
            && w.createRevision == if v.Some? then Created(VersionAt(vs, k, U64_MAX), rev) else 0
  {
    hide VersionAt;
  }

  lemma {:induction false} CommitReflects(vs: Versions, rev: nat, log: seq<Write>, ws: Writes)
    requires Reflects(vs, rev, log) && rev < U64_MAX
    ensures Reflects(CommitWrites(vs, ws, rev + 1), rev + 1, log + CommitLog(rev + 1, ws))
    decreases |ws|
  {
    hide Reflects, CommitVersion;
    if ws == [] {
      assert log + CommitLog(rev + 1, ws) == log;
      Later(vs, rev, log);
    } else {
      var n := |ws| - 1;
      var before := CommitWrites(vs, ws[..n], rev + 1);
      CommitReflects(vs, rev, log, ws[..n]);
      CommitCreates(before, ws[n].0, ws[n].1, rev + 1);
      var w := Write(rev + 1, ws[n].0, ws[n].1, 0, 0);
      OneWrite(before, rev + 1, log + CommitLog(rev + 1, ws[..n]), w, CommitVersion(before, w.key, w.value, w.rev));
      assert log + CommitLog(rev + 1, ws) == log + CommitLog(rev + 1, ws[..n]) + [w];
    }
  }

  lemma Later(vs: Versions, rev: nat, log: seq<Write>)
    requires Reflects(vs, rev, log)
    ensures Reflects(vs, rev + 1, log)
  {
  }

  lemma {:induction false} HistoryReflects(ops: seq<StoreOp>)
    requires |ops| <= U64_MAX
    ensures Reflects(Exec(ops).vs, |ops|, WriteLog(ops))
    decreases |ops|
  {
    hide Reflects, VersionAt, CommitWrites;
    if ops == [] {
      NothingWritten();
    } else {
      var n := |ops| - 1;
      var s, log := Exec(ops[..n]), WriteLog(ops[..n]);
      HistoryReflects(ops[..n]);
      match ops[n] {
        case PutOp(k, v, l, t) =>
          OneWrite(s.vs, n, log, Write(n + 1, k, Some(v), l, t), PutVersion(s, k, v, l, t).vs[(k, n + 1)]);
        case DeleteOp(k) =>
          OneWrite(s.vs, n, log, Write(n + 1, k, None, 0, 0), VersionedValue(None, 0, n + 1, 0, 0));
        case CommitOp(ws) =>
          CommitReflects(s.vs, n, log, ws);
      }
    }
  }

  lemma NothingWritten()
    ensures Reflects(map[], 0, [])
  {
    forall k ensures VersionAt(map[], k, U64_MAX) == None { LatestAtExactly(map[], k, U64_MAX); }
  }

  // -------------------------------------------------------------------- reads at a revision

  lemma {:induction false} CommitWritesAbove(vs: Versions, ws: Writes, rev: Revision, p: (Bytes, Revision))
    requires p.1 != rev
    ensures var vs' := CommitWrites(vs, ws, rev); (p in vs' <==> p in vs) && (p in vs ==> vs'[p] == vs[p])
  {
    if ws != [] { CommitWritesAbove(vs, ws[..|ws| - 1], rev, p); }
  }

  lemma AppliedAbove(s: Store, op: StoreOp, p: (Bytes, Revision))
    requires s.rev < U64_MAX && p.1 <= s.rev
    ensures var vs' := Applied(s, op).vs; (p in vs' <==> p in s.vs) && (p in s.vs ==> vs'[p] == s.vs[p])
  {
    if op.CommitOp? { CommitWritesAbove(s.vs, op.writes, s.rev + 1, p); }
  }

  /** Later operations leave reads at a reached revision alone. */
  lemma {:induction false} LaterOpsUnseen(ops: seq<StoreOp>, k: Bytes, r: nat)
    requires r <= |ops| <= U64_MAX
    ensures ReadAt(Exec(ops).vs, k, r) == ReadAt(Exec(ops[..r]).vs, k, r)
    decreases |ops|
  {
    if r == |ops| {
      assert ops[..r] == ops;
    } else {
      var n := |ops| - 1;
      var s, op := Exec(ops[..n]), ops[n];
      LaterOpsUnseen(ops[..n], k, r);
      assert ops[..n][..r] == ops[..r];
      forall y: Revision | y <= r
        ensures ((k, y) in s.vs <==> (k, y) in Applied(s, op).vs)
        ensures (k, y) in s.vs ==> Applied(s, op).vs[(k, y)] == s.vs[(k, y)]
      {
        AppliedAbove(s, op, (k, y));
      }
      ReadsAreStable(s.vs, Applied(s, op).vs, k, r);
    }
  }

  lemma {:induction false} LatestFromTop(vs: Versions, k: Bytes, rev: Revision, r: Revision)
    requires (forall p :: p in vs ==> p.1 <= rev) && rev <= r
    ensures LatestAt(vs, k, r) == LatestAt(vs, k, rev)
    decreases r
  {
    if r > rev { LatestFromTop(vs, k, rev, r - 1); }
  }

  /** The fields of an answer, by the writes of the list: `m` is the last write of the key, `c` created it. */
  predicate Answers(log: seq<Write>, k: Bytes, kv: KeyValue, m: nat, c: nat)
  {
    && IsLast(log, k, m) && IsCreation(log, k, c)
    && kv.key == k && log[m].value == Some(kv.value)
    && kv.modRevision == log[m].rev && kv.leaseId == log[m].leaseId && kv.createRevision == log[c].rev
  }

  /** The key was never written, or deleted last. */
  ghost predicate Absent(log: seq<Write>, k: Bytes)
  {
    forall m: nat :: IsLast(log, k, m) ==> log[m].value.None?
  }

  lemma ShownAnswers(log: seq<Write>, k: Bytes, v: Option<VersionedValue>)
    requires Describes(log, k, v)
    ensures match Shown(k, v)
            case None => Absent(log, k)
            case Some(kv) => !Absent(log, k) && exists m: nat, c: nat :: Answers(log, k, kv, m, c)
  {
    hide IsCreation;
    if v.Some? {
      var m: nat, c: nat :| Records(log, k, v.value, m, c);
      if v.value.value.Some? {
        assert Answers(log, k, Shown(k, v).value, m, c);
        assert IsLast(log, k, m);
      } else {
        forall i: nat | IsLast(log, k, i) ensures i == m {}
      }
    }
  }

  /**
   Over every history of puts, deletes and commits, and at every revision reached: a read answers
   nothing exactly for a key that was never written or deleted last, and else the value, the
   revision and the lease of its last write, and as creation revision that of the first put after
   its last delete.
   */
  lemma ReadsTellHistory(ops: seq<StoreOp>, k: Bytes, r: nat)
    requires r <= |ops| <= U64_MAX
    ensures var log := WriteLog(ops[..r]);
            match ReadAt(Exec(ops).vs, k, r)
            case None => Absent(log, k)
            case Some(kv) => !Absent(log, k) && exists m: nat, c: nat :: Answers(log, k, kv, m, c)
  {
    hide Exec, WriteLog, Describes, Absent, Answers, Shown, LatestAt;
    var vs, log := Exec(ops[..r]).vs, WriteLog(ops[..r]);
    LaterOpsUnseen(ops, k, r);
    HistoryReflects(ops[..r]);
    LatestFromTop(vs, k, r, U64_MAX);
    assert Describes(log, k, VersionAt(vs, k, U64_MAX));
    ShownAnswers(log, k, VersionAt(vs, k, r));
  }
}
