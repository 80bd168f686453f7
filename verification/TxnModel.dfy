/**
 Optimistic transactions: a snapshot, a read set, buffered writes, validation at commit. Every
 history of direct writes and commits equals a serial one over a plain map.
 */
module TxnModel {
  import opened Common
  import opened Bytes
  import opened Version
  import opened MvccModel
  import opened Mvcc

  type Writes = seq<(Bytes, Option<Bytes>)>

  datatype Txn = Txn(start: nat, readSet: seq<(Bytes, nat)>, writeSet: Writes)

  datatype TxnError = Conflict

  /** The last buffered write of the key. */
  function Buffered(ws: Writes, k: Bytes): Option<Option<Bytes>>
  {
    if ws == [] then None
    else if ws[|ws| - 1].0 == k then Some(ws[|ws| - 1].1)
    else Buffered(ws[..|ws| - 1], k)
  }

  function ModOf(kv: Option<KeyValue>): nat
  {
    match kv
    case Some(x) => x.modRevision
    case None => 0
  }

  function ValueOf(kv: Option<KeyValue>): Option<Bytes>
  {
    match kv
    case Some(x) => Some(x.value)
    case None => None
  }

  /** Own writes first; else the store's answer, recorded in the read set. */
  function Answered(t: Txn, k: Bytes, kv: Option<KeyValue>): (Txn, Option<Bytes>)
  {
    match Buffered(t.writeSet, k)
    case Some(v) => (t, v)
    case None => (t.(readSet := t.readSet + [(k, ModOf(kv))]), ValueOf(kv))
  }

  ghost function TxnGet(t: Txn, vs: Versions, k: Bytes): (Txn, Option<Bytes>)
    requires t.start <= U64_MAX
  {
    Answered(t, k, ReadAt(vs, k, t.start))
  }

  function TxnWrite(t: Txn, k: Bytes, v: Option<Bytes>): Txn
  {
    t.(writeSet := t.writeSet + [(k, v)])
  }

  ghost predicate Validates(vs: Versions, readSet: seq<(Bytes, nat)>)
  {
    forall i :: 0 <= i < |readSet| ==> ModOf(ReadAt(vs, readSet[i].0, U64_MAX)) == readSet[i].1
  }

  ghost function CommitVersion(vs: Versions, k: Bytes, v: Option<Bytes>, rev: nat): VersionedValue
  {
    var create :=
      if v.None? then 0
      else match ReadAt(vs, k, U64_MAX)
           case Some(kv) => kv.createRevision
           case None => rev;
    VersionedValue(v, create, rev, 0, 0)
  }

  /** All writes, in order, at one revision. */
  ghost function CommitWrites(vs: Versions, ws: Writes, rev: Revision): Versions
  {
    if ws == [] then vs
    else
      var before := CommitWrites(vs, ws[..|ws| - 1], rev);
      var (k, v) := ws[|ws| - 1];
      before[(k, rev) := CommitVersion(before, k, v, rev)]
  }

  ghost function Commit(s: Store, t: Txn): (Store, Result<nat, TxnError>)
    requires s.rev < U64_MAX
  {
    if t.writeSet == [] then (s, Ok(t.start))
    else if !Validates(s.vs, t.readSet) then (s, Err(Conflict))
    else (Store(s.rev + 1, CommitWrites(s.vs, t.writeSet, s.rev + 1)), Ok(s.rev + 1))
  }

  // ------------------------------------------------------------ serial meaning

  datatype TxnOp = TxnRead(key: Bytes) | TxnPut(key: Bytes, value: Bytes) | TxnDelete(key: Bytes)

  type Outs = seq<Option<Bytes>>

  function Lookup(m: map<Bytes, Bytes>, k: Bytes): Option<Bytes>
  {
    if k in m then Some(m[k]) else None
  }

  /** The operations applied one by one to a plain map. */
  function SerialResult(m: map<Bytes, Bytes>, ops: seq<TxnOp>): map<Bytes, Bytes>
  {
    if ops == [] then m
    else
      var before := SerialResult(m, ops[..|ops| - 1]);
      match ops[|ops| - 1]
      case TxnRead(_) => before
      case TxnPut(k, v) => before[k := v]
      case TxnDelete(k) => before - {k}
  }

  /** What the reads return when the operations run on a plain map. */
  function SerialOuts(m: map<Bytes, Bytes>, ops: seq<TxnOp>): Outs
  {
    if ops == [] then []
    else
      var n := |ops| - 1;
      SerialOuts(m, ops[..n]) +
      (match ops[n]
       case TxnRead(k) => [Lookup(SerialResult(m, ops[..n]), k)]
       case TxnPut(_, _) => []
       case TxnDelete(_) => [])
  }

  function WritesOf(ops: seq<TxnOp>): Writes
  {
    if ops == [] then []
    else
      WritesOf(ops[..|ops| - 1]) +
      (match ops[|ops| - 1]
       case TxnRead(_) => []
       case TxnPut(k, v) => [(k, Some(v))]
       case TxnDelete(k) => [(k, None)])
  }

  lemma BufferedOneMore(ws: Writes, k: Bytes, v: Option<Bytes>, x: Bytes)
    ensures Buffered(ws + [(k, v)], x) == if x == k then Some(v) else Buffered(ws, x)
  {
    assert (ws + [(k, v)])[..|ws|] == ws;
  }

  /** A read of the map after the operations is a read of the buffer, then of the map before. */
  lemma {:induction false} SerialReadsBuffer(m: map<Bytes, Bytes>, ops: seq<TxnOp>, x: Bytes)
    ensures Lookup(SerialResult(m, ops), x) ==
            match Buffered(WritesOf(ops), x)
            case Some(v) => v
            case None => Lookup(m, x)
  {
    if ops != [] {
      var n := |ops| - 1;
      SerialReadsBuffer(m, ops[..n], x);
      match ops[n] {
        case TxnRead(_) => assert WritesOf(ops) == WritesOf(ops[..n]);
        case TxnPut(k, v) => BufferedOneMore(WritesOf(ops[..n]), k, Some(v), x);
        case TxnDelete(k) => BufferedOneMore(WritesOf(ops[..n]), k, None, x);
      }
    }
  }

  /** The keys that the operations read from the store and not from their own writes. */
  ghost predicate ReadsFromStore(ops: seq<TxnOp>, i: int, k: Bytes)
  {
    0 <= i < |ops| && ops[i] == TxnRead(k) && Buffered(WritesOf(ops[..i]), k) == None
  }

  /** The reads depend only on what the two maps say of the keys read from the store. */
  lemma {:induction false} SameReadsSameOuts(m: map<Bytes, Bytes>, m': map<Bytes, Bytes>, ops: seq<TxnOp>)
    requires forall i, k :: ReadsFromStore(ops, i, k) ==> Lookup(m, k) == Lookup(m', k)
    ensures SerialOuts(m, ops) == SerialOuts(m', ops)
  {
    if ops != [] {
      var n := |ops| - 1;
      var init := ops[..n];
      forall i, k | ReadsFromStore(init, i, k) ensures Lookup(m, k) == Lookup(m', k) {
        assert init[..i] == ops[..i] && ReadsFromStore(ops, i, k);
      }
      SameReadsSameOuts(m, m', init);
      if ops[n].TxnRead? {
        var k := ops[n].key;
        SerialReadsBuffer(m, init, k);
        SerialReadsBuffer(m', init, k);
        if Buffered(WritesOf(init), k) == None { assert ReadsFromStore(ops, n, k); }
      }
    }
  }

  // --------------------------------------------------------- commits on the store

  lemma {:induction false} CommitWritesShape(s: Store, ws: Writes, p: (Bytes, Revision))
    requires StoreInv(s)
    ensures var vs' := CommitWrites(s.vs, ws, s.rev + 1);
            && (p in vs' <==> p in s.vs || (p.1 == s.rev + 1 && Buffered(ws, p.0).Some?))
            && (p in vs' && p.1 != s.rev + 1 ==> vs'[p] == s.vs[p])
            && (p in vs' && p.1 == s.rev + 1 ==>
               Buffered(ws, p.0).Some? && vs'[p].value == Buffered(ws, p.0).value && vs'[p].modRevision == s.rev + 1)
  {
    assert p in s.vs ==> VersionOk(s, p);
    if ws != [] { CommitWritesShape(s, ws[..|ws| - 1], p); }
  }

  lemma CommitExtends(s: Store, ws: Writes)
    requires StoreInv(s)
    ensures Extends(s, Store(s.rev + 1, CommitWrites(s.vs, ws, s.rev + 1)))
  {
    hide CommitWrites;
    var vs' := CommitWrites(s.vs, ws, s.rev + 1);
    forall p ensures (p in s.vs ==> p in vs' && vs'[p] == s.vs[p]) && (p in vs' && p.1 <= s.rev ==> p in s.vs) {
      CommitWritesShape(s, ws, p);
      assert p in s.vs ==> VersionOk(s, p);
    }
  }

  lemma NotYetWritten(s: Store, k: Bytes)
    requires StoreInv(s)
    ensures (k, s.rev + 1) !in s.vs
  {
    forall p | p in s.vs ensures p.1 <= s.rev { assert VersionOk(s, p); }
  }

  /** After a commit a key reads as the last buffered write of it, or as before. */
  lemma CommitReads(s: Store, ws: Writes, k: Bytes)
    requires StoreInv(s)
    ensures ValueAt(CommitWrites(s.vs, ws, s.rev + 1), k, s.rev + 1) ==
            match Buffered(ws, k)
            case Some(v) => v
            case None => ValueAt(s.vs, k, s.rev)
  {
    hide CommitWrites, LatestAt, Buffered;
    var rev := s.rev + 1;
    var vs' := CommitWrites(s.vs, ws, rev);
    CommitWritesShape(s, ws, (k, rev));
    if Buffered(ws, k).Some? {
      LatestAtIs(vs', k, rev, rev);
    } else {
      NotYetWritten(s, k);
      CommitExtends(s, ws);
      SkipAbsent(vs', k, s.rev);
      SnapshotsAreStable(s, Store(rev, vs'), k, s.rev);
    }
  }

  /** A revision without a version of the key reads like the one before. */
  lemma SkipAbsent(vs: Versions, k: Bytes, r: nat)
    requires r < U64_MAX && (k, r + 1) !in vs
    ensures ReadAt(vs, k, r + 1) == ReadAt(vs, k, r)
  {
    LatestAtExactly(vs, k, r);
  }

  // ------------------------------------------------------------------ validation

  lemma LiveVersion(s: Store, k: Bytes, r: Revision)
    requires StoreInv(s)
    ensures match ReadAt(s.vs, k, r)
            case Some(kv) => kv.modRevision >= 1 && kv.modRevision <= U64_MAX && (k, kv.modRevision) in s.vs
                && s.vs[(k, kv.modRevision)].value == Some(kv.value)
            case None => true
  {
    LatestAtExactly(s.vs, k, r);
    if LatestAt(s.vs, k, r).Some? { assert VersionOk(s, (k, LatestAt(s.vs, k, r).value)); }
  }

  /** Equal modification revisions, zero meaning absent, mean equal values. */
  lemma SameModSameValue(s: Store, k: Bytes, r: Revision, r': Revision)
    requires StoreInv(s) && ModOf(ReadAt(s.vs, k, r)) == ModOf(ReadAt(s.vs, k, r'))
    ensures ValueAt(s.vs, k, r) == ValueAt(s.vs, k, r')
  {
    hide ReadAt;
    LiveVersion(s, k, r);
    LiveVersion(s, k, r');
  }

  lemma LatestIsCurrent(s: Store, k: Bytes)
    requires StoreInv(s)
    ensures ReadAt(s.vs, k, U64_MAX) == ReadAt(s.vs, k, s.rev)
  {
    hide LatestAt;
    NothingAbove(s, k, U64_MAX);
    LatestAtExactly(s.vs, k, U64_MAX);
  }
}
