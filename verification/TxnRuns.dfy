/**
 Runs of many clients: direct writes, transactions that begin, read, buffer and commit in any
 interleaving, each commit one step. Every run is equivalent to the serial log of its writes.
 */
module TxnRuns {
  import opened Common
  import opened Bytes
  import opened Version
  import opened MvccModel
  import opened Mvcc
  import opened TxnModel

  /** One entry of the serial order; a transaction is recorded with what its reads returned. */
  datatype Action = PutAction(key: Bytes, value: Bytes) | DeleteAction(key: Bytes) | TxnAction(ops: seq<TxnOp>,
      outs: Outs)

  /** A transaction under way, with its program so far and the answers it has got. */
  datatype Live = Live(txn: Txn, ops: seq<TxnOp>, outs: Outs)

  /** A finished read-only transaction. */
  datatype ReadOnly = ReadOnly(start: nat, ops: seq<TxnOp>, outs: Outs)

  datatype World = World(store: Store, live: map<nat, Live>, log: seq<Action>, readers: seq<ReadOnly>)

  datatype Event =
    | DirectPut(key: Bytes, value: Bytes, leaseId: int, ttl: int)
    | DirectDelete(key: Bytes)
    | Begin(id: nat)
    | Read(id: nat, key: Bytes)
    | BufferPut(id: nat, key: Bytes, value: Bytes)
    | BufferDelete(id: nat, key: Bytes)
    | TryCommit(id: nat)

  function ApplyAction(m: map<Bytes, Bytes>, a: Action): map<Bytes, Bytes>
  {
    match a
    case PutAction(k, v) => m[k := v]
    case DeleteAction(k) => m - {k}
    case TxnAction(ops, _) => SerialResult(m, ops)
  }

  /** The plain map after the actions of the log, run one after the other. */
  function SerialMap(log: seq<Action>): map<Bytes, Bytes>
  {
    if log == [] then map[] else ApplyAction(SerialMap(log[..|log| - 1]), log[|log| - 1])
  }

  /** Room for another revision, and fields that fit. */
  predicate Enabled(w: World, e: Event)
  {
    && w.store.rev + 1 < U64_MAX
    && match e
       case DirectPut(_, v, l, t) => |v| <= U32_MAX && I64_MIN <= l <= I64_MAX && I64_MIN <= t <= I64_MAX
       case DirectDelete(_) => true
       case Begin(id) => id !in w.live
       case Read(id, _) => id in w.live && w.live[id].txn.start <= w.store.rev
       case BufferPut(id, _, v) => id in w.live && |v| <= U32_MAX
       case BufferDelete(id, _) => id in w.live
       case TryCommit(id) => id in w.live
  }

  ghost function DoRead(w: World, id: nat, k: Bytes): World
    requires id in w.live && w.live[id].txn.start <= U64_MAX
  {
    var t := w.live[id];
    var (txn, out) := TxnGet(t.txn, w.store.vs, k);
    w.(live := w.live[id := Live(txn, t.ops + [TxnRead(k)], t.outs + [out])])
  }

  ghost function DoBuffer(w: World, id: nat, op: TxnOp, v: Option<Bytes>): World
    requires id in w.live
  {
    var t := w.live[id];
    w.(live := w.live[id := Live(TxnWrite(t.txn, op.key, v), t.ops + [op], t.outs)])
  }

  ghost function DoCommit(w: World, id: nat): World
    requires id in w.live && w.store.rev < U64_MAX
  {
    var t := w.live[id];
    var (s, r) := Commit(w.store, t.txn);
    var rest := w.(store := s, live := w.live - {id});
    if r.Err? then rest
    else if t.txn.writeSet == [] then rest.(readers := w.readers + [ReadOnly(t.txn.start, t.ops, t.outs)])
    else rest.(log := w.log + [TxnAction(t.ops, t.outs)])
  }

  ghost function Step(w: World, e: Event): World
    requires Enabled(w, e)
  {
    match e
    case DirectPut(k, v, l, t) => w.(store := PutVersion(w.store, k, v, l, t), log := w.log + [PutAction(k, v)])
    case DirectDelete(k) => w.(store := DeleteVersion(w.store, k), log := w.log + [DeleteAction(k)])
    case Begin(id) => w.(live := w.live[id := Live(Txn(w.store.rev, [], []), [], [])])
    case Read(id, k) => DoRead(w, id, k)
    case BufferPut(id, k, v) => DoBuffer(w, id, TxnPut(k, v), Some(v))
    case BufferDelete(id, k) => DoBuffer(w, id, TxnDelete(k), None)
    case TryCommit(id) => DoCommit(w, id)
  }

  // ------------------------------------------------------------------- invariant

  /** At revision `r` the store reads like the map. */
  ghost predicate Agrees(vs: Versions, r: Revision, m: map<Bytes, Bytes>)
  {
    forall k :: ValueAt(vs, k, r) == Lookup(m, k)
  }

  /** Each revision is the state after as many actions of the log. */
  ghost predicate LogOk(s: Store, log: seq<Action>)
  {
    |log| == s.rev <= U64_MAX && forall r {:trigger SerialMap(log[..r])} :: 0 <= r <= s.rev ==>
        Agrees(s.vs, r, SerialMap(log[..r]))
  }

  /** Every transaction in the log read what it reads at its place in the serial order. */
  ghost predicate OutsOk(log: seq<Action>)
  {
    forall i :: 0 <= i < |log| && log[i].TxnAction? ==> log[i].outs == SerialOuts(SerialMap(log[..i]), log[i].ops)
  }

  /** Every store read is in the read set with the modification revision it saw. */
  ghost predicate ReadsRecorded(vs: Versions, start: Revision, ops: seq<TxnOp>, readSet: seq<(Bytes, nat)>)
  {
    forall i, k :: ReadsFromStore(ops, i, k) ==> (k, ModOf(ReadAt(vs, k, start))) in readSet
  }

  ghost predicate LiveOk(s: Store, log: seq<Action>, t: Live)
  {
    && t.txn.start <= s.rev <= U64_MAX && t.txn.start <= |log|
    && t.txn.writeSet == WritesOf(t.ops)
    && t.outs == SerialOuts(SerialMap(log[..t.txn.start]), t.ops)
    && ReadsRecorded(s.vs, t.txn.start, t.ops, t.txn.readSet)
    && (forall i :: 0 <= i < |t.txn.writeSet| && t.txn.writeSet[i].1.Some? ==> |t.txn.writeSet[i].1.value| <= U32_MAX)
  }

  ghost predicate ReaderOk(log: seq<Action>, q: ReadOnly)
  {
    q.start <= |log| && q.outs == SerialOuts(SerialMap(log[..q.start]), q.ops)
  }

  ghost predicate WorldInv(w: World)
  {
    && StoreInv(w.store) && LogOk(w.store, w.log) && OutsOk(w.log)
    && (forall id {:trigger w.live[id]} :: id in w.live ==> LiveOk(w.store, w.log, w.live[id]))
    && (forall i :: 0 <= i < |w.readers| ==> ReaderOk(w.log, w.readers[i]))
  }

  // ------------------------------------------------------------- steps of the log

  lemma PrefixUnchanged(log: seq<Action>, a: Action, r: nat)
    requires r <= |log|
    ensures (log + [a])[..r] == log[..r]
  {
  }

  lemma LogGrows(s: Store, s': Store, log: seq<Action>, a: Action)
    requires StoreInv(s) && LogOk(s, log) && Extends(s, s') && s'.rev == s.rev + 1 <= U64_MAX
    requires Agrees(s'.vs, s'.rev, ApplyAction(SerialMap(log), a))
    ensures LogOk(s', log + [a])
  {
    hide SerialMap, ApplyAction;
    var log' := log + [a];
    forall r | 0 <= r <= s'.rev ensures Agrees(s'.vs, r, SerialMap(log'[..r])) {
      if r <= s.rev {
        PrefixUnchanged(log, a, r);
        forall k ensures ValueAt(s'.vs, k, r) == Lookup(SerialMap(log[..r]), k) {
          SnapshotsAreStable(s, s', k, r);
          assert Agrees(s.vs, r, SerialMap(log[..r]));
        }
      } else {
        LogOneMore(log, a);
        assert log'[..r] == log';
      }
    }
  }

  lemma LogOneMore(log: seq<Action>, a: Action)
    ensures SerialMap(log + [a]) == ApplyAction(SerialMap(log), a)
  {
    assert (log + [a])[..|log|] == log;
  }

  lemma OutsGrow(log: seq<Action>, a: Action)
    requires OutsOk(log) && (a.TxnAction? ==> a.outs == SerialOuts(SerialMap(log), a.ops))
    ensures OutsOk(log + [a])
  {
    hide SerialMap, SerialOuts;
    var log' := log + [a];
    forall i | 0 <= i < |log'| && log'[i].TxnAction?
        ensures log'[i].outs == SerialOuts(SerialMap(log'[..i]), log'[i].ops) {
      PrefixUnchanged(log, a, i);
      if i == |log| { assert log[..i] == log; }
    }
  }

  lemma LiveStays(s: Store, s': Store, log: seq<Action>, a: Action, t: Live)
    requires LiveOk(s, log, t) && Extends(s, s') && s'.rev <= U64_MAX
    ensures LiveOk(s', log + [a], t)
  {
    hide SerialMap, SerialOuts, ReadsFromStore;
    PrefixUnchanged(log, a, t.txn.start);
    forall k ensures ReadAt(s'.vs, k, t.txn.start) == ReadAt(s.vs, k, t.txn.start)
        { SnapshotsAreStable(s, s', k, t.txn.start); }
  }

  /** Appending one action to the log and one revision to the store keeps everything else in order. */
  lemma WorldGrows(w: World, s': Store, a: Action, live: map<nat, Live>)
    requires WorldInv(w) && StoreInv(s') && Extends(w.store, s') && s'.rev == w.store.rev + 1
    requires Agrees(s'.vs, s'.rev, ApplyAction(SerialMap(w.log), a))
    requires a.TxnAction? ==> a.outs == SerialOuts(SerialMap(w.log), a.ops)
    requires forall id :: id in live ==> id in w.live && live[id] == w.live[id]
    ensures WorldInv(World(s', live, w.log + [a], w.readers))
  {
    hide SerialMap, SerialOuts, ApplyAction, LiveOk, Agrees, OutsOk, LogOk;
    assert LogOk(w.store, w.log) && OutsOk(w.log);
    LogGrows(w.store, s', w.log, a);
    OutsGrow(w.log, a);
    forall id | id in live ensures LiveOk(s', w.log + [a], live[id]) { LiveStays(w.store, s', w.log, a, w.live[id]); }
    forall i | 0 <= i < |w.readers| ensures ReaderOk(w.log + [a], w.readers[i])
        { PrefixUnchanged(w.log, a, w.readers[i].start); }
  }

  lemma CurrentMap(w: World, k: Bytes)
    requires WorldInv(w)
    ensures ValueAt(w.store.vs, k, w.store.rev) == Lookup(SerialMap(w.log), k)
  {
    hide SerialMap, ValueAt;
    assert w.log[..w.store.rev] == w.log;
    assert Agrees(w.store.vs, w.store.rev, SerialMap(w.log[..w.store.rev]));
  }

  // -------------------------------------------------------------- direct writes

  lemma DirectWrite(w: World, k: Bytes, v: VersionedValue, a: Action)
    requires WorldInv(w) && w.store.rev + 1 < U64_MAX && ValueFits(v) && v.modRevision == w.store.rev + 1
    requires (v.value.Some? && a == PutAction(k, v.value.value)) || (v.value.None? && a == DeleteAction(k))
    ensures WorldInv(w.(store := Store(w.store.rev + 1, w.store.vs[(k, w.store.rev + 1) := v]), log := w.log + [a]))
  {
    hide SerialMap, VersionAt;
    var rev := w.store.rev + 1;
    var s' := Store(rev, w.store.vs[(k, rev) := v]);
    assert StoreInv(w.store);
    WriteKeepsInv(w.store, k, v);
    WriteExtends(w.store, k, v);
    forall x ensures ValueAt(s'.vs, x, rev) == Lookup(ApplyAction(SerialMap(w.log), a), x) {
      WriteIsSeen(w.store, k, v, x, rev);
      CurrentMap(w, x);
    }
    WorldGrows(w, s', a, w.live);
  }

  // ------------------------------------------------------------- inside a transaction

  lemma WritesOneMore(ops: seq<TxnOp>, op: TxnOp)
    ensures WritesOf(ops + [op]) == WritesOf(ops) + match op
            { case TxnRead(_) => [] case TxnPut(k, v) => [(k, Some(v))] case TxnDelete(k) => [(k, None)] }
  {
    assert (ops + [op])[..|ops|] == ops;
  }

  lemma OutsOneMore(m: map<Bytes, Bytes>, ops: seq<TxnOp>, op: TxnOp)
    ensures SerialOuts(m, ops + [op]) == SerialOuts(m, ops) + if op.TxnRead?
            then [Lookup(SerialResult(m, ops), op.key)] else []
  {
    assert (ops + [op])[..|ops|] == ops;
  }

  lemma RecordedOneMore(vs: Versions, start: Revision, ops: seq<TxnOp>, readSet: seq<(Bytes, nat)>, op: TxnOp,
                        more: seq<(Bytes, nat)>)
    requires ReadsRecorded(vs, start, ops, readSet)
    requires op.TxnRead? && Buffered(WritesOf(ops), op.key) == None ==>
             (op.key, ModOf(ReadAt(vs, op.key, start))) in more
    ensures ReadsRecorded(vs, start, ops + [op], readSet + more)
  {
    hide Buffered, WritesOf, ReadAt;
    var ops' := ops + [op];
    forall i, k | ReadsFromStore(ops', i, k) ensures (k, ModOf(ReadAt(vs, k, start))) in readSet + more {
      assert ops'[..i] == if i < |ops| then ops[..i] else ops;
      if i < |ops| { assert ops[..i] == ops'[..i] && ReadsFromStore(ops, i, k); } else { assert ops'[..i] == ops; }
    }
  }

  /** A read inside a transaction answers like the serial run at its snapshot. */
  lemma ReadAnswers(s: Store, log: seq<Action>, t: Live, k: Bytes)
    requires LogOk(s, log) && LiveOk(s, log, t)
    ensures TxnGet(t.txn, s.vs, k).1 == Lookup(SerialResult(SerialMap(log[..t.txn.start]), t.ops), k)
  {
    hide SerialMap, SerialResult, ValueAt, Buffered, WritesOf, SerialOuts, ReadsRecorded;
    var m := SerialMap(log[..t.txn.start]);
    SerialReadsBuffer(m, t.ops, k);
    assert Agrees(s.vs, t.txn.start, m);
    ValueIsValueOf(s.vs, k, t.txn.start);
  }

  lemma ValueIsValueOf(vs: Versions, k: Bytes, r: Revision)
    ensures ValueAt(vs, k, r) == ValueOf(ReadAt(vs, k, r))
  {
  }

  lemma LiveAfterRead(s: Store, log: seq<Action>, t: Live, k: Bytes)
    requires LogOk(s, log) && LiveOk(s, log, t)
    ensures var (txn, out) := TxnGet(t.txn, s.vs, k); LiveOk(s, log, Live(txn, t.ops + [TxnRead(k)], t.outs + [out]))
  {
    hide SerialMap, SerialResult, SerialOuts, WritesOf, Buffered, ReadAt, ReadsRecorded;
    var (txn, out) := TxnGet(t.txn, s.vs, k);
    ReadAnswers(s, log, t, k);
    WritesOneMore(t.ops, TxnRead(k));
    OutsOneMore(SerialMap(log[..t.txn.start]), t.ops, TxnRead(k));
    var more := if Buffered(t.txn.writeSet, k).Some? then [] else [(k, ModOf(ReadAt(s.vs, k, t.txn.start)))];
    RecordedOneMore(s.vs, t.txn.start, t.ops, t.txn.readSet, TxnRead(k), more);
    assert txn.readSet == t.txn.readSet + more;
    assert WritesOf(t.ops) + [] == WritesOf(t.ops);
  }

  lemma LiveAfterBuffer(s: Store, log: seq<Action>, t: Live, op: TxnOp, v: Option<Bytes>)
    requires LiveOk(s, log, t)
    requires (op.TxnPut? && v == Some(op.value) && |op.value| <= U32_MAX) || (op.TxnDelete? && v == None)
    ensures LiveOk(s, log, Live(TxnWrite(t.txn, op.key, v), t.ops + [op], t.outs))
  {
    hide SerialMap, SerialResult, SerialOuts, WritesOf, Buffered, ReadAt, ReadsRecorded;
    WritesOneMore(t.ops, op);
    OutsOneMore(SerialMap(log[..t.txn.start]), t.ops, op);
    RecordedOneMore(s.vs, t.txn.start, t.ops, t.txn.readSet, op, []);
    assert t.txn.readSet + [] == t.txn.readSet;
    assert SerialOuts(SerialMap(log[..t.txn.start]), t.ops) + [] == SerialOuts(SerialMap(log[..t.txn.start]), t.ops);
  }

  // --------------------------------------------------------------------- commit

  /** Validation means that every store read would answer the same at the commit point. */
  lemma ValidatedReads(s: Store, log: seq<Action>, t: Live)
    requires StoreInv(s) && LogOk(s, log) && LiveOk(s, log, t) && Validates(s.vs, t.txn.readSet)
    ensures t.outs == SerialOuts(SerialMap(log), t.ops)
  {
    hide SerialMap, SerialOuts, ReadAt, StoreInv, ReadsFromStore;
    var m, m' := SerialMap(log[..t.txn.start]), SerialMap(log);
    assert log[..s.rev] == log;
    forall i, k | ReadsFromStore(t.ops, i, k) ensures Lookup(m, k) == Lookup(m', k) {
      assert (k, ModOf(ReadAt(s.vs, k, t.txn.start))) in t.txn.readSet;
      var j :| 0 <= j < |t.txn.readSet| && t.txn.readSet[j] == (k, ModOf(ReadAt(s.vs, k, t.txn.start)));
      LatestIsCurrent(s, k);
      SameModSameValue(s, k, t.txn.start, s.rev);
      assert Agrees(s.vs, t.txn.start, m) && Agrees(s.vs, s.rev, SerialMap(log[..s.rev]));
    }
    SameReadsSameOuts(m, m', t.ops);
  }

  lemma {:induction false} CommitKeepsInv(s: Store, ws: Writes)
    requires StoreInv(s) && s.rev + 1 < U64_MAX
    requires forall i :: 0 <= i < |ws| && ws[i].1.Some? ==> |ws[i].1.value| <= U32_MAX
    ensures StoreInv(Store(s.rev + 1, CommitWrites(s.vs, ws, s.rev + 1)))
  {
    var rev := s.rev + 1;
    var s' := Store(rev, CommitWrites(s.vs, ws, rev));
    if ws == [] {
      forall p | p in s'.vs ensures VersionOk(s', p) { assert VersionOk(s, p); }
    } else {
      var before := Store(rev, CommitWrites(s.vs, ws[..|ws| - 1], rev));
      CommitKeepsInv(s, ws[..|ws| - 1]);
      var (k, v) := ws[|ws| - 1];
      CreatedFits(before, k);
      forall p | p in s'.vs ensures VersionOk(s', p) {
        if p != (k, rev) { assert VersionOk(before, p); }
      }
    }
  }

  lemma CreatedFits(s: Store, k: Bytes)
    requires StoreInv(s)
    ensures ReadAt(s.vs, k, U64_MAX).Some? ==> ReadAt(s.vs, k, U64_MAX).value.createRevision <= U64_MAX
  {
    LatestAtExactly(s.vs, k, U64_MAX);
    if LatestAt(s.vs, k, U64_MAX).Some? { assert VersionOk(s, (k, LatestAt(s.vs, k, U64_MAX).value)); }
  }

  /** The committed writes are the serial effect of the whole program on the current map. */
  lemma CommitIsSerial(w: World, t: Live, k: Bytes)
    requires WorldInv(w) && t.txn.writeSet == WritesOf(t.ops)
    ensures ValueAt(CommitWrites(w.store.vs, t.txn.writeSet, w.store.rev + 1), k, w.store.rev + 1)
         == Lookup(SerialResult(SerialMap(w.log), t.ops), k)
  {
    hide SerialMap, SerialResult, ValueAt, CommitWrites, Buffered, WritesOf;
    CommitReads(w.store, t.txn.writeSet, k);
    SerialReadsBuffer(SerialMap(w.log), t.ops, k);
    CurrentMap(w, k);
  }

  lemma WritingCommit(w: World, id: nat)
    requires WorldInv(w) && id in w.live && w.store.rev + 1 < U64_MAX
    requires w.live[id].txn.writeSet != [] && Validates(w.store.vs, w.live[id].txn.readSet)
    ensures WorldInv(DoCommit(w, id))
  {
    hide SerialMap, SerialOuts, CommitWrites, Validates, ValueAt, LogOk, OutsOk, ReadsRecorded, WritesOf;
    var t, rev := w.live[id], w.store.rev + 1;
    assert LiveOk(w.store, w.log, t) && LogOk(w.store, w.log);
    var s' := Store(rev, CommitWrites(w.store.vs, t.txn.writeSet, rev));
    ValidatedReads(w.store, w.log, t);
    CommitExtends(w.store, t.txn.writeSet);
    CommitKeepsInv(w.store, t.txn.writeSet);
    forall k ensures ValueAt(s'.vs, k, rev) == Lookup(ApplyAction(SerialMap(w.log), TxnAction(t.ops, t.outs)), k) {
      CommitIsSerial(w, t, k);
    }
    WorldGrows(w, s', TxnAction(t.ops, t.outs), w.live - {id});
  }

  lemma CommitStep(w: World, id: nat)
    requires WorldInv(w) && id in w.live && w.store.rev + 1 < U64_MAX
    ensures WorldInv(DoCommit(w, id))
  {
    hide SerialMap, SerialOuts, CommitWrites, Validates, LogOk, OutsOk, ReadsRecorded, WritesOf, StoreInv;
    if w.live[id].txn.writeSet != [] && Validates(w.store.vs, w.live[id].txn.readSet) {
      WritingCommit(w, id);
    } else {
      assert LiveOk(w.store, w.log, w.live[id]);
    }
  }

  // ------------------------------------------------------------------------ runs

  lemma LiveUpdate(w: World, id: nat, t: Live)
    requires WorldInv(w) && LiveOk(w.store, w.log, t)
    ensures WorldInv(w.(live := w.live[id := t]))
  {
    hide LiveOk, LogOk, OutsOk, StoreInv, ReaderOk;
  }

  lemma StepKeepsInv(w: World, e: Event)
    requires WorldInv(w) && Enabled(w, e)
    ensures WorldInv(Step(w, e))
  {
    hide WorldInv, LiveOk, LogOk, DoCommit;
    match e {
      case DirectPut(k, v, l, t) => PutStep(w, k, v, l, t);
      case DirectDelete(k) => DirectWrite(w, k, VersionedValue(None, 0, w.store.rev + 1, 0, 0), DeleteAction(k));
      case Begin(id) => BeginStep(w, id);
      case Read(id, k) => ReadStep(w, id, k);
      case BufferPut(id, k, v) => BufferStep(w, id, TxnPut(k, v), Some(v));
      case BufferDelete(id, k) => BufferStep(w, id, TxnDelete(k), None);
      case TryCommit(id) => CommitStep(w, id);
    }
  }

  lemma PutStep(w: World, k: Bytes, v: Bytes, l: int, t: int)
    requires WorldInv(w) && Enabled(w, DirectPut(k, v, l, t))
    ensures WorldInv(Step(w, DirectPut(k, v, l, t)))
  {
    hide LogOk, OutsOk, LiveOk, ReaderOk;
    CreateRevisionFits(w.store, k);
    DirectWrite(w, k, VersionedValue(Some(v), CreateRevision(w.store.vs, k, w.store.rev + 1), w.store.rev + 1, l, t),
        PutAction(k, v));
  }

  lemma BeginStep(w: World, id: nat)
    requires WorldInv(w)
    ensures WorldInv(w.(live := w.live[id := Live(Txn(w.store.rev, [], []), [], [])]))
  {
    hide OutsOk, ReaderOk, SerialMap;
    LiveUpdate(w, id, Live(Txn(w.store.rev, [], []), [], []));
  }

  lemma ReadStep(w: World, id: nat, k: Bytes)
    requires WorldInv(w) && id in w.live && w.live[id].txn.start <= U64_MAX
    ensures WorldInv(DoRead(w, id, k))
  {
    hide LiveOk, LogOk, OutsOk, ReaderOk, StoreInv;
    LiveAfterRead(w.store, w.log, w.live[id], k);
    var (txn, out) := TxnGet(w.live[id].txn, w.store.vs, k);
    LiveUpdate(w, id, Live(txn, w.live[id].ops + [TxnRead(k)], w.live[id].outs + [out]));
  }

  lemma BufferStep(w: World, id: nat, op: TxnOp, v: Option<Bytes>)
    requires WorldInv(w) && id in w.live
    requires (op.TxnPut? && v == Some(op.value) && |op.value| <= U32_MAX) || (op.TxnDelete? && v == None)
    ensures WorldInv(DoBuffer(w, id, op, v))
  {
    hide LiveOk, LogOk, OutsOk, ReaderOk, StoreInv;
    LiveAfterBuffer(w.store, w.log, w.live[id], op, v);
    LiveUpdate(w, id, Live(TxnWrite(w.live[id].txn, op.key, v), w.live[id].ops + [op], w.live[id].outs));
  }

  const EMPTY_WORLD := World(Store(0, map[]), map[], [], [])

  lemma EmptyWorld()
    ensures WorldInv(EMPTY_WORLD)
  {
    forall k ensures ValueAt(map[], k, 0) == None { LatestAtExactly(map[], k, 0); }
    assert EMPTY_WORLD.log[..0] == [];
  }

  ghost predicate IsRun(run: seq<World>, events: seq<Event>)
  {
    && |run| == |events| + 1 && run[0] == EMPTY_WORLD
    && forall i {:trigger events[i]} :: 0 <= i < |events| ==>
         Enabled(run[i], events[i]) && run[i + 1] == Step(run[i], events[i])
  }

  lemma {:induction false} RunInv(run: seq<World>, events: seq<Event>, i: nat)
    requires IsRun(run, events) && i < |run|
    ensures WorldInv(run[i])
    decreases i
  {
    hide WorldInv, Step;
    if i == 0 {
      EmptyWorld();
    } else {
      RunInv(run, events, i - 1);
      StepKeepsInv(run[i - 1], events[i - 1]);
    }
  }

  /**
   Serializability: in every state of every run, the store at each revision is the plain map that
   results from running the log's actions one after the other; every committed transaction that
   wrote anything read and wrote as if it ran wholly at its commit revision; every read-only one
   read as if it ran wholly at its start revision.
   */
  lemma EveryRunIsSerial(run: seq<World>, events: seq<Event>, i: nat, k: Bytes, r: nat)
    requires IsRun(run, events) && i < |run| && r <= run[i].store.rev
    ensures var w := run[i];
            && |w.log| == w.store.rev <= U64_MAX
            && ValueAt(w.store.vs, k, r) == Lookup(SerialMap(w.log[..r]), k)
    ensures forall j :: 0 <= j < |run[i].log| && run[i].log[j].TxnAction? ==>
              run[i].log[j].outs == SerialOuts(SerialMap(run[i].log[..j]), run[i].log[j].ops)
    ensures forall j :: 0 <= j < |run[i].readers| ==>
              && run[i].readers[j].start <= |run[i].log|
              && run[i].readers[j].outs == SerialOuts(SerialMap(run[i].log[..run[i].readers[j].start]),
                 run[i].readers[j].ops)
  {
    hide SerialMap, SerialOuts, ValueAt, StoreInv, LiveOk, IsRun;
    RunInv(run, events, i);
    assert Agrees(run[i].store.vs, r, SerialMap(run[i].log[..r]));
    forall j | 0 <= j < |run[i].readers|
      ensures run[i].readers[j].start <= |run[i].log|
      ensures run[i].readers[j].outs == SerialOuts(SerialMap(run[i].log[..run[i].readers[j].start]),
              run[i].readers[j].ops)
    {
      assert ReaderOk(run[i].log, run[i].readers[j]);
    }
  }
}
