/**
 How a commit ends: with a conflict exactly when something the transaction read has changed, and
 else with the revision that is its place in the serial order.
 */
module TxnOutcomes {
  import opened Common
  import opened Bytes
  import opened MvccModel
  import opened Mvcc
  import opened TxnModel
  import opened TxnRuns

  /** An entry of the read set is a read from the store, with the modification revision at the snapshot. */
  ghost predicate RecordedRead(vs: Versions, t: Live, e: (Bytes, nat))
    requires t.txn.start <= U64_MAX
  {
    && (exists i :: ReadsFromStore(t.ops, i, e.0))
    && e.1 == ModOf(ReadAt(vs, e.0, t.txn.start))
  }

  ghost predicate ReadSetExact(s: Store, t: Live)
  {
    && t.txn.start <= s.rev <= U64_MAX
    && forall e {:trigger RecordedRead(s.vs, t, e)} :: e in t.txn.readSet ==> RecordedRead(s.vs, t, e)
  }

  ghost predicate ReadSetsExact(w: World)
  {
    forall id {:trigger w.live[id]} :: id in w.live ==> ReadSetExact(w.store, w.live[id])
  }

  /** A longer program still contains its reads. */
  lemma ReadStays(ops: seq<TxnOp>, op: TxnOp, i: int, k: Bytes)
    requires ReadsFromStore(ops, i, k)
    ensures ReadsFromStore(ops + [op], i, k)
  {
    assert (ops + [op])[..i] == ops[..i];
  }

  lemma RecordedStays(s: Store, t: Live, op: TxnOp, t': Live, e: (Bytes, nat))
    requires t.txn.start <= U64_MAX && RecordedRead(s.vs, t, e)
    requires t'.ops == t.ops + [op] && t'.txn.start == t.txn.start
    ensures RecordedRead(s.vs, t', e)
  {
    hide ReadAt, ReadsFromStore;
    var i :| ReadsFromStore(t.ops, i, e.0);
    ReadStays(t.ops, op, i, e.0);
  }

  /** The next operation of a transaction adds to the read set at most what it reads from the store. */
  lemma NextOpExact(s: Store, t: Live, op: TxnOp, t': Live)
    requires ReadSetExact(s, t) && t'.ops == t.ops + [op] && t'.txn.start == t.txn.start
    requires t'.txn.readSet == t.txn.readSet
             || (op.TxnRead? && Buffered(WritesOf(t.ops), op.key) == None
                 && t'.txn.readSet == t.txn.readSet + [(op.key, ModOf(ReadAt(s.vs, op.key, t.txn.start)))])
    ensures ReadSetExact(s, t')
  {
    hide RecordedRead, ReadAt, Buffered, WritesOf;
    forall e | e in t'.txn.readSet ensures RecordedRead(s.vs, t', e) {
      if e in t.txn.readSet {
        RecordedStays(s, t, op, t', e);
      } else {
        assert t'.ops[..|t.ops|] == t.ops;
        assert ReadsFromStore(t'.ops, |t.ops|, op.key);
        NewlyRecorded(s, t', e);
      }
    }
  }

  lemma NewlyRecorded(s: Store, t: Live, e: (Bytes, nat))
    requires t.txn.start <= U64_MAX && e.1 == ModOf(ReadAt(s.vs, e.0, t.txn.start)) && exists i ::
               ReadsFromStore(t.ops, i, e.0)
    ensures RecordedRead(s.vs, t, e)
  {
  }

  /** Later writes to the store do not matter to a snapshot. */
  lemma GrowsExact(s: Store, s': Store, t: Live)
    requires ReadSetExact(s, t) && Extends(s, s') && s'.rev <= U64_MAX
    ensures ReadSetExact(s', t)
  {
    hide ReadAt, ReadsFromStore;
    forall e | e in t.txn.readSet ensures RecordedRead(s'.vs, t, e) {
      assert RecordedRead(s.vs, t, e);
      SnapshotsAreStable(s, s', e.0, t.txn.start);
    }
  }

  lemma StoreGrows(w: World, s': Store, w': World)
    requires ReadSetsExact(w) && Extends(w.store, s') && s'.rev <= U64_MAX && w'.store == s'
    requires forall id :: id in w'.live ==> id in w.live && w'.live[id] == w.live[id]
    ensures ReadSetsExact(w')
  {
    hide ReadSetExact, Extends;
    forall id | id in w'.live ensures ReadSetExact(w'.store, w'.live[id]) { GrowsExact(w.store, s', w.live[id]); }
  }

  lemma OneUpdate(w: World, id: nat, t: Live)
    requires ReadSetsExact(w) && ReadSetExact(w.store, t)
    ensures ReadSetsExact(w.(live := w.live[id := t]))
  {
    hide ReadSetExact;
  }

  lemma ReadExact(w: World, id: nat, k: Bytes)
    requires ReadSetsExact(w) && id in w.live && LiveOk(w.store, w.log, w.live[id])
    ensures ReadSetsExact(DoRead(w, id, k))
  {
    hide ReadSetsExact, ReadSetExact, ReadAt, WritesOf, Buffered, ReadsRecorded;
    var t := w.live[id];
    var (txn, out) := TxnGet(t.txn, w.store.vs, k);
    var t' := Live(txn, t.ops + [TxnRead(k)], t.outs + [out]);
    LiveIsExact(w, id);
    NextOpExact(w.store, t, TxnRead(k), t');
    OneUpdate(w, id, t');
  }

  lemma LiveIsExact(w: World, id: nat)
    requires ReadSetsExact(w) && id in w.live
    ensures ReadSetExact(w.store, w.live[id])
  {
  }

  lemma BufferExact(w: World, id: nat, op: TxnOp, v: Option<Bytes>)
    requires ReadSetsExact(w) && id in w.live
    ensures ReadSetsExact(DoBuffer(w, id, op, v))
  {
    hide ReadSetsExact, ReadSetExact;
    var t := w.live[id];
    LiveIsExact(w, id);
    var t' := Live(TxnWrite(t.txn, op.key, v), t.ops + [op], t.outs);
    NextOpExact(w.store, t, op, t');
    OneUpdate(w, id, t');
  }

  lemma CommitExact(w: World, id: nat)
    requires ReadSetsExact(w) && StoreInv(w.store) && id in w.live && w.store.rev < U64_MAX
    ensures ReadSetsExact(DoCommit(w, id))
  {
    hide ReadSetsExact, CommitWrites, Validates, StoreInv;
    var w' := DoCommit(w, id);
    CommitExtends(w.store, w.live[id].txn.writeSet);
    SelfExtends(w.store);
    StoreGrows(w, w'.store, w');
  }

  lemma SelfExtends(s: Store)
    ensures Extends(s, s)
  {
  }

  lemma StepExact(w: World, e: Event)
    requires WorldInv(w) && ReadSetsExact(w) && Enabled(w, e)
    ensures ReadSetsExact(Step(w, e))
  {
    hide ReadSetsExact, LiveOk, LogOk, OutsOk, ReaderOk, DoRead, DoBuffer, DoCommit, StoreInv, Extends;
    match e {
      case DirectPut(k, v, l, t) =>
        WriteExtends(w.store, k, Step(w, e).store.vs[(k, w.store.rev + 1)]);
        StoreGrows(w, Step(w, e).store, Step(w, e));
      case DirectDelete(k) =>
        WriteExtends(w.store, k, Step(w, e).store.vs[(k, w.store.rev + 1)]);
        StoreGrows(w, Step(w, e).store, Step(w, e));
      case Begin(id) =>
        BeginExact(w, id);
      case Read(id, k) =>
        ReadExact(w, id, k);
      case BufferPut(id, k, v) =>
        BufferExact(w, id, TxnPut(k, v), Some(v));
      case BufferDelete(id, k) =>
        BufferExact(w, id, TxnDelete(k), None);
      case TryCommit(id) =>
        CommitExact(w, id);
    }
  }

  lemma BeginExact(w: World, id: nat)
    requires ReadSetsExact(w) && w.store.rev <= U64_MAX
    ensures ReadSetsExact(w.(live := w.live[id := Live(Txn(w.store.rev, [], []), [], [])]))
  {
    OneUpdate(w, id, Live(Txn(w.store.rev, [], []), [], []));
  }

  lemma {:induction false} RunExact(run: seq<World>, events: seq<Event>, i: nat)
    requires IsRun(run, events) && i < |run|
    ensures ReadSetsExact(run[i])
    decreases i
  {
    hide WorldInv, Step;
    if i > 0 {
      RunExact(run, events, i - 1);
      RunInv(run, events, i - 1);
      StepExact(run[i - 1], events[i - 1]);
    }
  }

  // --------------------------------------------------------------------- the outcome

  /** Something the transaction read from the store was written after its snapshot and reads differently now. */
  ghost predicate ReadsChanged(s: Store, t: Live)
  {
    && t.txn.start <= U64_MAX && s.rev <= U64_MAX
    && exists i, k :: ReadsFromStore(t.ops, i, k)
                      && ModOf(ReadAt(s.vs, k, s.rev)) != ModOf(ReadAt(s.vs, k, t.txn.start))
  }

  lemma ValidatesExactly(s: Store, log: seq<Action>, t: Live)
    requires StoreInv(s) && LiveOk(s, log, t) && ReadSetExact(s, t)
    ensures Validates(s.vs, t.txn.readSet) <==> !ReadsChanged(s, t)
  {
    hide ReadAt, ReadsFromStore, StoreInv;
    if Validates(s.vs, t.txn.readSet) {
      forall i, k | ReadsFromStore(t.ops, i, k)
        ensures ModOf(ReadAt(s.vs, k, s.rev)) == ModOf(ReadAt(s.vs, k, t.txn.start))
      {
        var e := (k, ModOf(ReadAt(s.vs, k, t.txn.start)));
        var j :| 0 <= j < |t.txn.readSet| && t.txn.readSet[j] == e;
        LatestIsCurrent(s, k);
      }
    } else {
      var j :| 0 <= j < |t.txn.readSet|
               && ModOf(ReadAt(s.vs, t.txn.readSet[j].0, U64_MAX)) != t.txn.readSet[j].1;
      assert RecordedRead(s.vs, t, t.txn.readSet[j]);
      LatestIsCurrent(s, t.txn.readSet[j].0);
    }
  }

  /** The transaction of a writing commit stands at its revision in the serial order and read what it reads there. */
  ghost predicate PlacedAt(log: seq<Action>, c: nat, t: Live)
  {
    && 1 <= c <= |log| && log[c - 1] == TxnAction(t.ops, t.outs)
    && t.outs == SerialOuts(SerialMap(log[..c - 1]), t.ops)
  }

  /**
   In every run: a commit that wrote anything ends in a conflict if and only if something it read
   from the store has changed, and then leaves the store alone. Else it returns a revision: for a
   writing transaction its place in the serial order, the latest one; for a read-only one the
   revision at which all its reads are right.
   */
  lemma CommitOutcomeExactly(run: seq<World>, events: seq<Event>, i: nat, id: nat)
    requires IsRun(run, events) && i < |events| && events[i] == TryCommit(id)
    ensures id in run[i].live && run[i].store.rev < U64_MAX
    ensures var t := run[i].live[id];
            match Commit(run[i].store, t.txn).1
            case Err(_) =>
              && WritesOf(t.ops) != [] && ReadsChanged(run[i].store, t)
              && run[i + 1].store == run[i].store && run[i + 1].log == run[i].log
            case Ok(c) =>
              if WritesOf(t.ops) == [] then
                && run[i + 1].store == run[i].store && c <= |run[i].log|
                && t.outs == SerialOuts(SerialMap(run[i].log[..c]), t.ops)
              else
                && !ReadsChanged(run[i].store, t)
                && c == run[i + 1].store.rev == |run[i + 1].log| && PlacedAt(run[i + 1].log, c, t)
  {
    hide SerialMap, SerialOuts, ReadsChanged, WritesOf, CommitWrites, Validates, StoreInv, OutsOk, ReaderOk,
         ReadsRecorded, ReadSetExact;
    assert Enabled(run[i], events[i]);
    RunInv(run, events, i);
    RunInv(run, events, i + 1);
    RunExact(run, events, i);
    var t := run[i].live[id];
    assert LiveOk(run[i].store, run[i].log, t) && ReadSetExact(run[i].store, t);
    ValidatesExactly(run[i].store, run[i].log, t);
    if Commit(run[i].store, t.txn).1.Ok? && WritesOf(t.ops) != [] {
      CommitPlaced(run[i + 1], run[i].log, t);
    }
  }

  lemma CommitPlaced(w: World, before: seq<Action>, t: Live)
    requires WorldInv(w) && w.log == before + [TxnAction(t.ops, t.outs)]
    ensures |w.log| == w.store.rev && PlacedAt(w.log, |w.log|, t)
  {
    hide SerialMap, SerialOuts, StoreInv, LiveOk, ReaderOk;
    assert w.log[|before|].TxnAction?;
  }
}
