/** A transaction as the object that the source updates, proved against the transaction model. */
module Transactions {
  import opened Common
  import opened Bytes
  import opened Version
  import opened MvccModel
  import opened Mvcc
  import opened TxnModel
  import opened TxnRuns

  /** What the store answers for any accepted key. */
  ghost function Shows(vs: Versions, k: Bytes, r: Revision): Option<KeyValue>
  {
    Shown(k, Seen(vs, k, r))
  }

  predicate AllAccepted<T>(ps: seq<(Bytes, T)>)
  {
    forall i :: 0 <= i < |ps| ==> Accepted(ps[i].0)
  }

  predicate ValuesFit(ws: Writes)
  {
    forall i :: 0 <= i < |ws| && ws[i].1.Some? ==> |ws[i].1.value| <= U32_MAX
  }

  /** Every key of the list fits beside the stored ones. */
  ghost predicate AllFit<T>(vs: Versions, ps: seq<(Bytes, T)>)
  {
    forall i :: 0 <= i < |ps| ==> FitsIn(vs, ps[i].0)
  }

  /** The keys may be written beside the stored ones and beside each other. */
  ghost predicate WritesFit(vs: Versions, ws: Writes)
  {
    AllFit(vs, ws) && forall i, j :: 0 <= i < |ws| && 0 <= j < |ws| ==> Compatible(ws[i].0, ws[j].0)
  }

  /** No key of the read set shows another modification revision than it did. */
  ghost predicate Unmodified(vs: Versions, readSet: seq<(Bytes, nat)>)
  {
    forall i :: 0 <= i < |readSet| ==> ModOf(Shows(vs, readSet[i].0, U64_MAX)) == readSet[i].1
  }

  ghost function WrittenVersion(vs: Versions, k: Bytes, v: Option<Bytes>, rev: nat): VersionedValue
  {
    var existing := Shows(vs, k, U64_MAX);
    VersionedValue(v, if v.None? then 0 else if existing.Some? then existing.value.createRevision else rev, rev, 0, 0)
  }

  /** All writes, in order, at one revision, each looking up its own key first. */
  ghost function Written(vs: Versions, ws: Writes, rev: Revision): Versions
  {
    if ws == [] then vs
    else
      var before := Written(vs, ws[..|ws| - 1], rev);
      var (k, v) := ws[|ws| - 1];
      before[(k, rev) := WrittenVersion(before, k, v, rev)]
  }

  ghost function Committed(s: Store, t: Txn): (Store, Result<nat, TxnError>)
    requires s.rev < U64_MAX
  {
    if t.writeSet == [] then (s, Ok(t.start))
    else if !Unmodified(s.vs, t.readSet) then (s, Err(Conflict))
    else (Store(s.rev + 1, Written(s.vs, t.writeSet, s.rev + 1)), Ok(s.rev + 1))
  }

  lemma WrittenOneMore(vs: Versions, ws: Writes, n: nat, rev: Revision)
    requires n < |ws|
    ensures var before := Written(vs, ws[..n], rev);
            Written(vs, ws[..n + 1], rev) == before[(ws[n].0, rev) := WrittenVersion(before, ws[n].0, ws[n].1, rev)]
  {
    hide WrittenVersion;
    assert ws[..n + 1][..n] == ws[..n];
  }

  lemma {:induction false} WrittenKeepsInv(s: Store, ws: Writes)
    requires StoreInv(s) && s.rev + 1 < U64_MAX && ValuesFit(ws)
    ensures StoreInv(Store(s.rev + 1, Written(s.vs, ws, s.rev + 1)))
  {
    hide Seen, ValueFits;
    var rev := s.rev + 1;
    var s' := Store(rev, Written(s.vs, ws, rev));
    if ws == [] {
      forall p | p in s'.vs ensures VersionOk(s', p) { assert VersionOk(s, p); }
    } else {
      var before := Store(rev, Written(s.vs, ws[..|ws| - 1], rev));
      WrittenKeepsInv(s, ws[..|ws| - 1]);
      var (k, v) := ws[|ws| - 1];
      WrittenFits(before, k, v, rev);
      forall p | p in s'.vs ensures VersionOk(s', p) {
        if p != (k, rev) { assert VersionOk(before, p); }
      }
    }
  }

  lemma WrittenFits(s: Store, k: Bytes, v: Option<Bytes>, rev: Revision)
    requires StoreInv(s) && (v.Some? ==> |v.value| <= U32_MAX)
    ensures ValueFits(WrittenVersion(s.vs, k, v, rev))
  {
    hide Seen, StoreInv;
    SeenFits(s, k, U64_MAX);
  }

  // --------------------------------------------------- beside compatible keys

  lemma ShowsLatest(vs: Versions, k: Bytes, r: Revision)
    requires FitsIn(vs, k) && forall p :: p in vs ==> p.1 < U64_MAX
    ensures Shows(vs, k, r) == ReadAt(vs, k, r)
  {
    hide FitsIn, Seen, VersionAt;
    SeenIsLatest(vs, k, r);
  }

  /** After the first writes of a commit the remaining keys still fit. */
  lemma {:induction false} StillFits(vs: Versions, ws: Writes, n: nat, i: nat, rev: Revision)
    requires WritesFit(vs, ws) && n <= |ws| && i < |ws|
    ensures FitsIn(CommitWrites(vs, ws[..n], rev), ws[i].0)
    decreases n
  {
    hide CommitVersion;
    if n > 0 {
      StillFits(vs, ws, n - 1, i, rev);
      assert ws[..n][..n - 1] == ws[..n - 1];
      assert Compatible(ws[i].0, ws[n - 1].0);
    }
  }

  lemma BelowMax(s: Store, ws: Writes)
    requires StoreInv(s) && s.rev + 1 < U64_MAX && ValuesFit(ws)
    ensures forall p :: p in CommitWrites(s.vs, ws, s.rev + 1) ==> p.1 < U64_MAX
  {
    hide CommitWrites, StoreInv;
    CommitKeepsInv(s, ws);
    RevisionsBelowMax(Store(s.rev + 1, CommitWrites(s.vs, ws, s.rev + 1)));
  }

  lemma {:induction false} WrittenIsCommit(s: Store, ws: Writes, n: nat)
    requires StoreInv(s) && s.rev + 1 < U64_MAX && ValuesFit(ws) && WritesFit(s.vs, ws) && n <= |ws|
    ensures Written(s.vs, ws[..n], s.rev + 1) == CommitWrites(s.vs, ws[..n], s.rev + 1)
    decreases n
  {
    hide StoreInv, WritesFit, FitsIn, Seen, ReadAt, Shows;
    if n > 0 {
      var rev := s.rev + 1;
      WrittenIsCommit(s, ws, n - 1);
      WrittenOneMore(s.vs, ws, n - 1, rev);
      assert ws[..n][..n - 1] == ws[..n - 1];
      var before := CommitWrites(s.vs, ws[..n - 1], rev);
      StillFits(s.vs, ws, n - 1, n - 1, rev);
      BelowMax(s, ws[..n - 1]);
      ShowsLatest(before, ws[n - 1].0, U64_MAX);
    }
  }

  lemma UnmodifiedIsValid(s: Store, rs: seq<(Bytes, nat)>)
    requires StoreInv(s) && AllFit(s.vs, rs)
    ensures Unmodified(s.vs, rs) <==> Validates(s.vs, rs)
  {
    hide StoreInv, FitsIn, ReadAt, Shows;
    RevisionsBelowMax(s);
    forall i | 0 <= i < |rs| ensures Shows(s.vs, rs[i].0, U64_MAX) == ReadAt(s.vs, rs[i].0, U64_MAX) {
      ShowsLatest(s.vs, rs[i].0, U64_MAX);
    }
  }

  /** Beside compatible keys a commit is the commit of the serializable runs. */
  lemma CommittedIsCommit(s: Store, t: Txn)
    requires StoreInv(s) && s.rev + 1 < U64_MAX && ValuesFit(t.writeSet)
    requires AllFit(s.vs, t.readSet) && WritesFit(s.vs, t.writeSet)
    ensures Committed(s, t) == TxnModel.Commit(s, t)
  {
    hide StoreInv, WritesFit, AllFit, Unmodified, Validates, Written, CommitWrites;
    UnmodifiedIsValid(s, t.readSet);
    WrittenIsCommit(s, t.writeSet, |t.writeSet|);
    assert t.writeSet[..|t.writeSet|] == t.writeSet;
  }

  // ---------------------------------------------------------------------- class

  class Transaction {
    const store: MvccStore
    const startRevision: nat
    var readSet: seq<(Bytes, nat)>
    var writeSet: Writes

    function Value(): Txn
      reads this
    {
      Txn(startRevision, readSet, writeSet)
    }

    constructor (store: MvccStore)
      ensures this.store == store && Value() == Txn(store.currentRevision, [], [])
    {
      this.store := store;
      startRevision := store.currentRevision;
      readSet, writeSet := [], [];
    }

    method Get(key: Bytes) returns (r: Option<Bytes>)
      requires store.Valid() && Accepted(key) && startRevision <= store.currentRevision
      modifies this
      ensures (Value(), r) == Answered(old(Value()), key, Shows(store.vs, key, startRevision))
      ensures FitsIn(store.vs, key) ==> (Value(), r) == TxnGet(old(Value()), store.vs, key)
    {
      hide Encodes, FitsIn, ReadAt, Accepted, Seen;
      assert writeSet[..|writeSet|] == writeSet;
      for i := |writeSet| downto 0
        invariant Value() == old(Value()) && Buffered(writeSet, key) == Buffered(writeSet[..i], key)
      {
        assert writeSet[..i + 1][..i] == writeSet[..i];
        if writeSet[i].0 == key { return writeSet[i].1; }
      }
      var result := store.GetAtRevision(key, startRevision);
      readSet := readSet + [(key, ModOf(result))];
      r := ValueOf(result);
    }

    method Put(key: Bytes, value: Bytes)
      modifies this
      ensures Value() == TxnWrite(old(Value()), key, Some(value))
    {
      writeSet := writeSet + [(key, Some(value))];
    }

    method Delete(key: Bytes)
      modifies this
      ensures Value() == TxnWrite(old(Value()), key, None)
    {
      writeSet := writeSet + [(key, None)];
    }

    method Validate() returns (ok: bool)
      requires store.Valid() && AllAccepted(readSet)
      ensures ok <==> Unmodified(store.vs, readSet)
    {
      hide Encodes, FitsIn, ReadAt, Accepted, Seen;
      for i := 0 to |readSet|
        invariant forall j :: 0 <= j < i ==> ModOf(Shows(store.vs, readSet[j].0, U64_MAX)) == readSet[j].1
      {
        var current := store.Get(readSet[i].0);
        if ModOf(current) != readSet[i].1 { return false; }
      }
      ok := true;
    }

    method WriteOne(key: Bytes, value: Option<Bytes>, commitRevision: Revision)
      requires store.Valid() && Accepted(key) && commitRevision == store.currentRevision
      requires value.Some? ==> |value.value| <= U32_MAX
      modifies store, store.engine
      ensures store.currentRevision == old(store.currentRevision) && Encodes(store.engine.data, store.vs)
      ensures store.vs == old(store.vs)[(key, commitRevision) := WrittenVersion(old(store.vs), key, value,
              commitRevision)]
    {
      hide Encodes, FitsIn, ReadAt, Seen, Accepted, StoreInv;
      WrittenFits(store.Value(), key, value, commitRevision);
      var createRevision := 0;
      if value.Some? {
        var existing := store.Get(key);
        createRevision := if existing.Some? then existing.value.createRevision else commitRevision;
      }
      store.PutVersioned(key, VersionedValue(value, createRevision, commitRevision, 0, 0), commitRevision);
    }

    /** Any accepted keys. Beside compatible ones this is the commit that the runs are made of. */
    method Commit() returns (r: Result<nat, TxnError>)
      requires store.Valid() && store.currentRevision + 1 < U64_MAX
      requires AllAccepted(readSet) && AllAccepted(writeSet) && ValuesFit(writeSet)
      modifies store, store.engine
      ensures store.Valid()
      ensures (store.Value(), r) == Committed(old(store.Value()), Value())
      ensures AllFit(old(store.vs), readSet) && WritesFit(old(store.vs), writeSet) ==>
                (store.Value(), r) == TxnModel.Commit(old(store.Value()), Value())
    {
      hide Encodes, StoreInv, Written, WrittenVersion, Unmodified, WritesFit, AllFit, TxnModel.Commit, Accepted;
      ghost var s := store.Value();
      if AllFit(s.vs, readSet) && WritesFit(s.vs, writeSet) { CommittedIsCommit(s, Value()); }
      if writeSet == [] { return Ok(startRevision); }
      var valid := Validate();
      if !valid { return Err(Conflict); }
      var ws := writeSet;
      var commitRevision := store.NextRevision();
      NothingWritten(s.vs, ws, commitRevision);
      for i := 0 to |ws|
        invariant store.currentRevision == commitRevision && store.vs == Written(s.vs, ws[..i], commitRevision)
        invariant Encodes(store.engine.data, store.vs)
      {
        WrittenKeepsInv(s, ws[..i]);
        WrittenOneMore(s.vs, ws, i, commitRevision);
        WriteOne(ws[i].0, ws[i].1, commitRevision);
      }
      assert ws[..|ws|] == ws;
      WrittenKeepsInv(s, ws);
      r := Ok(commitRevision);
    }
  }

  lemma NothingWritten(vs: Versions, ws: Writes, rev: Revision)
    ensures Written(vs, ws[..0], rev) == vs
  {
  }
}
