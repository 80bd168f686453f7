/** The versioned store over the engine, updated in place. */
module Mvcc {
  import opened Common
  import opened Bytes
  import opened Lsm
  import opened Engines
  import opened Version
  import opened MvccModel
  import opened MvccScan

  // ------------------------------------------------------------- what writes do

  /** `s'` extends `s` by versions at later revisions only. */
  ghost predicate Extends(s: Store, s': Store)
  {
    && s.rev <= s'.rev
    && (forall p :: p in s.vs ==> p in s'.vs && s'.vs[p] == s.vs[p])
    && (forall p :: p in s'.vs && p.1 <= s.rev ==> p in s.vs)
  }

  /** Later writes never change a read at an already reached revision. */
  lemma SnapshotsAreStable(s: Store, s': Store, k: Bytes, r: Revision)
    requires Extends(s, s') && r <= s.rev
    ensures ReadAt(s'.vs, k, r) == ReadAt(s.vs, k, r)
  {
    ReadsAreStable(s.vs, s'.vs, k, r);
  }

  lemma WriteExtends(s: Store, k: Bytes, v: VersionedValue)
    requires StoreInv(s)
    ensures Extends(s, Store(s.rev + 1, s.vs[(k, s.rev + 1) := v]))
  {
    assert (k, s.rev + 1) in s.vs ==> VersionOk(s, (k, s.rev + 1));
  }

  lemma {:induction false} NothingAbove(s: Store, k: Bytes, r: Revision)
    requires StoreInv(s) && r >= s.rev
    ensures LatestAt(s.vs, k, r) == LatestAt(s.vs, k, s.rev)
    decreases r
  {
    if r > s.rev {
      assert (k, r) in s.vs ==> VersionOk(s, (k, r));
      NothingAbove(s, k, r - 1);
    }
  }

  /** A write is what reads from its revision on see, and only of its key. */
  lemma WriteIsSeen(s: Store, k: Bytes, v: VersionedValue, x: Bytes, r: Revision)
    requires StoreInv(s) && r > s.rev
    ensures VersionAt(s.vs[(k, s.rev + 1) := v], x, r) == if x == k then Some(v) else VersionAt(s.vs, x, s.rev)
  {
    var rev := s.rev + 1;
    var vs' := s.vs[(k, rev) := v];
    NothingAbove(s, x, r);
    LatestAtExactly(s.vs, x, s.rev);
    LatestAtExactly(s.vs, x, r);
    if x == k {
      forall y: Revision | rev < y <= r ensures (k, y) !in vs' { assert (k, y) in s.vs ==> VersionOk(s, (k, y)); }
      LatestAtIs(vs', k, r, rev);
    } else {
      LatestAtExactly(vs', x, r);
    }
  }

  lemma WriteKeepsInv(s: Store, k: Bytes, v: VersionedValue)
    requires StoreInv(s) && s.rev + 1 < U64_MAX && ValueFits(v) && v.modRevision == s.rev + 1
    ensures StoreInv(Store(s.rev + 1, s.vs[(k, s.rev + 1) := v]))
  {
    var s' := Store(s.rev + 1, s.vs[(k, s.rev + 1) := v]);
    forall p | p in s'.vs ensures VersionOk(s', p) {
      if p != (k, s.rev + 1) { assert VersionOk(s, p); }
    }
  }

  lemma SeenFits(s: Store, k: Bytes, r: Revision)
    requires StoreInv(s)
    ensures Seen(s.vs, k, r).Some? ==> ValueFits(Seen(s.vs, k, r).value)
  {
    hide ValueFits, InKeyRange;
    if Seen(s.vs, k, r).Some? {
      var p: (Bytes, Revision) :| IsFirst(s.vs, k, r, p) && Seen(s.vs, k, r) == Some(s.vs[p]);
      assert VersionOk(s, p);
    }
  }

  lemma CreateRevisionFits(s: Store, k: Bytes)
    requires StoreInv(s)
    ensures CreateRevision(s.vs, k, s.rev + 1) <= U64_MAX
  {
    LatestAtExactly(s.vs, k, U64_MAX);
    if LatestAt(s.vs, k, U64_MAX).Some? { assert VersionOk(s, (k, LatestAt(s.vs, k, U64_MAX).value)); }
  }

  lemma RevisionsBelowMax(s: Store)
    requires StoreInv(s)
    ensures forall p :: p in s.vs ==> p.1 < U64_MAX
  {
    forall p | p in s.vs ensures p.1 < U64_MAX { assert VersionOk(s, p); }
  }

  // ---------------------------------------------------------------------- class

  class MvccStore {
    const engine: Engine
    var currentRevision: nat
    ghost var vs: Versions

    ghost function Value(): Store
      reads this
    {
      Store(currentRevision, vs)
    }

    /** The engine holds the versions. Nothing is asked of the keys. */
    ghost predicate Valid()
      reads this, engine
    {
      Encodes(engine.data, vs) && StoreInv(Value())
    }

    constructor (engine: Engine)
      requires engine.data == map[]
      ensures Valid() && Value() == Store(0, map[]) && this.engine == engine
    {
      this.engine := engine;
      currentRevision, vs := 0, map[];
    }

    method NextRevision() returns (r: nat)
      modifies this`currentRevision
      ensures r == currentRevision == old(currentRevision) + 1
    {
      currentRevision := currentRevision + 1;
      r := currentRevision;
    }

    lemma SeenBesideFitting(key: Bytes, r: Revision)
      requires Valid()
      ensures FitsIn(vs, key) ==> Seen(vs, key, r) == VersionAt(vs, key, r)
    {
      hide Encodes, FitsIn, VersionAt, Seen, StoreInv;
      RevisionsBelowMax(Value());
      if FitsIn(vs, key) { SeenIsLatest(vs, key, r); }
    }

    /** The versions in the byte range of a key, in byte order. */
    method ScanVersions(key: Bytes) returns (ps: Pairs)
      requires Valid() && Accepted(key)
      ensures forall r: Revision :: ListsRange(vs, key, ps, r) && FirstAtMost(ps, r) == Seen(vs, key, r)
    {
      hide Encodes, FirstAtMost, Seen, DecodeKey, DecodeValue, Decodable, InKeyRange, EncodeKey, PrefixStart,
           PrefixEnd;
      ps := engine.Scan(PrefixStart(key), PrefixEnd(key));
      forall r: Revision ensures ListsRange(vs, key, ps, r) && FirstAtMost(ps, r) == Seen(vs, key, r) {
        GetFinds(engine.data, vs, key, r, ps);
      }
    }

    method GetAtRevision(key: Bytes, revision: Revision) returns (r: Option<KeyValue>)
      requires Valid() && Accepted(key)
      ensures r == Shown(key, Seen(vs, key, revision))
      ensures FitsIn(vs, key) ==> r == ReadAt(vs, key, revision)
    {
      hide Encodes, VersionAt, DecodeKey, DecodeValue, Seen, FitsIn, Accepted, Decodable, InKeyRange;
      var ps := ScanVersions(key);
      assert ListsRange(vs, key, ps, revision);
      SeenBesideFitting(key, revision);
      assert ps[0..] == ps;
      for i := 0 to |ps|
        invariant FirstAtMost(ps, revision) == FirstAtMost(ps[i..], revision)
      {
        assert ps[i..][1..] == ps[i + 1..];
        if DecodeKey(ps[i].0).1 > revision { continue; }
        return Shown(key, Some(DecodeValue(ps[i].1)));
      }
      r := None;
    }

    method Get(key: Bytes) returns (r: Option<KeyValue>)
      requires Valid() && Accepted(key)
      ensures r == Shown(key, Seen(vs, key, U64_MAX))
      ensures FitsIn(vs, key) ==> r == ReadAt(vs, key, U64_MAX)
    {
      r := GetAtRevision(key, U64_MAX);
    }

    method LatestVersionInfo(key: Bytes) returns (r: Option<VersionedValue>)
      requires Valid() && Accepted(key)
      ensures r == Seen(vs, key, U64_MAX)
      ensures FitsIn(vs, key) ==> r == VersionAt(vs, key, U64_MAX)
    {
      hide Encodes, VersionAt, DecodeKey, DecodeValue, Seen, FitsIn, Accepted, Decodable, InKeyRange;
      var ps := ScanVersions(key);
      assert ListsRange(vs, key, ps, U64_MAX);
      SeenBesideFitting(key, U64_MAX);
      r := if ps == [] then None else Some(DecodeValue(ps[0].1));
      assert r == FirstAtMost(ps, U64_MAX);
    }

    method PutVersioned(key: Bytes, v: VersionedValue, revision: Revision)
      requires Encodes(engine.data, vs) && ValueFits(v)
      modifies this`vs, engine
      ensures Encodes(engine.data, vs) && vs == old(vs)[(key, revision) := v]
    {
      hide Encodes, EncodeKey, EncodeValue;
      EncodesPut(engine.data, vs, key, revision, v);
      engine.Put(EncodeKey(key, revision), EncodeValue(v));
      vs := vs[(key, revision) := v];
    }

    /** One version is added. Beside compatible keys the creation revision is that of the key itself. */
    method PutWithOptions(key: Bytes, value: Bytes, leaseId: int, ttlSeconds: int) returns (revision: nat)
      requires Valid() && Accepted(key) && currentRevision + 1 < U64_MAX && |value| <= U32_MAX
      requires I64_MIN <= leaseId <= I64_MAX && I64_MIN <= ttlSeconds <= I64_MAX
      modifies this, engine
      ensures Valid() && revision == old(currentRevision) + 1
      ensures Value() == PutSeen(old(Value()), key, value, leaseId, ttlSeconds, Seen(old(vs), key, U64_MAX))
      ensures FitsIn(old(vs), key) ==> Value() == PutVersion(old(Value()), key, value, leaseId, ttlSeconds)
      ensures FitsIn(old(vs), key) && KeysOk(old(vs)) ==> KeysOk(vs)
    {
      hide Encodes, KeysOk, VersionAt, StoreInv, Seen, FitsIn, Accepted;
      ghost var s := Value();
      var latest := LatestVersionInfo(key);
      SeenFits(s, key, U64_MAX);
      revision := NextRevision();
      var createRevision := if latest.Some? && latest.value.value.Some? then latest.value.createRevision else revision;
      var v := VersionedValue(Some(value), createRevision, revision, leaseId, ttlSeconds);
      WriteKeepsInv(s, key, v);
      KeysMayStayOk(s.vs, key, revision, v);
      PutVersioned(key, v, revision);
    }

    method Delete(key: Bytes) returns (revision: nat, existed: bool)
      requires Valid() && Accepted(key) && currentRevision + 1 < U64_MAX
      modifies this, engine
      ensures Valid() && revision == old(currentRevision) + 1
      ensures existed <==> Shown(key, Seen(old(vs), key, U64_MAX)).Some?
      ensures FitsIn(old(vs), key) ==> (existed <==> ReadAt(old(vs), key, U64_MAX).Some?)
      ensures Value() == DeleteVersion(old(Value()), key)
      ensures FitsIn(old(vs), key) && KeysOk(old(vs)) ==> KeysOk(vs)
    {
      hide Encodes, KeysOk, VersionAt, StoreInv, Seen, FitsIn, Accepted;
      ghost var s := Value();
      var latest := LatestVersionInfo(key);
      existed := latest.Some? && latest.value.value.Some?;
      revision := NextRevision();
      var v := VersionedValue(None, 0, revision, 0, 0);
      WriteKeepsInv(s, key, v);
      KeysMayStayOk(s.vs, key, revision, v);
      PutVersioned(key, v, revision);
    }

    /**
     Any accepted range: the loop over what was scanned. Beside compatible keys it lists the live
     keys that the internal end does not hide, and it is a snapshot exactly when it hides none.
     */
    method ScanAtRevision(start: Bytes, end: Bytes, revision: Revision) returns (kvs: seq<KeyValue>, ghost ps: Pairs)
      requires Valid() && Le(PrefixStart(start), PrefixEnd(end))
      ensures IsRange(engine.data, PrefixStart(start), PrefixEnd(end), ps) && Readable(ps)
      ensures kvs == ScanLoop(ps, None, revision, start, end)
      ensures KeysOk(vs) ==> SortedKVs(kvs) && forall kv :: kv in kvs <==>
                InRange(kv.key, start, end) && ReadAt(vs, kv.key, revision) == Some(kv)
                    && LatestReached(vs, end, kv.key, revision)
      ensures KeysOk(vs) ==> (IsSnapshot(vs, start, end, revision, kvs) <==> ReachesAll(vs, start, end, revision))
    {
      hide Encodes, KeysOk, IsSnapshot, DecodeKey, DecodeValue, Decodable, PrefixStart, PrefixEnd, InRange, ReadAt,
           LatestReached, ReachesAll, Readable, SortedKVs, IsRange;
      var pairs := engine.Scan(PrefixStart(start), PrefixEnd(end));
      ps := pairs;
      PairsReadable(engine.data, vs, PrefixStart(start), PrefixEnd(end), ps);
      if KeysOk(vs) {
        ScanLists(engine.data, vs, start, end, revision, ps);
        ScanExactly(engine.data, vs, start, end, revision, ps);
      }
      kvs := CollectVisible(pairs, start, end, revision);
    }
  }

  lemma PairsReadable(data: map<Bytes, Bytes>, vs: Versions, start: Bytes, end: Bytes, ps: Pairs)
    requires Encodes(data, vs) && IsRange(data, start, end, ps)
    ensures Readable(ps)
  {
    hide EncodeKey, DecodeKey, DecodeValue, EncodeValue, Decodable;
    forall i | 0 <= i < |ps| ensures |ps[i].0| >= 8 && Decodable(ps[i].1)
        { ScannedVersion(data, vs, start, end, ps, i); }
  }

  lemma KeysMayStayOk(vs: Versions, k: Bytes, r: Revision, v: VersionedValue)
    ensures FitsIn(vs, k) && KeysOk(vs) ==> KeysOk(vs[(k, r) := v])
  {
    if FitsIn(vs, k) && KeysOk(vs) { KeysStayOk(vs, k, r, v); }
  }

  /** The loop over the scanned pairs. */
  method CollectVisible(ps: Pairs, start: Bytes, end: Bytes, revision: Revision) returns (kvs: seq<KeyValue>)
    requires Readable(ps)
    ensures kvs == ScanLoop(ps, None, revision, start, end)
  {
    hide DecodeKey, DecodeValue, Decodable, InRange;
    kvs := [];
    var last: Option<Bytes> := None;
    assert ps[0..] == ps;
    for i := 0 to |ps|
      invariant ScanLoop(ps, None, revision, start, end) == kvs + ScanLoop(ps[i..], last, revision, start, end)
    {
      assert ps[i..][1..] == ps[i + 1..];
      var (userKey, rev) := DecodeKey(ps[i].0);
      if last == Some(userKey) { continue; }
      if rev > revision { continue; }
      kvs := kvs + Found(ps[i], start, end);
      last := Some(userKey);
    }
    assert ps[|ps|..] == [] && kvs + [] == kvs;
  }
}
