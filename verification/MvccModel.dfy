/**
 The versioned store as a value: a map from (user key, revision) to a version. Reads at a revision
 mean the last version at or below it; the lemmas tie this to what the byte-level scan finds.
 */
module MvccModel {
  import opened Common
  import opened Bytes
  import opened Lsm
  import opened Engines
  import opened Version

  type Versions = map<(Bytes, Revision), VersionedValue>

  datatype KeyValue = KeyValue(key: Bytes, value: Bytes, createRevision: nat, modRevision: nat, leaseId: int)

  datatype Store = Store(rev: nat, vs: Versions)

  // ----------------------------------------------------------- what a read means

  /** The greatest revision of the key at or below `r`. */
  ghost function LatestAt(vs: Versions, k: Bytes, r: Revision): Option<Revision>
    decreases r
  {
    if (k, r) in vs then Some(r) else if r == 0 then None else LatestAt(vs, k, r - 1)
  }

  lemma {:induction false} LatestAtExactly(vs: Versions, k: Bytes, r: Revision)
    ensures match LatestAt(vs, k, r)
            case Some(x) => x <= r && (k, x) in vs && forall y: Revision :: x < y <= r ==> (k, y) !in vs
            case None => forall y: Revision :: y <= r ==> (k, y) !in vs
    decreases r
  {
    if (k, r) !in vs && r > 0 { LatestAtExactly(vs, k, r - 1); }
  }

  lemma LatestAtIs(vs: Versions, k: Bytes, r: Revision, x: Revision)
    requires x <= r && (k, x) in vs && forall y: Revision :: x < y <= r ==> (k, y) !in vs
    ensures LatestAt(vs, k, r) == Some(x)
  {
    LatestAtExactly(vs, k, r);
  }

  ghost function VersionAt(vs: Versions, k: Bytes, r: Revision): Option<VersionedValue>
  {
    LatestAtExactly(vs, k, r);
    match LatestAt(vs, k, r)
    case Some(x) => Some(vs[(k, x)])
    case None => None
  }

  function Shown(k: Bytes, v: Option<VersionedValue>): Option<KeyValue>
  {
    match v
    case Some(vv) =>
      (match vv.value
       case Some(b) => Some(KeyValue(k, b, vv.createRevision, vv.modRevision, vv.leaseId))
       case None => None)
    case None => None
  }

  /** What `get_at_revision` returns. */
  ghost function ReadAt(vs: Versions, k: Bytes, r: Revision): Option<KeyValue>
  {
    Shown(k, VersionAt(vs, k, r))
  }

  ghost function ValueAt(vs: Versions, k: Bytes, r: Revision): Option<Bytes>
  {
    match ReadAt(vs, k, r)
    case Some(kv) => Some(kv.value)
    case None => None
  }

  /** Later versions do not matter to a read at an earlier revision. */
  lemma {:induction false} ReadsAreStable(vs: Versions, vs': Versions, k: Bytes, r: Revision)
    requires forall y: Revision :: y <= r ==>
             ((k, y) in vs <==> (k, y) in vs') && ((k, y) in vs ==> vs'[(k, y)] == vs[(k, y)])
    ensures LatestAt(vs', k, r) == LatestAt(vs, k, r) && ReadAt(vs', k, r) == ReadAt(vs, k, r)
    decreases r
  {
    LatestAtExactly(vs, k, r);
    if (k, r) !in vs && r > 0 { ReadsAreStable(vs, vs', k, r - 1); }
  }

  // ------------------------------------------------------------------- writes

  /** The creation revision carries over while the key stays live. */
  ghost function CreateRevision(vs: Versions, k: Bytes, rev: nat): nat
  {
    match VersionAt(vs, k, U64_MAX)
    case Some(vv) => if vv.value.Some? then vv.createRevision else rev
    case None => rev
  }

  ghost function PutVersion(s: Store, k: Bytes, v: Bytes, leaseId: int, ttl: int): Store
    requires s.rev < U64_MAX
  {
    var rev := s.rev + 1;
    Store(rev, s.vs[(k, rev) := VersionedValue(Some(v), CreateRevision(s.vs, k, rev), rev, leaseId, ttl)])
  }

  /** A put that found `latest` in the byte range of its key. */
  function PutSeen(s: Store, k: Bytes, v: Bytes, leaseId: int, ttl: int, latest: Option<VersionedValue>): Store
    requires s.rev < U64_MAX
  {
    var rev := s.rev + 1;
    var created := if latest.Some? && latest.value.value.Some? then latest.value.createRevision else rev;
    Store(rev, s.vs[(k, rev) := VersionedValue(Some(v), created, rev, leaseId, ttl)])
  }

  function DeleteVersion(s: Store, k: Bytes): Store
    requires s.rev < U64_MAX
  {
    Store(s.rev + 1, s.vs[(k, s.rev + 1) := VersionedValue(None, 0, s.rev + 1, 0, 0)])
  }

  // -------------------------------------------------------------- invariants

  ghost predicate VersionOk(s: Store, p: (Bytes, Revision))
  {
    p in s.vs && 1 <= p.1 <= s.rev && s.vs[p].modRevision == p.1 && ValueFits(s.vs[p])
  }

  /** Revisions count from one, every version carries its own, and all of them fit their fields. */
  ghost predicate StoreInv(s: Store)
  {
    s.rev < U64_MAX && forall p {:trigger VersionOk(s, p)} :: p in s.vs ==> VersionOk(s, p)
  }

  /** The key may be stored beside the ones already there. */
  ghost predicate FitsIn(vs: Versions, k: Bytes)
  {
    !AllFF(k) && forall p :: p in vs ==> Compatible(k, p.0)
  }

  /** No stored key is a prefix of another, none is empty or all 0xFF. */
  ghost predicate KeysOk(vs: Versions)
  {
    forall p :: p in vs ==> FitsIn(vs, p.0)
  }

  lemma CompatibleSymmetric(a: Bytes, b: Bytes)
    ensures Compatible(a, b) <==> Compatible(b, a)
  {
  }

  lemma KeysStayOk(vs: Versions, k: Bytes, r: Revision, v: VersionedValue)
    requires KeysOk(vs) && FitsIn(vs, k)
    ensures KeysOk(vs[(k, r) := v]) && FitsIn(vs[(k, r) := v], k)
  {
    forall p | p in vs ensures Compatible(p.0, k) { CompatibleSymmetric(p.0, k); }
  }

  // ----------------------------------------------------------- the byte level

  /** The engine holds one pair for each version. */
  ghost predicate Encodes(data: map<Bytes, Bytes>, vs: Versions)
  {
    && (forall p :: p in vs ==>
         ValueFits(vs[p]) && EncodeKey(p.0, p.1) in data && data[EncodeKey(p.0, p.1)] == EncodeValue(vs[p]))
    && (forall x :: x in data ==> |x| >= 8 && DecodeKey(x) in vs && EncodeKey(DecodeKey(x).0, DecodeKey(x).1) == x)
  }

  lemma EncodesPut(data: map<Bytes, Bytes>, vs: Versions, k: Bytes, r: Revision, v: VersionedValue)
    requires Encodes(data, vs) && ValueFits(v)
    ensures Encodes(data[EncodeKey(k, r) := EncodeValue(v)], vs[(k, r) := v])
  {
    hide EncodeKey, DecodeKey, EncodeValue, ValueFits;
    KeyRoundTrip(k, r);
    var data', vs' := data[EncodeKey(k, r) := EncodeValue(v)], vs[(k, r) := v];
    forall p | p in vs' ensures data'[EncodeKey(p.0, p.1)] == EncodeValue(vs'[p]) {
      if p != (k, r) { KeyRoundTrip(p.0, p.1); }
    }
  }

  /** A scanned pair is a stored version. */
  lemma ScannedVersion(data: map<Bytes, Bytes>, vs: Versions, start: Bytes, end: Bytes, ps: Pairs, i: nat)
    requires Encodes(data, vs) && IsRange(data, start, end, ps) && i < |ps|
    ensures |ps[i].0| >= 8
    ensures var p := DecodeKey(ps[i].0);
            p in vs && ps[i].0 == EncodeKey(p.0, p.1) && InRange(ps[i].0, start, end) && ps[i].1 == EncodeValue(vs[p])
            && Decodable(ps[i].1) && DecodeValue(ps[i].1) == vs[p]
  {
    assert (ps[i].0, ps[i].1) in ps;
    ValueRoundTrip(vs[DecodeKey(ps[i].0)]);
  }

  /** The loop of `get_at_revision`: the first pair whose revision is not too new. */
  function FirstAtMost(ps: Pairs, r: Revision): Option<VersionedValue>
    requires forall i :: 0 <= i < |ps| ==> |ps[i].0| >= 8 && Decodable(ps[i].1)
  {
    if ps == [] then None
    else if DecodeKey(ps[0].0).1 > r then FirstAtMost(ps[1..], r)
    else Some(DecodeValue(ps[0].1))
  }

  /** The pairs are the versions of one key, newest first, none missing. */
  ghost predicate ListsVersions(vs: Versions, k: Bytes, ps: Pairs)
  {
    && (forall i :: 0 <= i < |ps| ==>
          && |ps[i].0| >= 8 && DecodeKey(ps[i].0).0 == k && DecodeKey(ps[i].0) in vs
          && Decodable(ps[i].1) && DecodeValue(ps[i].1) == vs[DecodeKey(ps[i].0)])
    && (forall i, j :: 0 <= i < j < |ps| ==> DecodeKey(ps[i].0).1 > DecodeKey(ps[j].0).1)
  }

  ghost predicate Complete(vs: Versions, k: Bytes, ps: Pairs, above: nat)
    requires forall i :: 0 <= i < |ps| ==> |ps[i].0| >= 8
  {
    forall r: Revision :: (k, r) in vs && r <= above ==> exists i :: 0 <= i < |ps| && DecodeKey(ps[i].0).1 == r
  }

  lemma {:induction false} FirstIsLatest(vs: Versions, k: Bytes, ps: Pairs, r: Revision)
    requires ListsVersions(vs, k, ps) && Complete(vs, k, ps, r)
    ensures FirstAtMost(ps, r) == VersionAt(vs, k, r)
    decreases |ps|
  {
    hide DecodeKey, DecodeValue, Decodable;
    LatestAtExactly(vs, k, r);
    if ps != [] {
      var x := DecodeKey(ps[0].0).1;
      if x > r {
        forall y: Revision | (k, y) in vs && y <= r
            ensures exists i :: 0 <= i < |ps[1..]| && DecodeKey(ps[1..][i].0).1 == y {
          var i :| 0 <= i < |ps| && DecodeKey(ps[i].0).1 == y;
          assert ps[1..][i - 1] == ps[i];
        }
        FirstIsLatest(vs, k, ps[1..], r);
      } else {
        assert forall i :: 0 <= i < |ps| ==> DecodeKey(ps[i].0).1 <= x;
        assert forall y: Revision :: x < y <= r ==> (k, y) !in vs;
        LatestAtIs(vs, k, r, x);
      }
    }
  }

  lemma VersionListed(data: map<Bytes, Bytes>, vs: Versions, k: Bytes, ps: Pairs, r: Revision) returns (i: nat)
    requires Encodes(data, vs) && !AllFF(k) && IsRange(data, PrefixStart(k), PrefixEnd(k), ps) && (k, r) in vs
    ensures i < |ps| && |ps[i].0| >= 8 && DecodeKey(ps[i].0) == (k, r)
  {
    OwnVersionsInside(k, r);
    KeyRoundTrip(k, r);
    assert (EncodeKey(k, r), data[EncodeKey(k, r)]) in ps;
    i :| 0 <= i < |ps| && ps[i] == (EncodeKey(k, r), data[EncodeKey(k, r)]);
  }

  /** On compatible keys the scan of a key's range lists exactly its versions, newest first. */
  lemma RangeLists(data: map<Bytes, Bytes>, vs: Versions, k: Bytes, ps: Pairs)
    requires Encodes(data, vs) && FitsIn(vs, k) && IsRange(data, PrefixStart(k), PrefixEnd(k), ps)
    requires forall p :: p in vs ==> p.1 < U64_MAX
    ensures ListsVersions(vs, k, ps)
  {
    forall i | 0 <= i < |ps|
      ensures && |ps[i].0| >= 8 && DecodeKey(ps[i].0).0 == k && DecodeKey(ps[i].0) in vs
              && Decodable(ps[i].1) && DecodeValue(ps[i].1) == vs[DecodeKey(ps[i].0)]
                 && ps[i].0 == EncodeKey(k, DecodeKey(ps[i].0).1)
    {
      ScannedVersion(data, vs, PrefixStart(k), PrefixEnd(k), ps, i);
      var p := DecodeKey(ps[i].0);
      RangeExactly(k, p.0, p.1);
    }
    forall i, j | 0 <= i < j < |ps|
      ensures DecodeKey(ps[i].0).1 > DecodeKey(ps[j].0).1
    {
      NewestFirst(k, DecodeKey(ps[i].0).1, DecodeKey(ps[j].0).1);
    }
  }

  /** The byte-level read is the read at the revision. */
  lemma GetIsRight(data: map<Bytes, Bytes>, vs: Versions, k: Bytes, r: Revision, ps: Pairs)
    requires Encodes(data, vs) && FitsIn(vs, k) && IsRange(data, PrefixStart(k), PrefixEnd(k), ps)
    requires forall p :: p in vs ==> p.1 < U64_MAX
    ensures ListsVersions(vs, k, ps) && FirstAtMost(ps, r) == VersionAt(vs, k, r)
  {
    RangeLists(data, vs, k, ps);
    forall y: Revision | (k, y) in vs && y <= r ensures exists i :: 0 <= i < |ps| && DecodeKey(ps[i].0).1 == y {
      var i := VersionListed(data, vs, k, ps, y);
    }
    FirstIsLatest(vs, k, ps, r);
  }

  // ------------------------------------------------------ reads of any key

  /** The ordered map takes the range of the key; it panics on an inverted one. */
  predicate Accepted(k: Bytes)
  {
    Le(PrefixStart(k), PrefixEnd(k))
  }

  /** Only keys of 0xFF bytes are refused; the empty key is taken. */
  lemma AcceptedExactly(k: Bytes)
    ensures Accepted(k) <==> k == [] || !AllFF(k)
  {
    if !AllFF(k) {
      OwnVersionsInside(k, 0);
      var x := EncodeKey(k, 0);
      if PrefixStart(k) != x { LtTransitive(PrefixStart(k), x, PrefixEnd(k)); }
    } else if k == [] {
      StartIsZeros(k);
      assert PrefixEnd(k)[0] == 0x01 && PrefixStart(k)[0] == 0x00;
    } else {
      AllFFRangeIsInverted(k);
      LtAsymmetric(PrefixEnd(k), PrefixStart(k));
    }
  }

  predicate InKeyRange(k: Bytes, p: (Bytes, Revision))
  {
    InRange(EncodeKey(p.0, p.1), PrefixStart(k), PrefixEnd(k))
  }

  /** Of the stored versions in the byte range of the key that are not too new, the first in byte order. */
  ghost predicate IsFirst(vs: Versions, k: Bytes, r: Revision, p: (Bytes, Revision))
  {
    && p in vs && InKeyRange(k, p) && p.1 <= r
    && forall q :: q in vs && InKeyRange(k, q) && q.1 <= r && q != p ==> Lt(EncodeKey(p.0, p.1), EncodeKey(q.0, q.1))
  }

  /** What a read of any accepted key finds, of whatever key the version is. */
  ghost function Seen(vs: Versions, k: Bytes, r: Revision): Option<VersionedValue>
  {
    if exists p :: IsFirst(vs, k, r, p) then
      var p :| IsFirst(vs, k, r, p);
      Some(vs[p])
    else None
  }

  lemma FirstBefore(vs: Versions, k: Bytes, r: Revision, p: (Bytes, Revision), q: (Bytes, Revision))
    requires IsFirst(vs, k, r, p) && q in vs && InKeyRange(k, q) && q.1 <= r && q != p
    ensures Lt(EncodeKey(p.0, p.1), EncodeKey(q.0, q.1))
  {
  }

  lemma SeenIs(vs: Versions, k: Bytes, r: Revision, p: (Bytes, Revision))
    requires IsFirst(vs, k, r, p)
    ensures Seen(vs, k, r) == Some(vs[p])
  {
    hide InKeyRange, EncodeKey;
    var q: (Bytes, Revision) :| IsFirst(vs, k, r, q) && Seen(vs, k, r) == Some(vs[q]);
    assert IsFirst(vs, k, r, q);
    if p != q {
      FirstBefore(vs, k, r, p, q);
      FirstBefore(vs, k, r, q, p);
      LtAsymmetric(EncodeKey(p.0, p.1), EncodeKey(q.0, q.1));
    }
  }

  /** The pairs can be decoded; they are versions in byte order, none of those at or below `r` missing. */
  ghost predicate ListsRange(vs: Versions, k: Bytes, ps: Pairs, r: Revision)
  {
    && (forall i :: 0 <= i < |ps| ==>
          && |ps[i].0| >= 8 && Decodable(ps[i].1) && DecodeKey(ps[i].0) in vs && InKeyRange(k, DecodeKey(ps[i].0))
          && DecodeValue(ps[i].1) == vs[DecodeKey(ps[i].0)]
             && ps[i].0 == EncodeKey(DecodeKey(ps[i].0).0, DecodeKey(ps[i].0).1))
    && SortedPairs(ps)
    && (forall q :: q in vs && InKeyRange(k, q) && q.1 <= r ==> exists i :: 0 <= i < |ps| && DecodeKey(ps[i].0) == q)
  }

  lemma {:induction false} FirstIsSeen(vs: Versions, k: Bytes, ps: Pairs, r: Revision)
    requires ListsRange(vs, k, ps, r)
    ensures FirstAtMost(ps, r) == Seen(vs, k, r)
    decreases |ps|
  {
    hide DecodeKey, DecodeValue, Decodable, InKeyRange, EncodeKey;
    if ps != [] {
      var p := DecodeKey(ps[0].0);
      if p.1 > r {
        forall q | q in vs && InKeyRange(k, q) && q.1 <= r
            ensures exists i :: 0 <= i < |ps[1..]| && DecodeKey(ps[1..][i].0) == q {
          var i :| 0 <= i < |ps| && DecodeKey(ps[i].0) == q;
          assert ps[1..][i - 1] == ps[i];
        }
        FirstIsSeen(vs, k, ps[1..], r);
      } else {
        forall q | q in vs && InKeyRange(k, q) && q.1 <= r && q != p
            ensures Lt(EncodeKey(p.0, p.1), EncodeKey(q.0, q.1)) {
          var i :| 0 <= i < |ps| && DecodeKey(ps[i].0) == q;
        }
        SeenIs(vs, k, r, p);
      }
    } else {
      assert forall p :: !IsFirst(vs, k, r, p);
    }
  }

  lemma RangeListed(data: map<Bytes, Bytes>, vs: Versions, k: Bytes, ps: Pairs, r: Revision)
    requires Encodes(data, vs) && IsRange(data, PrefixStart(k), PrefixEnd(k), ps)
    ensures ListsRange(vs, k, ps, r)
  {
    hide DecodeKey, DecodeValue, Decodable, EncodeKey, EncodeValue, PrefixStart, PrefixEnd;
    forall i | 0 <= i < |ps|
      ensures && |ps[i].0| >= 8 && Decodable(ps[i].1) && DecodeKey(ps[i].0) in vs && InKeyRange(k, DecodeKey(ps[i].0))
              && DecodeValue(ps[i].1) == vs[DecodeKey(ps[i].0)]
                 && ps[i].0 == EncodeKey(DecodeKey(ps[i].0).0, DecodeKey(ps[i].0).1)
    {
      ScannedVersion(data, vs, PrefixStart(k), PrefixEnd(k), ps, i);
    }
    forall q | q in vs && InKeyRange(k, q) && q.1 <= r ensures exists i :: 0 <= i < |ps| && DecodeKey(ps[i].0) == q {
      KeyRoundTrip(q.0, q.1);
      assert (EncodeKey(q.0, q.1), data[EncodeKey(q.0, q.1)]) in ps;
      var i :| 0 <= i < |ps| && ps[i] == (EncodeKey(q.0, q.1), data[EncodeKey(q.0, q.1)]);
    }
  }

  /** The byte-level read of any accepted key finds the first version in its byte range that is not too new. */
  lemma GetFinds(data: map<Bytes, Bytes>, vs: Versions, k: Bytes, r: Revision, ps: Pairs)
    requires Encodes(data, vs) && IsRange(data, PrefixStart(k), PrefixEnd(k), ps)
    ensures ListsRange(vs, k, ps, r) && FirstAtMost(ps, r) == Seen(vs, k, r)
  {
    hide ListsRange, Encodes, IsRange;
    RangeListed(data, vs, k, ps, r);
    FirstIsSeen(vs, k, ps, r);
  }

  /** Beside compatible keys that is the last version of the key itself. */
  lemma SeenIsLatest(vs: Versions, k: Bytes, r: Revision)
    requires FitsIn(vs, k) && forall p :: p in vs ==> p.1 < U64_MAX
    ensures Seen(vs, k, r) == VersionAt(vs, k, r)
  {
    hide EncodeKey, PrefixStart, PrefixEnd, AllFF, Compatible;
    forall p | p in vs ensures InKeyRange(k, p) <==> p.0 == k { RangeExactly(k, p.0, p.1); }
    LatestAtExactly(vs, k, r);
    match LatestAt(vs, k, r) {
      case None =>
        assert forall p :: !IsFirst(vs, k, r, p);
      case Some(x) =>
        forall q | q in vs && InKeyRange(k, q) && q.1 <= r && q != (k, x)
            ensures Lt(EncodeKey(k, x), EncodeKey(q.0, q.1)) {
          NewestFirst(k, x, q.1);
        }
        SeenIs(vs, k, r, (k, x));
    }
  }

  // ------------------------------------------------ exactly which key sets work

  /** One read of key `k` through the bytes, against its meaning: it is not refused, and it is right. */
  ghost predicate RightFor(vs: Versions, data: map<Bytes, Bytes>, k: Bytes, r: Revision, ps: Pairs)
  {
    && Accepted(k)
    && (forall i :: 0 <= i < |ps| ==> |ps[i].0| >= 8 && Decodable(ps[i].1))
    && FirstAtMost(ps, r) == VersionAt(vs, k, r)
  }

  ghost predicate StoresOnly(vs: Versions, keys: set<Bytes>)
  {
    forall p :: p in vs ==> p.0 in keys && 1 <= p.1 < U64_MAX
  }

  /** Whatever versions of these keys are stored, every read of every one of them is right. */
  ghost predicate ReadsRight(keys: set<Bytes>)
  {
    forall vs: Versions, data, k, r: Revision, ps {:trigger RightFor(vs, data, k, r, ps)} ::
      StoresOnly(vs, keys) && Encodes(data, vs) && k in keys && IsRange(data, PrefixStart(k), PrefixEnd(k), ps) ==>
        RightFor(vs, data, k, r, ps)
  }

  /** No key is a proper prefix of another, and none is empty or all 0xFF. */
  ghost predicate GoodKeySet(keys: set<Bytes>)
  {
    && (forall k :: k in keys ==> !AllFF(k))
    && (forall a, b :: a in keys && b in keys ==> Compatible(a, b))
  }

  const ONE_VERSION := VersionedValue(Some([]), 1, 1, 0, 0)

  /** The store after a single put of the key. */
  function OnePut(k: Bytes): Versions
  {
    map[(k, 1) := ONE_VERSION]
  }

  function OnePutBytes(k: Bytes): map<Bytes, Bytes>
  {
    map[EncodeKey(k, 1) := EncodeValue(ONE_VERSION)]
  }

  lemma OnePutEncodes(k: Bytes)
    ensures Encodes(OnePutBytes(k), OnePut(k))
  {
    hide EncodeKey, DecodeKey, EncodeValue;
    KeyRoundTrip(k, 1);
  }

  lemma OnePutReads(k: Bytes, other: Bytes)
    ensures VersionAt(OnePut(k), k, 1) == Some(ONE_VERSION)
    ensures other != k ==> VersionAt(OnePut(k), other, 1) == None
  {
    LatestAtIs(OnePut(k), k, 1, 1);
    LatestAtExactly(OnePut(k), other, 1);
  }

  /** A read of the empty key misses what was put; a read of a key of 0xFF bytes is refused, and so is a put. */
  lemma BadKeyUnreadable(k: Bytes)
    requires AllFF(k)
    ensures IsRange(OnePutBytes(k), PrefixStart(k), PrefixEnd(k), [])
    ensures !RightFor(OnePut(k), OnePutBytes(k), k, 1, [])
  {
    OnePutReads(k, k);
    AcceptedExactly(k);
    if k == [] {
      EmptyKeyIsUnreadable(1);
    } else {
      AllFFRangeIsInverted(k);
      forall x ensures !InRange(x, PrefixStart(k), PrefixEnd(k)) { InvertedIsEmpty(x, PrefixStart(k), PrefixEnd(k)); }
    }
  }

  lemma InvertedIsEmpty(x: Bytes, start: Bytes, end: Bytes)
    requires Lt(end, start)
    ensures !InRange(x, start, end)
  {
    if InRange(x, start, end) {
      LtTransitive(x, end, start);
      LtAsymmetric(x, start);
    }
  }

  /** Putting only a longer key makes its prefix appear. */
  lemma PrefixSeesLonger(k: Bytes, t: Bytes)
    requires !AllFF(k) && t != []
    ensures var ps := [(EncodeKey(k + t, 1), EncodeValue(ONE_VERSION))];
            && IsRange(OnePutBytes(k + t), PrefixStart(k), PrefixEnd(k), ps)
            && !RightFor(OnePut(k + t), OnePutBytes(k + t), k, 1, ps)
  {
    var ps := [(EncodeKey(k + t, 1), EncodeValue(ONE_VERSION))];
    LongerKeyIntrudes(k, t, 1);
    OnePutReads(k + t, k);
    KeyRoundTrip(k + t, 1);
    ValueRoundTrip(ONE_VERSION);
    assert ps[0].0 == EncodeKey(k + t, 1);
    assert FirstAtMost(ps, 1) == Some(ONE_VERSION);
  }

  lemma GoodKeysReadRight(keys: set<Bytes>)
    requires GoodKeySet(keys)
    ensures ReadsRight(keys)
  {
    forall vs: Versions, data, k, r: Revision, ps |
      StoresOnly(vs, keys) && Encodes(data, vs) && k in keys && IsRange(data, PrefixStart(k), PrefixEnd(k), ps)
      ensures RightFor(vs, data, k, r, ps)
    {
      AcceptedExactly(k);
      GetIsRight(data, vs, k, r, ps);
    }
  }

  lemma BadKeyBreaks(keys: set<Bytes>, k: Bytes)
    requires k in keys && AllFF(k)
    ensures !ReadsRight(keys)
  {
    hide Encodes, RightFor, OnePutBytes;
    OnePutEncodes(k);
    BadKeyUnreadable(k);
  }

  lemma PrefixBreaks(keys: set<Bytes>, a: Bytes, b: Bytes)
    requires a in keys && b in keys && a != b && IsPrefix(a, b) && !AllFF(a)
    ensures !ReadsRight(keys)
  {
    hide Encodes, RightFor, OnePutBytes, EncodeKey, EncodeValue, PrefixStart, PrefixEnd;
    var t := b[|a|..];
    assert b == a + t;
    OnePutEncodes(b);
    PrefixSeesLonger(a, t);
  }

  /**
   Exactly which keys can live together: every read of every key is accepted and right, whatever is
   stored, if and only if no key is a proper prefix of another and none is empty or all 0xFF.
   */
  lemma KeySetsExactly(keys: set<Bytes>)
    ensures ReadsRight(keys) <==> GoodKeySet(keys)
  {
    hide ReadsRight, AllFF;
    if k :| k in keys && AllFF(k) {
      BadKeyBreaks(keys, k);
    } else if a, b :| a in keys && b in keys && a != b && IsPrefix(a, b) {
      PrefixBreaks(keys, a, b);
    } else {
      GoodKeysReadRight(keys);
    }
  }
}
