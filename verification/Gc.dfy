/** Garbage collection of old versions: exactly what it removes and what reads see afterwards. */
module Gc {
  import opened Common
  import opened Bytes
  import opened Lsm
  import opened Engines
  import opened Version
  import opened MvccModel
  import opened MvccScan

  const GC_START: Bytes := [0]
  const GC_END: Bytes := [
    0xFF, 0xFF, 0xFF, 0xFF, 0xFF, 0xFF, 0xFF, 0xFF,
    0xFF, 0xFF, 0xFF, 0xFF, 0xFF, 0xFF, 0xFF, 0xFF,
    0xFF, 0xFF, 0xFF, 0xFF, 0xFF, 0xFF, 0xFF, 0xFF,
    0xFF, 0xFF, 0xFF, 0xFF, 0xFF, 0xFF, 0xFF, 0xFF]

  type Key = (Bytes, Revision)

  /** The version lies in the fixed scan range of the collector. */
  ghost predicate Scannable(p: Key)
  {
    InRange(EncodeKey(p.0, p.1), GC_START, GC_END)
  }

  /** A newer version of the same key, also scanned. */
  ghost predicate Superseded(vs: Versions, p: Key)
  {
    exists q :: q in vs && Scannable(q) && q.0 == p.0 && q.1 > p.1
  }

  /** What the collector removes. */
  ghost function Garbage(vs: Versions, m: nat): set<Key>
  {
    set p | p in vs && Scannable(p) && p.1 < m && Superseded(vs, p)
  }

  // ------------------------------------------------------------------- the loop

  /** Keep the first version of each key, list the older ones below the threshold. */
  function CollectLoop(ps: Pairs, last: Option<Bytes>, m: nat): seq<Bytes>
    requires Readable(ps)
    decreases |ps|
  {
    if ps == [] then []
    else if last != Some(KeyOf(ps[0])) then CollectLoop(ps[1..], Some(KeyOf(ps[0])), m)
    else (if RevOf(ps[0]) < m then [ps[0].0] else []) + CollectLoop(ps[1..], last, m)
  }

  /** The pair before has the same user key. */
  ghost predicate Older(ps: Pairs, last: Option<Bytes>, j: int)
    requires Readable(ps)
  {
    0 <= j < |ps| && (if j == 0 then last else Some(KeyOf(ps[j - 1]))) == Some(KeyOf(ps[j]))
  }

  ghost predicate Chosen(ps: Pairs, last: Option<Bytes>, m: nat, x: Bytes)
    requires Readable(ps)
  {
    exists j :: Older(ps, last, j) && RevOf(ps[j]) < m && ps[j].0 == x
  }

  lemma ChosenRest(ps: Pairs, last: Option<Bytes>, m: nat, x: Bytes)
    requires Readable(ps) && ps != []
    ensures Chosen(ps, last, m, x)
            <==> (last == Some(KeyOf(ps[0])) && RevOf(ps[0]) < m && ps[0].0 == x)
                 || Chosen(ps[1..], Some(KeyOf(ps[0])), m, x)
  {
    hide KeyOf, RevOf, Decodable;
    if Chosen(ps, last, m, x) {
      var j :| Older(ps, last, j) && RevOf(ps[j]) < m && ps[j].0 == x;
      if j > 0 { assert ps[1..][j - 1] == ps[j] && Older(ps[1..], Some(KeyOf(ps[0])), j - 1); }
    }
    if Chosen(ps[1..], Some(KeyOf(ps[0])), m, x) {
      var j :| Older(ps[1..], Some(KeyOf(ps[0])), j) && RevOf(ps[1..][j]) < m && ps[1..][j].0 == x;
      assert ps[1..][j] == ps[j + 1] && Older(ps, last, j + 1);
    }
    if last == Some(KeyOf(ps[0])) { assert Older(ps, last, 0); }
  }

  lemma {:induction false} CollectLoopExactly(ps: Pairs, last: Option<Bytes>, m: nat)
    requires Readable(ps) && SortedPairs(ps)
    ensures forall x :: x in CollectLoop(ps, last, m) <==> Chosen(ps, last, m, x)
    ensures SortedBytes(CollectLoop(ps, last, m))
    decreases |ps|
  {
    hide KeyOf, RevOf, Decodable, Chosen;
    if ps == [] {
      forall x ensures !Chosen(ps, last, m, x) { NoneChosen(last, m, x); }
    } else {
      var k := Some(KeyOf(ps[0]));
      RestReadable(ps);
      CollectLoopExactly(ps[1..], k, m);
      forall x
        ensures Chosen(ps, last, m, x) <==> (last == k && RevOf(ps[0]) < m && ps[0].0 == x) || Chosen(ps[1..], k, m, x)
      {
        ChosenRest(ps, last, m, x);
      }
      forall x | x in CollectLoop(ps[1..], k, m) ensures Lt(ps[0].0, x) { ChosenAfter(ps, k, m, x); }
    }
  }

  predicate SortedBytes(xs: seq<Bytes>)
  {
    forall i, j :: 0 <= i < j < |xs| ==> Lt(xs[i], xs[j])
  }

  lemma NoneChosen(last: Option<Bytes>, m: nat, x: Bytes)
    ensures !Chosen([], last, m, x)
  {
  }

  lemma RestReadable(ps: Pairs)
    requires Readable(ps) && SortedPairs(ps) && ps != []
    ensures Readable(ps[1..]) && SortedPairs(ps[1..])
  {
    hide Decodable;
  }

  lemma ChosenAfter(ps: Pairs, last: Option<Bytes>, m: nat, x: Bytes)
    requires Readable(ps) && SortedPairs(ps) && ps != [] && Readable(ps[1..]) && Chosen(ps[1..], last, m, x)
    ensures Lt(ps[0].0, x)
  {
    hide KeyOf, RevOf, Decodable;
    var j :| Older(ps[1..], last, j) && RevOf(ps[1..][j]) < m && ps[1..][j].0 == x;
    assert ps[1..][j] == ps[j + 1];
  }

  // --------------------------------------------------------- the loop's meaning

  ghost predicate ScannedAll(data: map<Bytes, Bytes>, vs: Versions, ps: Pairs)
  {
    Encodes(data, vs) && KeysOk(vs) && IsRange(data, GC_START, GC_END, ps)
  }

  lemma ScannableListed(data: map<Bytes, Bytes>, vs: Versions, ps: Pairs, q: Key) returns (i: nat)
    requires ScannedAll(data, vs, ps) && q in vs && Scannable(q)
    ensures i < |ps| && |ps[i].0| >= 8 && DecodeKey(ps[i].0) == q && ps[i].0 == EncodeKey(q.0, q.1)
  {
    hide DecodeKey, EncodeValue, InRange;
    KeyRoundTrip(q.0, q.1);
    assert (EncodeKey(q.0, q.1), data[EncodeKey(q.0, q.1)]) in ps;
    i :| 0 <= i < |ps| && ps[i] == (EncodeKey(q.0, q.1), data[EncodeKey(q.0, q.1)]);
  }

  lemma ListedScannable(data: map<Bytes, Bytes>, vs: Versions, ps: Pairs, i: nat)
    requires ScannedAll(data, vs, ps) && i < |ps|
    ensures |ps[i].0| >= 8 && DecodeKey(ps[i].0) in vs && Scannable(DecodeKey(ps[i].0))
            && ps[i].0 == EncodeKey(DecodeKey(ps[i].0).0, DecodeKey(ps[i].0).1)
  {
    hide DecodeKey, EncodeKey, EncodeValue, DecodeValue, Decodable;
    ScannedVersion(data, vs, GC_START, GC_END, ps, i);
  }

  /** Not the first of its group: there is a newer version. */
  lemma OlderIsSuperseded(data: map<Bytes, Bytes>, vs: Versions, ps: Pairs, j: nat)
    requires ScannedAll(data, vs, ps) && Readable(ps) && Grouped(ps) && Older(ps, None, j)
    ensures j < |ps| && Superseded(vs, DecodeKey(ps[j].0))
  {
    hide DecodeKey, Decodable, ScannedAll, Scannable;
    ListedScannable(data, vs, ps, j - 1);
    LtIrreflexive(KeyOf(ps[j]));
    assert RevOf(ps[j - 1]) > RevOf(ps[j]);
  }

  lemma SupersededIsOlder(data: map<Bytes, Bytes>, vs: Versions, ps: Pairs, j: nat)
    requires ScannedAll(data, vs, ps) && Readable(ps) && Grouped(ps) && j < |ps| && Superseded(vs, DecodeKey(ps[j].0))
    ensures Older(ps, None, j)
  {
    hide DecodeKey, Decodable, ScannedAll, Scannable;
    var q :| q in vs && Scannable(q) && q.0 == KeyOf(ps[j]) && q.1 > RevOf(ps[j]);
    var i := ScannableListed(data, vs, ps, q);
    LtIrreflexive(KeyOf(ps[j]));
    assert KeyOf(ps[i]) == KeyOf(ps[j]) && RevOf(ps[i]) > RevOf(ps[j]);
    assert i < j;
    if i < j - 1 { SameGroup(ps, i, j); }
  }

  lemma SameGroup(ps: Pairs, i: nat, j: nat)
    requires Readable(ps) && Grouped(ps) && i < j - 1 < j < |ps| && KeyOf(ps[i]) == KeyOf(ps[j])
    ensures KeyOf(ps[j - 1]) == KeyOf(ps[j])
  {
    hide KeyOf, RevOf, Decodable;
    LtIrreflexive(KeyOf(ps[i]));
    if Lt(KeyOf(ps[j - 1]), KeyOf(ps[j])) { LtAsymmetric(KeyOf(ps[j - 1]), KeyOf(ps[j])); }
  }

  lemma ChosenIsGarbage(data: map<Bytes, Bytes>, vs: Versions, ps: Pairs, m: nat, x: Bytes)
    requires ScannedAll(data, vs, ps) && Readable(ps) && Grouped(ps)
    ensures Chosen(ps, None, m, x)
            <==> |x| >= 8 && DecodeKey(x) in Garbage(vs, m) && x == EncodeKey(DecodeKey(x).0, DecodeKey(x).1)
  {
    hide DecodeKey, EncodeKey, Decodable, ScannedAll, Grouped, Superseded, Scannable;
    if Chosen(ps, None, m, x) {
      var j :| Older(ps, None, j) && RevOf(ps[j]) < m && ps[j].0 == x;
      ListedScannable(data, vs, ps, j);
      OlderIsSuperseded(data, vs, ps, j);
    }
    if |x| >= 8 && DecodeKey(x) in Garbage(vs, m) && x == EncodeKey(DecodeKey(x).0, DecodeKey(x).1) {
      var j := ScannableListed(data, vs, ps, DecodeKey(x));
      SupersededIsOlder(data, vs, ps, j);
      assert Older(ps, None, j) && RevOf(ps[j]) < m && ps[j].0 == x;
    }
  }

  // ---------------------------------------------------------------- counting

  /** A list without repetitions that names each garbage version once is as long as there is garbage. */
  lemma {:induction false} CountGarbage(xs: seq<Bytes>, g: set<Key>)
    requires SortedBytes(xs)
    requires forall x :: x in xs <==> |x| >= 8 && DecodeKey(x) in g && x == EncodeKey(DecodeKey(x).0, DecodeKey(x).1)
    ensures |xs| == |g|
    decreases |xs|
  {
    hide DecodeKey, EncodeKey;
    if xs == [] {
      forall p ensures p !in g {
        KeyRoundTrip(p.0, p.1);
        assert EncodeKey(p.0, p.1) !in xs;
      }
      assert g == {};
    } else {
      var x, rest := xs[0], xs[1..];
      var p := DecodeKey(x);
      assert x in xs;
      LtIrreflexive(x);
      assert forall y :: y in xs <==> y == x || y in rest;
      forall y | y in rest ensures y != x { var i :| 0 <= i < |rest| && rest[i] == y; assert xs[i + 1] == y; }
      forall y
        ensures y in rest <==> |y| >= 8 && DecodeKey(y) in g - {p} && y == EncodeKey(DecodeKey(y).0, DecodeKey(y).1)
      {
      }
      CountGarbage(rest, g - {p});
    }
  }

  lemma EncodesWithout(data: map<Bytes, Bytes>, vs: Versions, g: set<Key>, gone: set<Bytes>)
    requires Encodes(data, vs)
    requires forall x :: x in gone <==> |x| >= 8 && DecodeKey(x) in g && x == EncodeKey(DecodeKey(x).0, DecodeKey(x).1)
    ensures Encodes(data - gone, vs - g)
  {
    hide EncodeKey, DecodeKey, EncodeValue, ValueFits;
    forall p | p in vs - g ensures EncodeKey(p.0, p.1) !in gone { KeyRoundTrip(p.0, p.1); }
  }

  // ---------------------------------------------------------------- reads after

  /** The key sorts at or behind the end of the collector's fixed range. */
  predicate TooHigh(k: Bytes)
  {
    |k| >= 32 && AllFF(k[..32])
  }

  lemma EndIsFF()
    ensures |GC_END| == 32 && AllFF(GC_END)
  {
  }

  /** The first byte that is not 0xFF. */
  lemma {:induction false} FirstLow(s: Bytes) returns (p: nat)
    requires !AllFF(s)
    ensures p < |s| && s[p] < 0xFF && AllFF(s[..p])
  {
    if s[0] < 0xFF {
      p := 0;
    } else {
      var q := FirstLow(s[1..]);
      p := q + 1;
      assert forall i :: 1 <= i < p ==> s[i] == s[1..][..q][i - 1];
    }
  }

  lemma AfterGcStart(x: Bytes)
    requires x != []
    ensures Le(GC_START, x)
  {
    if x[0] == 0 && x != GC_START { LtProperPrefix(GC_START, x); }
  }

  /** Below the first byte that is not 0xFF a string lies before the end. */
  lemma BeforeGcEnd(k: Bytes, s: Bytes, p: nat)
    requires p < |k| && p < 32 && k[p] < 0xFF && AllFF(k[..p])
    ensures Lt(k + s, GC_END) && !TooHigh(k)
  {
    NotTooHigh(k, p);
    EndIsFF();
    hide AllFF, TooHigh;
    BelowFF(k, s, p, GC_END);
  }

  lemma NotTooHigh(k: Bytes, p: nat)
    requires p < |k| && p < 32 && k[p] < 0xFF
    ensures !TooHigh(k)
  {
    if |k| >= 32 { assert k[..32][p] < 0xFF; }
  }

  lemma BelowFF(k: Bytes, s: Bytes, p: nat, end: Bytes)
    requires p < |k| && p < |end| && k[p] < 0xFF && AllFF(k[..p]) && AllFF(end)
    ensures Lt(k + s, end)
  {
    hide Lt;
    forall i | 0 <= i < p ensures k[..p][i] == end[..p][i] {}
    OrderAt(k, s, end, [], p);
    assert end + [] == end;
  }

  /** Versions of the empty key are eight bytes long, which is less than the end. */
  lemma EmptyKeyBelow(s: Bytes)
    requires |s| == 8
    ensures Lt(s, GC_END)
  {
    EndIsFF();
    if AllFF(s) {
      assert GC_END[..8] == s;
      LtProperPrefix(s, GC_END);
    } else {
      var p := FirstLow(s);
      BeforeGcEnd(s, [], p);
      assert s + [] == s;
    }
  }

  /** Which versions the collector scans: all of a key, or none of it. */
  lemma ScannableExactly(k: Bytes, r: Revision)
    requires Accepted(k)
    ensures Scannable((k, r)) <==> !TooHigh(k)
  {
    hide ToBE, Accepted;
    AcceptedExactly(k);
    var s := ToBE(U64_MAX - r, 8);
    AfterGcStart(k + s);
    if k == [] {
      EmptyKeyBelow(s);
      assert k + s == s;
    } else {
      EndIsFF();
      var p := FirstLow(k);
      if p < 32 {
        BeforeGcEnd(k, s, p);
      } else {
        assert k[..32] == GC_END by { forall i | 0 <= i < 32 ensures k[i] == GC_END[i] { assert k[..p][i] == 0xFF; } }
        LtProperPrefix(GC_END, k + s);
        LtAsymmetric(GC_END, k + s);
      }
    }
  }

  lemma LatestSurvives(vs: Versions, m: nat, k: Bytes, r: Revision, x: Revision)
    requires LatestAt(vs, k, r) == Some(x) && (k, x) in vs && (k, x) !in Garbage(vs, m)
    ensures LatestAt(vs - Garbage(vs, m), k, r) == Some(x)
            && VersionAt(vs - Garbage(vs, m), k, r) == VersionAt(vs, k, r)
  {
    hide Garbage;
    LatestAtExactly(vs, k, r);
    LatestAtIs(vs - Garbage(vs, m), k, r, x);
  }

  lemma NothingLeft(vs: Versions, k: Bytes, r: Revision)
    requires forall y: Revision :: y <= r ==> (k, y) !in vs
    ensures LatestAt(vs, k, r) == None && ReadAt(vs, k, r) == None
  {
    LatestAtExactly(vs, k, r);
  }

  /** A version that is not scanned, at or above the threshold, or the latest of its key, is no garbage. */
  lemma NotGarbage(vs: Versions, m: nat, k: Bytes, x: Revision)
    requires Accepted(k) && (k, x) in vs && (TooHigh(k) || x >= m || LatestAt(vs, k, U64_MAX) == Some(x))
    ensures (k, x) !in Garbage(vs, m)
  {
    hide LatestAt, Scannable, Accepted, TooHigh;
    ScannableExactly(k, x);
    LatestAtExactly(vs, k, U64_MAX);
  }

  /** Below the threshold and below a newer version, everything goes. */
  lemma AllGarbage(vs: Versions, m: nat, k: Bytes, x: Revision, top: Revision)
    requires Accepted(k) && !TooHigh(k) && (k, top) in vs && x < top && x < m
    ensures forall y: Revision :: y <= x && (k, y) in vs ==> (k, y) in Garbage(vs, m)
  {
    hide Scannable, Accepted, TooHigh;
    ScannableExactly(k, top);
    forall y: Revision | y <= x && (k, y) in vs ensures (k, y) in Garbage(vs, m) {
      ScannableExactly(k, y);
      assert (k, top) in vs && Scannable((k, top)) && (k, top).1 > y;
      assert Superseded(vs, (k, y));
    }
  }

  /**
   Reads after collecting below `m`: unchanged when the version they saw was the latest of its key
   or has revision at least `m`, and otherwise nothing. A key behind the fixed range of the
   collector keeps all its versions.
   */
  lemma ReadsAfterGc(vs: Versions, m: nat, k: Bytes, r: Revision)
    requires Accepted(k)
    ensures match LatestAt(vs, k, r)
            case None => ReadAt(vs - Garbage(vs, m), k, r) == None
            case Some(x) =>
              if TooHigh(k) || x >= m || LatestAt(vs, k, U64_MAX) == Some(x)
              then ReadAt(vs - Garbage(vs, m), k, r) == ReadAt(vs, k, r)
              else ReadAt(vs - Garbage(vs, m), k, r) == None
  {
    hide LatestAt, Garbage, TooHigh, Accepted, VersionAt;
    LatestAtExactly(vs, k, r);
    LatestAtExactly(vs, k, U64_MAX);
    match LatestAt(vs, k, r) {
      case None => NothingLeft(vs - Garbage(vs, m), k, r);
      case Some(x) =>
        if TooHigh(k) || x >= m || LatestAt(vs, k, U64_MAX) == Some(x) {
          NotGarbage(vs, m, k, x);
          LatestSurvives(vs, m, k, r, x);
        } else {
          AllGarbage(vs, m, k, x, LatestAt(vs, k, U64_MAX).value);
          NothingLeft(vs - Garbage(vs, m), k, r);
        }
    }
  }

  // ---------------------------------------------------------------------- class

  class GarbageCollector {
    const engine: Engine

    constructor (engine: Engine)
      ensures this.engine == engine
    {
      this.engine := engine;
    }

    /** Removes exactly the garbage and returns how much there was. */
    method Collect(minRevision: nat, ghost vs: Versions) returns (count: nat)
      requires Encodes(engine.data, vs) && KeysOk(vs)
      modifies engine
      ensures Encodes(engine.data, vs - Garbage(vs, minRevision))
      ensures count == |Garbage(vs, minRevision)|
    {
      hide Encodes, KeysOk, Readable, Garbage, Grouped, CollectLoop;
      ghost var data := engine.data;
      assert Le(GC_START, GC_END);
      var ps := engine.Scan(GC_START, GC_END);
      ScanReadable(data, vs, GC_START, GC_END, ps);
      var toDelete := ChooseGarbage(ps, minRevision);
      count := |toDelete|;
      for i := 0 to |toDelete|
        invariant engine.data == data - (set x | x in toDelete[..i])
      {
        engine.Delete(toDelete[i]);
        assert toDelete[..i + 1] == toDelete[..i] + [toDelete[i]];
      }
      assert toDelete[..|toDelete|] == toDelete;
      CollectedExactly(data, vs, ps, minRevision, toDelete);
    }
  }

  /** The loop with its two flags. */
  method ChooseGarbage(ps: Pairs, minRevision: nat) returns (toDelete: seq<Bytes>)
    requires Readable(ps)
    ensures toDelete == CollectLoop(ps, None, minRevision)
  {
    hide DecodeKey, Decodable;
    toDelete := [];
    var last: Option<Bytes> := None;
    var seenLatest := false;
    assert ps[0..] == ps;
    for i := 0 to |ps|
      invariant last.Some? ==> seenLatest
      invariant CollectLoop(ps, None, minRevision) == toDelete + CollectLoop(ps[i..], last, minRevision)
    {
      assert ps[i..][1..] == ps[i + 1..];
      var (userKey, rev) := DecodeKey(ps[i].0);
      if last != Some(userKey) {
        last := Some(userKey);
        seenLatest := false;
      }
      if !seenLatest {
        seenLatest := true;
        continue;
      }
      if rev < minRevision { toDelete := toDelete + [ps[i].0]; }
    }
    assert ps[|ps|..] == [] && toDelete + [] == toDelete;
  }

  lemma CollectedExactly(data: map<Bytes, Bytes>, vs: Versions, ps: Pairs, m: nat, xs: seq<Bytes>)
    requires ScannedAll(data, vs, ps) && Readable(ps) && Grouped(ps) && xs == CollectLoop(ps, None, m)
    ensures Encodes(data - (set x | x in xs), vs - Garbage(vs, m)) && |xs| == |Garbage(vs, m)|
  {
    hide Encodes, KeysOk, DecodeKey, EncodeKey, Decodable, Garbage, Chosen, Grouped;
    CollectLoopExactly(ps, None, m);
    forall x
      ensures x in xs
              <==> |x| >= 8 && DecodeKey(x) in Garbage(vs, m) && x == EncodeKey(DecodeKey(x).0, DecodeKey(x).1)
    {
      ChosenIsGarbage(data, vs, ps, m, x);
    }
    CountGarbage(xs, Garbage(vs, m));
    EncodesWithout(data, vs, Garbage(vs, m), (set x | x in xs));
  }
}
