/** Range scans at a revision: the loop over internal keys lists exactly the live keys in range. */
module MvccScan {
  import opened Common
  import opened Bytes
  import opened Lsm
  import opened Engines
  import opened Version
  import opened MvccModel

  /** Internal keys sort by user key, then newest first. */
  lemma KeyOrder(k: Bytes, r: Revision, k': Bytes, r': Revision)
    requires Compatible(k, k')
    ensures Lt(EncodeKey(k, r), EncodeKey(k', r')) <==> Lt(k, k') || (k == k' && r > r')
  {
    if k == k' {
      NewestFirst(k, r, r');
      LtIrreflexive(k);
    } else {
      var i := DifferAt(k, k');
      OrderAt(k, ToBE(U64_MAX - r, 8), k', ToBE(U64_MAX - r', 8), i);
      LtAtDifference(k, k', i);
    }
  }

  // ------------------------------------------------------------ what is scanned

  lemma StartCovers(start: Bytes, k: Bytes, s: Bytes)
    requires Le(start, k) && |s| >= 8
    ensures Le(PrefixStart(start), k + s)
  {
    var i := PrefixOrDifference(start, k);
    if i == |start| {
      assert k + s == start + (k[i..] + s);
      ExtensionAfterStart(start, k[i..] + s);
    } else if i == |k| {
      LtProperPrefix(k, start);
      LtAsymmetric(k, start);
    } else {
      StartIsZeros(start);
      LtAtDifference(start, k, i);
      OrderAt(start, Zeros(8), k, s, i);
    }
  }

  /** Up to its pivot a string and its increment agree; there the increment is one larger. */
  lemma IncrementAt(s: Bytes, p: nat, i: nat)
    requires Pivot(s, p) && i <= p && !AllFF(s)
    ensures |Increment(s)| == |s| && Increment(s)[..i] == s[..i] && Increment(s)[i] == if i < p then s[i] else s[i] + 1
  {
    AddOneShape(s);
    var inc := Increment(s);
    assert inc[..i] == inc[..p][..i] && s[..i] == s[..p][..i];
    if i < p { assert inc[i] == inc[..p][i] && s[i] == s[..p][i]; }
  }

  lemma EndCovers(end: Bytes, k: Bytes, s: Bytes)
    requires Lt(k, end) && !AllFF(end) && !IsPrefix(k, end)
    ensures Lt(k + s, PrefixEnd(end))
  {
    var p := HasPivot(end);
    var i := PrefixOrDifference(k, end);
    if i == |end| {
      if |end| < |k| { LtProperPrefix(end, k); LtAsymmetric(end, k); }
    } else {
      LtAtDifference(k, end, i);
      var q := if i <= p then i else p;
      IncrementAt(end, p, q);
      assert k[..q] == k[..i][..q] && end[..q] == end[..i][..q];
      if q < i { assert k[q] == k[..i][q] && end[q] == end[..i][q]; }
      OrderAt(k, s, Increment(end), Zeros(8), q);
    }
  }

  lemma {:induction false} AddOneBehind(k: Bytes, t: Bytes)
    requires !AllFF(t)
    ensures AddOne(k + t) == (k + AddOne(t).0, false) && !AddOne(t).1
    decreases |t|
  {
    var n := |t| - 1;
    assert (k + t)[..|k| + n] == k + t[..n] && (k + t)[|k| + n] == t[n];
    if t[n] == 0xFF {
      AddOneBehind(k, t[..n]);
      assert k + (AddOne(t[..n]).0 + [0]) == (k + AddOne(t[..n]).0) + [0];
    } else {
      assert k + (t[..n] + [t[n] + 1]) == (k + t[..n]) + [t[n] + 1];
    }
  }

  /** If the rest of the end is all 0xFF, the increment carries into the key itself. */
  lemma CarryCovers(end: Bytes, k: Bytes, s: Bytes)
    requires IsPrefix(k, end) && AllFF(end[|k|..]) && !AllFF(end)
    ensures Lt(k + s, PrefixEnd(end))
  {
    var p := HasPivot(end);
    assert forall j :: |k| <= j < |end| ==> end[j] == end[|k|..][j - |k|] == 0xFF;
    IncrementAt(end, p, p);
    assert k[..p] == end[..|k|][..p] && k[p] == end[..|k|][p];
    OrderAt(k, s, Increment(end), Zeros(8), p);
  }

  /** The increment of a string of 0xFF bytes is a one and zeros, far below the string itself. */
  lemma AllFFEnd(end: Bytes)
    requires AllFF(end)
    ensures PrefixEnd(end) == [0x01] + Zeros(|end| + 8)
  {
    AllFFCarries(end);
    assert Zeros(|end|) + Zeros(8) == Zeros(|end| + 8);
  }

  lemma {:induction false} AllFFCarries(s: Bytes)
    requires AllFF(s)
    ensures AddOne(s) == (Zeros(|s|), true)
  {
    if s != [] {
      AllFFCarries(s[..|s| - 1]);
      assert Zeros(|s|) == Zeros(|s| - 1) + [0];
    }
  }

  /** Behind such an end only keys that start with a zero byte are reached. */
  lemma AllFFReaches(end: Bytes, k: Bytes, r: Revision)
    requires AllFF(end) && k != [] && r < U64_MAX
    ensures Lt(EncodeKey(k, r), PrefixEnd(end)) <==> k[0] == 0
  {
    hide ToBE, PrefixEnd, AllFF;
    AllFFEnd(end);
    var s, n := ToBE(U64_MAX - r, 8), |end| + 8;
    assert EncodeKey(k, r) == [k[0]] + (k[1..] + s);
    if k[0] == 1 {
      Widths();
      var q := NonzeroDigit(U64_MAX - r, 8);
      NotBelowZeros(k[1..] + s, n, |k| - 1 + q);
      LtCommonPrefix([0x01], k[1..] + s, Zeros(n));
    } else {
      LtAtDifference(EncodeKey(k, r), [0x01] + Zeros(n), 0);
    }
  }

  /**
   Exactly which versions of a key in range are scanned. With an end of 0xFF bytes: those of keys
   that start with a zero byte. With any other end: all, unless the key is a proper prefix of the
   end; then it depends on how the rest of the end compares with the revision bytes.
   */
  lemma ScanCoversExactly(start: Bytes, end: Bytes, k: Bytes, r: Revision)
    requires InRange(k, start, end) && k != [] && r < U64_MAX
    ensures InRange(EncodeKey(k, r), PrefixStart(start), PrefixEnd(end))
            <==> if AllFF(end) then k[0] == 0
                 else !IsPrefix(k, end) || AllFF(end[|k|..])
                      || Lt(ToBE(U64_MAX - r, 8), Increment(end[|k|..]) + Zeros(8))
  {
    hide ToBE, AllFF;
    var s := ToBE(U64_MAX - r, 8);
    StartCovers(start, k, s);
    if AllFF(end) {
      AllFFReaches(end, k, r);
    } else if !IsPrefix(k, end) {
      EndCovers(end, k, s);
    } else if AllFF(end[|k|..]) {
      CarryCovers(end, k, s);
    } else {
      var t := end[|k|..];
      assert end == k + t;
      AddOneBehind(k, t);
      assert PrefixEnd(end) == k + (Increment(t) + Zeros(8));
      LtCommonPrefix(k, s, Increment(t) + Zeros(8));
    }
  }

  /** A scan from the front to 0xFF is accepted and yet misses the key 0x41, whatever its revision. */
  lemma AllFFEndMisses(r: Revision)
    requires r < U64_MAX
    ensures InRange([0x41], [], [0xFF]) && Le(PrefixStart([]), PrefixEnd([0xFF]))
    ensures !InRange(EncodeKey([0x41], r), PrefixStart([]), PrefixEnd([0xFF]))
  {
    ScanCoversExactly([], [0xFF], [0x41], r);
    BoundsExactly([], [0xFF]);
    AllFFCarries([0xFF]);
  }

  // ---------------------------------------------------------------- refused ranges

  /** Zeros behind two strings do not change their order. */
  lemma ZerosBehind(a: Bytes, b: Bytes)
    ensures Le(a + Zeros(8), b + Zeros(8)) <==> Le(a, b)
  {
    LtTotal(a, b);
    if Lt(a, b) { ZerosBehindLt(a, b); }
    if Lt(b, a) {
      ZerosBehindLt(b, a);
      LtAsymmetric(b, a);
      LtAsymmetric(b + Zeros(8), a + Zeros(8));
    }
  }

  lemma ZerosBehindLt(a: Bytes, b: Bytes)
    requires Lt(a, b)
    ensures Lt(a + Zeros(8), b + Zeros(8))
  {
    var i := PrefixOrDifference(a, b);
    if i < |a| && i < |b| {
      LtAtDifference(a, b, i);
      OrderAt(a, Zeros(8), b, Zeros(8), i);
    } else if i == |b| {
      assert b == b[..i] && a[..i] == b;
      if |b| < |a| { LtProperPrefix(b, a); LtAsymmetric(b, a); } else { assert a == a[..i]; LtIrreflexive(a); }
    } else {
      var t := b[i..] + Zeros(8);
      assert b + Zeros(8) == a + t;
      ZerosAreLeast(t, 8);
      LtCommonPrefix(a, Zeros(8), t);
    }
  }

  /** The bounds of a scan are refused exactly when the start lies behind the incremented end. */
  lemma BoundsExactly(start: Bytes, end: Bytes)
    ensures Le(PrefixStart(start), PrefixEnd(end)) <==> Le(start, Increment(end))
  {
    StartIsZeros(start);
    ZerosBehind(start, Increment(end));
  }

  /** A scan between ordered bounds is accepted, unless the end is all 0xFF. */
  lemma BoundsNotInverted(start: Bytes, end: Bytes)
    requires Le(start, end) && !AllFF(end)
    ensures Le(PrefixStart(start), PrefixEnd(end))
  {
    var x := end + Zeros(8);
    StartCovers(start, end, Zeros(8));
    ExtensionBeforeEnd(end, Zeros(8));
    if PrefixStart(start) != x { LtTransitive(PrefixStart(start), x, PrefixEnd(end)); }
  }

  lemma TopByte()
    ensures ToBE(0xFF00_0000_0000_0000, 8) == [0xFF, 0, 0, 0, 0, 0, 0, 0]
  {
    assert ToBE(0xFF, 1) == [0xFF];
    assert ToBE(0xFF00, 2) == [0xFF, 0];
    assert ToBE(0xFF_0000, 3) == [0xFF, 0, 0];
    assert ToBE(0xFF00_0000, 4) == [0xFF, 0, 0, 0];
    assert ToBE(0xFF_0000_0000, 5) == [0xFF, 0, 0, 0, 0];
    assert ToBE(0xFF00_0000_0000, 6) == [0xFF, 0, 0, 0, 0, 0];
    assert ToBE(0xFF_0000_0000_0000, 7) == [0xFF, 0, 0, 0, 0, 0, 0];
  }

  lemma SuffixStartsHigh(r: Revision)
    requires r < 0x100_0000_0000_0000
    ensures ToBE(U64_MAX - r, 8)[0] == 0xFF
  {
    Widths();
    TopByte();
    BigEndianOrder(0xFF00_0000_0000_0000, U64_MAX - r, 8);
  }

  /** Such a key is in range by its bytes, and yet the scan misses all its versions. */
  lemma PrefixOfEndIsMissed(k: Bytes, t: Bytes, r: Revision)
    requires t != [] && t[0] < 0xFE && r < 0x100_0000_0000_0000
    ensures Lt(k, k + t) && !Lt(EncodeKey(k, r), PrefixEnd(k + t))
  {
    hide ToBE, Increment, AllFF;
    var end := k + t;
    LtProperPrefix(k, end);
    SmallByte(end, |k|);
    var p := HasPivot(end);
    IncrementAt(end, p, |k|);
    SuffixStartsHigh(r);
    HighByteAfter(k, ToBE(U64_MAX - r, 8), Increment(end), Zeros(8));
  }

  lemma SmallByte(s: Bytes, i: nat)
    requires i < |s| && s[i] < 0xFE
    ensures !AllFF(s) && forall p: nat :: Pivot(s, p) ==> i <= p
  {
  }

  lemma HighByteAfter(k: Bytes, s: Bytes, inc: Bytes, z: Bytes)
    requires s != [] && s[0] == 0xFF && |k| < |inc| && inc[..|k|] == k && inc[|k|] < 0xFF
    ensures !Lt(k + s, inc + z)
  {
    assert (k + s)[..|k|] == k && (inc + z)[..|k|] == k;
    LtAtDifference(k + s, inc + z, |k|);
  }

  // ------------------------------------------------------------------- the loop

  function KeyOf(p: (Bytes, Bytes)): Bytes
    requires |p.0| >= 8
  {
    DecodeKey(p.0).0
  }

  function RevOf(p: (Bytes, Bytes)): Revision
    requires |p.0| >= 8
  {
    DecodeKey(p.0).1
  }

  predicate Readable(ps: Pairs)
  {
    forall i :: 0 <= i < |ps| ==> |ps[i].0| >= 8 && Decodable(ps[i].1)
  }

  /** By user key, then newest first. */
  predicate Grouped(ps: Pairs)
    requires Readable(ps)
  {
    forall i, j :: 0 <= i < j < |ps| ==>
      Lt(KeyOf(ps[i]), KeyOf(ps[j])) || (KeyOf(ps[i]) == KeyOf(ps[j]) && RevOf(ps[i]) > RevOf(ps[j]))
  }

  function Found(p: (Bytes, Bytes), start: Bytes, end: Bytes): seq<KeyValue>
    requires |p.0| >= 8 && Decodable(p.1)
  {
    match Shown(KeyOf(p), Some(DecodeValue(p.1)))
    case Some(kv) => if InRange(KeyOf(p), start, end) then [kv] else []
    case None => []
  }

  /** The loop of `scan_at_revision`, carrying the last user key it found. */
  function ScanLoop(ps: Pairs, last: Option<Bytes>, r: Revision, start: Bytes, end: Bytes): seq<KeyValue>
    requires Readable(ps)
    decreases |ps|
  {
    if ps == [] then []
    else if last == Some(KeyOf(ps[0])) || RevOf(ps[0]) > r then ScanLoop(ps[1..], last, r, start, end)
    else Found(ps[0], start, end) + ScanLoop(ps[1..], Some(KeyOf(ps[0])), r, start, end)
  }

  /** The first pair of its key that is not too new. */
  ghost predicate FirstOf(ps: Pairs, j: int, r: Revision)
    requires Readable(ps)
  {
    0 <= j < |ps| && RevOf(ps[j]) <= r && forall i :: 0 <= i < j && KeyOf(ps[i]) == KeyOf(ps[j]) ==> RevOf(ps[i]) > r
  }

  predicate SortedKVs(kvs: seq<KeyValue>)
  {
    forall i, j :: 0 <= i < j < |kvs| ==> Lt(kvs[i].key, kvs[j].key)
  }

  ghost predicate NotBefore(last: Option<Bytes>, ps: Pairs)
    requires Readable(ps)
  {
    last.Some? ==> forall i :: 0 <= i < |ps| ==> Le(last.value, KeyOf(ps[i]))
  }

  ghost predicate Listed(ps: Pairs, last: Option<Bytes>, r: Revision, start: Bytes, end: Bytes, kv: KeyValue)
    requires Readable(ps)
  {
    exists j :: FirstOf(ps, j, r) && last != Some(KeyOf(ps[j])) && kv in Found(ps[j], start, end)
  }

  lemma FirstOfRest(ps: Pairs, j: int, r: Revision)
    requires Readable(ps) && 0 < j < |ps|
    requires KeyOf(ps[0]) == KeyOf(ps[j]) ==> RevOf(ps[0]) > r
    ensures FirstOf(ps, j, r) <==> FirstOf(ps[1..], j - 1, r)
  {
    hide KeyOf, RevOf, Decodable;
    assert ps[1..][j - 1] == ps[j];
    if FirstOf(ps, j, r) {
      forall i | 0 <= i < j - 1 && KeyOf(ps[1..][i]) == KeyOf(ps[j])
          ensures RevOf(ps[1..][i]) > r { assert ps[1..][i] == ps[i + 1]; }
    }
    if FirstOf(ps[1..], j - 1, r) {
      forall i | 0 <= i < j && KeyOf(ps[i]) == KeyOf(ps[j]) ensures RevOf(ps[i]) > r {
        if i > 0 { assert ps[1..][i - 1] == ps[i]; }
      }
    }
  }

  /** Skipping the head changes nothing when its key was found already or it is too new. */
  lemma ListedSkip(ps: Pairs, last: Option<Bytes>, r: Revision, start: Bytes, end: Bytes, kv: KeyValue)
    requires Readable(ps) && ps != [] && (last == Some(KeyOf(ps[0])) || RevOf(ps[0]) > r)
    ensures Listed(ps, last, r, start, end, kv) <==> Listed(ps[1..], last, r, start, end, kv)
  {
    hide KeyOf, RevOf, Decodable, Found;
    if Listed(ps, last, r, start, end, kv) {
      var j :| FirstOf(ps, j, r) && last != Some(KeyOf(ps[j])) && kv in Found(ps[j], start, end);
      NotTheHead(ps, last, r, j);
      FirstOfRest(ps, j, r);
      assert ps[1..][j - 1] == ps[j];
      assert FirstOf(ps[1..], j - 1, r);
    }
    if Listed(ps[1..], last, r, start, end, kv) {
      var j :| FirstOf(ps[1..], j, r) && last != Some(KeyOf(ps[1..][j])) && kv in Found(ps[1..][j], start, end);
      InBounds(ps[1..], j, r);
      assert ps[1..][j] == ps[j + 1];
      FirstOfRest(ps, j + 1, r);
    }
  }

  lemma InBounds(ps: Pairs, j: int, r: Revision)
    requires Readable(ps) && FirstOf(ps, j, r)
    ensures 0 <= j < |ps| && RevOf(ps[j]) <= r
  {
  }

  lemma NotTheHead(ps: Pairs, last: Option<Bytes>, r: Revision, j: int)
    requires Readable(ps) && ps != [] && FirstOf(ps, j, r) && last != Some(KeyOf(ps[j]))
    requires last == Some(KeyOf(ps[0])) || RevOf(ps[0]) > r
    ensures 0 < j < |ps| && (KeyOf(ps[0]) == KeyOf(ps[j]) ==> RevOf(ps[0]) > r)
  {
  }

  /** Taking the head lists it and hides the rest of its key. */
  lemma ListedTake(ps: Pairs, last: Option<Bytes>, r: Revision, start: Bytes, end: Bytes, kv: KeyValue)
    requires Readable(ps) && ps != [] && Grouped(ps) && NotBefore(last, ps) && last != Some(KeyOf(ps[0]))
             && RevOf(ps[0]) <= r
    ensures Listed(ps, last, r, start, end, kv)
            <==> kv in Found(ps[0], start, end) || Listed(ps[1..], Some(KeyOf(ps[0])), r, start, end, kv)
  {
    hide Decodable, Found, KeyOf, RevOf, Grouped, NotBefore;
    var k := KeyOf(ps[0]);
    assert FirstOf(ps, 0, r);
    if Listed(ps, last, r, start, end, kv) {
      var j :| FirstOf(ps, j, r) && last != Some(KeyOf(ps[j])) && kv in Found(ps[j], start, end);
      if j > 0 {
        FirstOfRest(ps, j, r);
        assert ps[1..][j - 1] == ps[j];
      }
    }
    if Listed(ps[1..], Some(k), r, start, end, kv) {
      var j :| FirstOf(ps[1..], j, r) && Some(k) != Some(KeyOf(ps[1..][j])) && kv in Found(ps[1..][j], start, end);
      assert ps[1..][j] == ps[j + 1];
      FirstOfRest(ps, j + 1, r);
      LaterKeyIsNew(ps, last, j + 1);
    }
  }

  lemma LaterKeyIsNew(ps: Pairs, last: Option<Bytes>, j: nat)
    requires Readable(ps) && Grouped(ps) && NotBefore(last, ps) && 0 < j < |ps| && last != Some(KeyOf(ps[0]))
             && KeyOf(ps[j]) != KeyOf(ps[0])
    ensures last != Some(KeyOf(ps[j]))
  {
    if last.Some? {
      LtIrreflexive(last.value);
      assert Lt(last.value, KeyOf(ps[0])) && Lt(KeyOf(ps[0]), KeyOf(ps[j]));
      LtTransitive(last.value, KeyOf(ps[0]), KeyOf(ps[j]));
    }
  }

  lemma RestGrouped(ps: Pairs, last: Option<Bytes>)
    requires Readable(ps) && ps != [] && Grouped(ps) && NotBefore(last, ps)
    ensures Readable(ps[1..]) && Grouped(ps[1..]) && NotBefore(last, ps[1..]) && NotBefore(Some(KeyOf(ps[0])), ps[1..])
  {
    hide KeyOf, RevOf, Decodable;
    forall i | 0 <= i < |ps[1..]| ensures ps[1..][i] == ps[i + 1] {}
  }

  /** The loop lists exactly the first acceptable version of each key, in key order. */
  lemma {:induction false} ScanLoopExactly(ps: Pairs, last: Option<Bytes>, r: Revision, start: Bytes, end: Bytes)
    requires Readable(ps) && Grouped(ps) && NotBefore(last, ps)
    ensures forall kv :: kv in ScanLoop(ps, last, r, start, end) <==> Listed(ps, last, r, start, end, kv)
    ensures SortedKVs(ScanLoop(ps, last, r, start, end))
    decreases |ps|
  {
    hide Decodable, Found, KeyOf, RevOf, FirstOf, Listed, Grouped, NotBefore;
    if ps == [] {
      forall kv ensures !Listed(ps, last, r, start, end, kv) { NothingListed(last, r, start, end, kv); }
    } else {
      RestGrouped(ps, last);
      if last == Some(KeyOf(ps[0])) || RevOf(ps[0]) > r {
        ScanLoopExactly(ps[1..], last, r, start, end);
        forall kv ensures Listed(ps, last, r, start, end, kv) <==> Listed(ps[1..], last, r, start, end, kv) {
          ListedSkip(ps, last, r, start, end, kv);
        }
      } else {
        var k := Some(KeyOf(ps[0]));
        var rest := ScanLoop(ps[1..], k, r, start, end);
        ScanLoopExactly(ps[1..], k, r, start, end);
        forall kv
          ensures Listed(ps, last, r, start, end, kv)
                  <==> kv in Found(ps[0], start, end) || Listed(ps[1..], k, r, start, end, kv)
        {
          ListedTake(ps, last, r, start, end, kv);
        }
        forall kv | kv in rest ensures Lt(k.value, kv.key) { ListedAfter(ps[1..], k, r, start, end, kv); }
        FoundFirst(ps[0], start, end, rest);
      }
    }
  }

  lemma NothingListed(last: Option<Bytes>, r: Revision, start: Bytes, end: Bytes, kv: KeyValue)
    ensures !Listed([], last, r, start, end, kv)
  {
  }

  lemma ListedAfter(ps: Pairs, last: Option<Bytes>, r: Revision, start: Bytes, end: Bytes, kv: KeyValue)
    requires Readable(ps) && last.Some? && NotBefore(last, ps) && Listed(ps, last, r, start, end, kv)
    ensures Lt(last.value, kv.key)
  {
    hide Decodable, DecodeValue, DecodeKey;
  }

  lemma FoundFirst(p: (Bytes, Bytes), start: Bytes, end: Bytes, rest: seq<KeyValue>)
    requires |p.0| >= 8 && Decodable(p.1) && SortedKVs(rest) && forall kv :: kv in rest ==> Lt(KeyOf(p), kv.key)
    ensures SortedKVs(Found(p, start, end) + rest)
  {
    hide Decodable, DecodeValue, DecodeKey;
  }

  // ------------------------------------------------------------------ the theorem

  /** Exactly the keys in range that are live at the revision, each as a read of that key shows it. */
  ghost predicate IsSnapshot(vs: Versions, start: Bytes, end: Bytes, r: Revision, kvs: seq<KeyValue>)
  {
    && SortedKVs(kvs)
    && forall kv :: kv in kvs <==> InRange(kv.key, start, end) && ReadAt(vs, kv.key, r) == Some(kv)
  }

  ghost predicate Scanned(data: map<Bytes, Bytes>, vs: Versions, start: Bytes, end: Bytes, ps: Pairs)
  {
    Encodes(data, vs) && KeysOk(vs) && IsRange(data, PrefixStart(start), PrefixEnd(end), ps)
  }

  lemma ScanReadable(data: map<Bytes, Bytes>, vs: Versions, start: Bytes, end: Bytes, ps: Pairs)
    requires Encodes(data, vs) && KeysOk(vs) && IsRange(data, start, end, ps)
    ensures Readable(ps) && Grouped(ps)
    ensures forall i :: 0 <= i < |ps| ==> DecodeKey(ps[i].0) in vs && DecodeValue(ps[i].1) == vs[DecodeKey(ps[i].0)]
  {
    hide EncodeKey, DecodeKey, DecodeValue, EncodeValue, Decodable;
    forall i | 0 <= i < |ps|
      ensures && |ps[i].0| >= 8 && Decodable(ps[i].1) && DecodeKey(ps[i].0) in vs
              && DecodeValue(ps[i].1) == vs[DecodeKey(ps[i].0)] && ps[i].0 == EncodeKey(KeyOf(ps[i]), RevOf(ps[i]))
    {
      ScannedVersion(data, vs, start, end, ps, i);
    }
    forall i, j | 0 <= i < j < |ps|
      ensures Lt(KeyOf(ps[i]), KeyOf(ps[j])) || (KeyOf(ps[i]) == KeyOf(ps[j]) && RevOf(ps[i]) > RevOf(ps[j]))
    {
      assert FitsIn(vs, KeyOf(ps[i]));
      KeyOrder(KeyOf(ps[i]), RevOf(ps[i]), KeyOf(ps[j]), RevOf(ps[j]));
    }
  }

  /** The internal end of the scan lies behind this version. */
  predicate Reached(end: Bytes, k: Bytes, r: Revision)
  {
    Lt(EncodeKey(k, r), PrefixEnd(end))
  }

  lemma VersionScanned(data: map<Bytes, Bytes>, vs: Versions, start: Bytes, end: Bytes, ps: Pairs, k: Bytes,
                       y: Revision)
    returns (j: nat)
    requires Scanned(data, vs, start, end, ps) && InRange(k, start, end) && (k, y) in vs && Reached(end, k, y)
    ensures j < |ps| && |ps[j].0| >= 8 && DecodeKey(ps[j].0) == (k, y)
  {
    hide DecodeKey, EncodeValue, PrefixStart, PrefixEnd;
    StartCovers(start, k, ToBE(U64_MAX - y, 8));
    KeyRoundTrip(k, y);
    assert (EncodeKey(k, y), data[EncodeKey(k, y)]) in ps;
    j :| 0 <= j < |ps| && ps[j] == (EncodeKey(k, y), data[EncodeKey(k, y)]);
  }

  lemma ScannedReached(data: map<Bytes, Bytes>, vs: Versions, start: Bytes, end: Bytes, ps: Pairs, j: nat)
    requires Scanned(data, vs, start, end, ps) && j < |ps|
    ensures |ps[j].0| >= 8 && Reached(end, KeyOf(ps[j]), RevOf(ps[j]))
  {
    hide DecodeKey, EncodeKey, EncodeValue, PrefixStart, PrefixEnd, Decodable, DecodeValue;
    ScannedVersion(data, vs, PrefixStart(start), PrefixEnd(end), ps, j);
  }

  /** Newer versions sort first, so they are reached as well. */
  lemma NewerReached(end: Bytes, k: Bytes, x: Revision, y: Revision)
    requires Reached(end, k, x) && x <= y
    ensures Reached(end, k, y)
  {
    hide EncodeKey, PrefixEnd;
    if x < y {
      NewestFirst(k, y, x);
      LtTransitive(EncodeKey(k, y), EncodeKey(k, x), PrefixEnd(end));
    }
  }

  /** Whatever the end is, the first acceptable version that is scanned is the latest one. */
  lemma FirstIsLatestScanned(data: map<Bytes, Bytes>, vs: Versions, start: Bytes, end: Bytes, ps: Pairs, r: Revision,
                             j: nat)
    requires Scanned(data, vs, start, end, ps) && Readable(ps) && Grouped(ps) && FirstOf(ps, j, r)
    requires DecodeKey(ps[j].0) in vs && InRange(KeyOf(ps[j]), start, end)
    ensures LatestAt(vs, KeyOf(ps[j]), r) == Some(RevOf(ps[j])) && Reached(end, KeyOf(ps[j]), RevOf(ps[j]))
  {
    hide DecodeKey, Decodable, Scanned, LatestAt, Reached;
    var k, x := KeyOf(ps[j]), RevOf(ps[j]);
    LtIrreflexive(k);
    ScannedReached(data, vs, start, end, ps, j);
    forall y: Revision | x < y <= r ensures (k, y) !in vs {
      if (k, y) in vs {
        NewerReached(end, k, x, y);
        var i := VersionScanned(data, vs, start, end, ps, k, y);
        assert false;
      }
    }
    LatestAtIs(vs, k, r, x);
  }

  lemma LatestIsFirst(data: map<Bytes, Bytes>, vs: Versions, start: Bytes, end: Bytes, ps: Pairs, r: Revision,
                      k: Bytes, x: Revision)
    returns (j: nat)
    requires Scanned(data, vs, start, end, ps) && Readable(ps) && Grouped(ps) && InRange(k, start, end)
    requires forall i :: 0 <= i < |ps| ==> DecodeKey(ps[i].0) in vs
    requires LatestAt(vs, k, r) == Some(x) && Reached(end, k, x)
    ensures FirstOf(ps, j, r) && DecodeKey(ps[j].0) == (k, x)
  {
    hide DecodeKey, Decodable, Scanned, LatestAt, Reached;
    LatestAtExactly(vs, k, r);
    j := VersionScanned(data, vs, start, end, ps, k, x);
    LtIrreflexive(k);
    forall i | 0 <= i < j && KeyOf(ps[i]) == k ensures RevOf(ps[i]) > r {
      assert RevOf(ps[i]) > x && DecodeKey(ps[i].0) in vs;
    }
  }

  /** The version that a read shows lies before the internal end. */
  ghost predicate LatestReached(vs: Versions, end: Bytes, k: Bytes, r: Revision)
  {
    LatestAt(vs, k, r).Some? && Reached(end, k, LatestAt(vs, k, r).value)
  }

  lemma ListedIsRead(data: map<Bytes, Bytes>, vs: Versions, start: Bytes, end: Bytes, ps: Pairs, r: Revision,
                     kv: KeyValue)
    requires Scanned(data, vs, start, end, ps) && Readable(ps) && Grouped(ps)
    requires forall i :: 0 <= i < |ps| ==> DecodeKey(ps[i].0) in vs && DecodeValue(ps[i].1) == vs[DecodeKey(ps[i].0)]
    ensures Listed(ps, None, r, start, end, kv)
            <==> InRange(kv.key, start, end) && ReadAt(vs, kv.key, r) == Some(kv) && LatestReached(vs, end, kv.key, r)
  {
    hide DecodeKey, DecodeValue, Decodable, Scanned, Grouped, InRange, LatestAt, Reached;
    if Listed(ps, None, r, start, end, kv) {
      var j :| FirstOf(ps, j, r) && None != Some(KeyOf(ps[j])) && kv in Found(ps[j], start, end);
      FirstIsLatestScanned(data, vs, start, end, ps, r, j);
    }
    if InRange(kv.key, start, end) && ReadAt(vs, kv.key, r) == Some(kv) && LatestReached(vs, end, kv.key, r) {
      LatestAtExactly(vs, kv.key, r);
      var j := LatestIsFirst(data, vs, start, end, ps, r, kv.key, LatestAt(vs, kv.key, r).value);
      assert kv in Found(ps[j], start, end);
    }
  }

  /** `scan_at_revision` lists, in order, the live keys in range whose visible version lies before the internal end. */
  lemma ScanLists(data: map<Bytes, Bytes>, vs: Versions, start: Bytes, end: Bytes, r: Revision, ps: Pairs)
    requires Scanned(data, vs, start, end, ps)
    ensures Readable(ps) && SortedKVs(ScanLoop(ps, None, r, start, end))
    ensures forall kv :: kv in ScanLoop(ps, None, r, start, end)
              <==> InRange(kv.key, start, end) && ReadAt(vs, kv.key, r) == Some(kv) && LatestReached(vs, end, kv.key, r)
  {
    hide DecodeKey, DecodeValue, Decodable, Listed, ReadAt, InRange, Grouped, LatestReached;
    assert Encodes(data, vs) && KeysOk(vs);
    ScanReadable(data, vs, PrefixStart(start), PrefixEnd(end), ps);
    ScanLoopExactly(ps, None, r, start, end);
    forall kv
      ensures Listed(ps, None, r, start, end, kv)
              <==> InRange(kv.key, start, end) && ReadAt(vs, kv.key, r) == Some(kv) && LatestReached(vs, end, kv.key, r)
    {
      ListedIsRead(data, vs, start, end, ps, r, kv);
    }
  }

  /** The scan reaches every key that it should show. */
  ghost predicate ReachesAll(vs: Versions, start: Bytes, end: Bytes, r: Revision)
  {
    forall k :: InRange(k, start, end) && ReadAt(vs, k, r).Some? ==> LatestReached(vs, end, k, r)
  }

  /**
   For every scan: it is the snapshot of its range if and only if the version that is visible of
   each live key in range sorts before the internal end.
   */
  lemma ScanExactly(data: map<Bytes, Bytes>, vs: Versions, start: Bytes, end: Bytes, r: Revision, ps: Pairs)
    requires Scanned(data, vs, start, end, ps)
    ensures Readable(ps)
    ensures IsSnapshot(vs, start, end, r, ScanLoop(ps, None, r, start, end)) <==> ReachesAll(vs, start, end, r)
  {
    hide Scanned, InRange, LatestReached, Readable, ScanLoop, SortedKVs, VersionAt;
    ScanLists(data, vs, start, end, r, ps);
    var kvs := ScanLoop(ps, None, r, start, end);
    if IsSnapshot(vs, start, end, r, kvs) {
      forall k | InRange(k, start, end) && ReadAt(vs, k, r).Some? ensures LatestReached(vs, end, k, r) {
        assert ReadAt(vs, k, r).value in kvs;
      }
    }
  }

  // --------------------------------------------------- exactly which ranges work

  /** Whatever versions of these keys are stored, every scan of the range is its snapshot. */
  ghost predicate ScansRight(keys: set<Bytes>, start: Bytes, end: Bytes)
  {
    forall vs: Versions, data, r: Revision, ps {:trigger RightScan(vs, data, start, end, r, ps)} ::
      StoresOnly(vs, keys) && Encodes(data, vs) && IsRange(data, PrefixStart(start), PrefixEnd(end), ps) ==>
        RightScan(vs, data, start, end, r, ps)
  }

  ghost predicate RightScan(vs: Versions, data: map<Bytes, Bytes>, start: Bytes, end: Bytes, r: Revision, ps: Pairs)
  {
    Readable(ps) && IsSnapshot(vs, start, end, r, ScanLoop(ps, None, r, start, end))
  }

  lemma StoredKeysOk(vs: Versions, keys: set<Bytes>)
    requires GoodKeySet(keys) && StoresOnly(vs, keys)
    ensures KeysOk(vs)
  {
  }

  lemma GoodRangeScansRight(keys: set<Bytes>, start: Bytes, end: Bytes)
    requires GoodKeySet(keys) && forall k :: k in keys && InRange(k, start, end) ==> Reached(end, k, 1)
    ensures ScansRight(keys, start, end)
  {
    hide Encodes, IsRange, PrefixStart, PrefixEnd, GoodKeySet, InRange, Reached, IsSnapshot, Readable, LatestAt;
    forall vs: Versions, data, r: Revision, ps |
      StoresOnly(vs, keys) && Encodes(data, vs) && IsRange(data, PrefixStart(start), PrefixEnd(end), ps)
      ensures RightScan(vs, data, start, end, r, ps)
    {
      StoredKeysOk(vs, keys);
      forall k | InRange(k, start, end) && ReadAt(vs, k, r).Some? ensures LatestReached(vs, end, k, r) {
        LatestAtExactly(vs, k, r);
        var x := LatestAt(vs, k, r).value;
        assert (k, x) in vs;
        NewerReached(end, k, 1, x);
      }
      ScanExactly(data, vs, start, end, r, ps);
    }
  }

  /** One put of the key, at revision 1, is all it takes. */
  lemma UnreachedKeyBreaks(keys: set<Bytes>, start: Bytes, end: Bytes, k: Bytes)
    requires GoodKeySet(keys) && k in keys && InRange(k, start, end) && !Reached(end, k, 1)
    ensures !ScansRight(keys, start, end)
  {
    hide Encodes, PrefixStart, PrefixEnd, InRange, IsSnapshot, Readable, OnePutBytes, AllFF, Compatible;
    OnePutEncodes(k);
    OnePutReads(k, k);
    OnePutHidden(start, end, k);
    StoredKeysOk(OnePut(k), keys);
    LatestAtIs(OnePut(k), k, 1, 1);
    assert ReadAt(OnePut(k), k, 1).Some? && !LatestReached(OnePut(k), end, k, 1);
    ScanExactly(OnePutBytes(k), OnePut(k), start, end, 1, []);
    assert !RightScan(OnePut(k), OnePutBytes(k), start, end, 1, []);
  }

  lemma OnePutHidden(start: Bytes, end: Bytes, k: Bytes)
    requires !Reached(end, k, 1)
    ensures IsRange(OnePutBytes(k), PrefixStart(start), PrefixEnd(end), [])
  {
    hide EncodeKey, PrefixStart, PrefixEnd, EncodeValue;
  }

  /**
   Exactly which ranges can be scanned over which keys: every scan is right, whatever is stored, if
   and only if the first revision of each key in range sorts before the internal end.
   */
  lemma ScanRangesExactly(keys: set<Bytes>, start: Bytes, end: Bytes)
    requires GoodKeySet(keys)
    ensures ScansRight(keys, start, end) <==> forall k :: k in keys && InRange(k, start, end) ==> Reached(end, k, 1)
  {
    hide ScansRight, GoodKeySet, InRange, Reached;
    if k :| k in keys && InRange(k, start, end) && !Reached(end, k, 1) {
      UnreachedKeyBreaks(keys, start, end, k);
    } else {
      GoodRangeScansRight(keys, start, end);
    }
  }

  /** An end that is not all 0xFF and of which no stored key is a proper prefix is always right. */
  lemma ScanIsRight(data: map<Bytes, Bytes>, vs: Versions, start: Bytes, end: Bytes, r: Revision, ps: Pairs)
    requires Scanned(data, vs, start, end, ps) && !AllFF(end)
    requires forall p :: p in vs && IsPrefix(p.0, end) ==> p.0 == end
    ensures Readable(ps) && IsSnapshot(vs, start, end, r, ScanLoop(ps, None, r, start, end))
  {
    hide Scanned, IsSnapshot, Readable, AllFF, ScanLoop, LatestAt;
    forall k | InRange(k, start, end) && ReadAt(vs, k, r).Some? ensures LatestReached(vs, end, k, r) {
      LatestAtExactly(vs, k, r);
      var x := LatestAt(vs, k, r).value;
      assert (k, x) in vs;
      LtIrreflexive(k);
      EndCovers(end, k, ToBE(U64_MAX - x, 8));
    }
    ScanExactly(data, vs, start, end, r, ps);
  }
}
