/**
 Versioned keys: the user key followed by the inverted revision in big-endian order, so that a
 byte-wise scan meets the newest version first; the scan bounds of a user key; and the value codec.
 */
module Version {
  import opened Common
  import opened Bytes

  type Revision = r: nat | r <= U64_MAX

  function EncodeKey(userKey: Bytes, revision: Revision): (s: Bytes)
    ensures |s| == |userKey| + 8
  {
    userKey + ToBE(U64_MAX - revision, 8)
  }

  /** The slices panic below eight bytes. */
  function DecodeKey(encoded: Bytes): (Bytes, Revision)
    requires |encoded| >= 8
  {
    Widths();
    (encoded[..|encoded| - 8], U64_MAX - FromBE(encoded[|encoded| - 8..]))
  }

  /** Decoding undoes encoding, so internal keys name one version each. */
  lemma KeyRoundTrip(k: Bytes, r: Revision)
    ensures DecodeKey(EncodeKey(k, r)) == (k, r)
  {
    Widths();
    FromToBE(U64_MAX - r, 8);
    var s := EncodeKey(k, r);
    assert s[..|s| - 8] == k && s[|s| - 8..] == ToBE(U64_MAX - r, 8);
  }

  function Zeros(n: nat): (s: Bytes)
    ensures |s| == n && forall i :: 0 <= i < n ==> s[i] == 0
  {
    seq(n, _ => 0)
  }

  function PrefixStart(userKey: Bytes): Bytes
  {
    EncodeKey(userKey, U64_MAX)
  }

  function PrefixEnd(userKey: Bytes): Bytes
  {
    Increment(userKey) + Zeros(8)
  }

  // --------------------------------------------------------------- increment

  predicate AllFF(s: Bytes)
  {
    forall i :: 0 <= i < |s| ==> s[i] == 0xFF
  }

  /** Add one from the right; the flag says that the carry left the string. */
  function AddOne(s: Bytes): (r: (Bytes, bool))
    ensures |r.0| == |s|
  {
    if s == [] then ([], true)
    else
      var n := |s| - 1;
      if s[n] < 0xFF then (s[..n] + [s[n] + 1], false)
      else
        var t := AddOne(s[..n]);
        (t.0 + [0], t.1)
  }

  function Increment(s: Bytes): Bytes
  {
    if AddOne(s).1 then [0x01] + AddOne(s).0 else AddOne(s).0
  }

  /** `p` is the last byte that is not 0xFF. */
  ghost predicate Pivot(s: Bytes, p: nat)
  {
    p < |s| && s[p] < 0xFF && forall i :: p < i < |s| ==> s[i] == 0xFF
  }

  /** Without carry out: the bytes before the pivot stay, the pivot grows, the rest is zero. */
  lemma {:induction false} AddOneShape(s: Bytes)
    ensures AddOne(s).1 <==> AllFF(s)
    ensures forall p: nat | Pivot(s, p) ::
              var t := AddOne(s).0;
              t[..p] == s[..p] && t[p] == s[p] + 1 && forall i :: p < i < |s| ==> t[i] == 0
  {
    if s != [] {
      var n := |s| - 1;
      if s[n] == 0xFF {
        AddOneShape(s[..n]);
        forall p: nat | Pivot(s, p)
          ensures var t := AddOne(s).0; t[..p] == s[..p] && t[p] == s[p] + 1 && forall i :: p < i < |s| ==> t[i] == 0
        {
          assert Pivot(s[..n], p);
          assert AddOne(s).0[..p] == AddOne(s[..n]).0[..p] && s[..n][..p] == s[..p];
        }
        if AllFF(s[..n]) { assert forall i :: 0 <= i < |s| ==> s[i] == if i < n then s[..n][i] else 0xFF; }
        if AllFF(s) { assert forall i :: 0 <= i < n ==> s[..n][i] == s[i]; }
      }
    }
  }

  lemma {:induction false} HasPivot(s: Bytes) returns (p: nat)
    requires !AllFF(s)
    ensures Pivot(s, p)
  {
    var n := |s| - 1;
    if s[n] < 0xFF {
      p := n;
    } else {
      p := HasPivot(s[..n]);
    }
  }

  /** The loop of the source, from the last byte to the first. */
  method IncrementBytes(bytes: Bytes) returns (r: Bytes)
    ensures r == Increment(bytes)
  {
    r := bytes;
    assert bytes[..|bytes|] == bytes && AddOne(bytes).0 + r[|bytes|..] == AddOne(bytes).0;
    for i := |bytes| downto 0
      invariant |r| == |bytes| && r[..i] == bytes[..i]
      invariant AddOne(bytes) == (AddOne(bytes[..i]).0 + r[i..], AddOne(bytes[..i]).1)
    {
      assert bytes[..i + 1][..i] == bytes[..i];
      if r[i] < 0xFF {
        r := r[i := r[i] + 1];
        assert AddOne(bytes).0 == r;
        return;
      }
      ghost var tail := r[i + 1..];
      r := r[i := 0x00];
      assert AddOne(bytes[..i]).0 + [0] + tail == AddOne(bytes[..i]).0 + r[i..];
    }
    assert r[0..] == r;
    r := [0x01] + r;
  }

  // ------------------------------------------------------------------- order

  /** Equal lengths: the last bytes matter only if everything before is equal. */
  lemma LtSnoc(x: Bytes, p: Byte, y: Bytes, q: Byte)
    requires |x| == |y|
    ensures Lt(x + [p], y + [q]) <==> Lt(x, y) || (x == y && p < q)
  {
    var i := PrefixOrDifference(x, y);
    if i == |x| {
      assert x == y;
      LtCommonPrefix(x, [p], [q]);
      LtIrreflexive(x);
    } else {
      assert (x + [p])[..i] == x[..i] && (y + [q])[..i] == y[..i];
      LtAtDifference(x + [p], y + [q], i);
      LtAtDifference(x, y, i);
    }
  }

  /** Big-endian bytes sort like the numbers they stand for. */
  lemma {:induction false} BigEndianOrder(a: nat, b: nat, w: nat)
    requires a < Pow256(w) && b < Pow256(w)
    ensures Lt(ToBE(a, w), ToBE(b, w)) <==> a < b
    ensures ToBE(a, w) == ToBE(b, w) <==> a == b
  {
    FromToBE(a, w);
    FromToBE(b, w);
    if w > 0 {
      assert a / 256 < Pow256(w - 1) && b / 256 < Pow256(w - 1);
      BigEndianOrder(a / 256, b / 256, w - 1);
      LtSnoc(ToBE(a / 256, w - 1), a % 256, ToBE(b / 256, w - 1), b % 256);
    }
  }

  /** Versions of one key sort newest first. */
  lemma NewestFirst(k: Bytes, r: Revision, r': Revision)
    ensures Lt(EncodeKey(k, r), EncodeKey(k, r')) <==> r > r'
  {
    Widths();
    LtCommonPrefix(k, ToBE(U64_MAX - r, 8), ToBE(U64_MAX - r', 8));
    BigEndianOrder(U64_MAX - r, U64_MAX - r', 8);
  }

  // -------------------------------------------------------------- scan bounds

  predicate IsPrefix(a: Bytes, b: Bytes)
  {
    |a| <= |b| && b[..|a|] == a
  }

  /** Neither key is a prefix of the other, or they are the same key. */
  predicate Compatible(a: Bytes, b: Bytes)
  {
    a == b || (!IsPrefix(a, b) && !IsPrefix(b, a))
  }

  lemma DifferAt(a: Bytes, b: Bytes) returns (i: nat)
    requires a != b && Compatible(a, b)
    ensures i < |a| && i < |b| && a[..i] == b[..i] && a[i] != b[i]
  {
    i := PrefixOrDifference(a, b);
  }

  lemma OrderAt(a: Bytes, s: Bytes, b: Bytes, t: Bytes, i: nat)
    requires i < |a| && i < |b| && a[..i] == b[..i] && a[i] != b[i]
    ensures Lt(a + s, b + t) <==> a[i] < b[i]
  {
    assert (a + s)[..i] == a[..i] && (b + t)[..i] == b[..i];
    LtAtDifference(a + s, b + t, i);
  }

  lemma {:induction false} ZerosAreLeast(s: Bytes, n: nat)
    requires |s| >= n
    ensures Le(Zeros(n), s)
  {
    if n == 0 {
      if s != [] { assert Lt(Zeros(0), s); }
      assert Zeros(0) == [];
    } else if s[0] == 0 {
      ZerosAreLeast(s[1..], n - 1);
      assert Zeros(n)[1..] == Zeros(n - 1);
      assert s == [s[0]] + s[1..] && Zeros(n) == [0] + Zeros(n - 1);
    }
  }

  lemma LeCommonPrefix(p: Bytes, a: Bytes, b: Bytes)
    requires Le(a, b)
    ensures Le(p + a, p + b)
  {
    if a != b { LtCommonPrefix(p, a, b); }
  }

  lemma StartIsZeros(k: Bytes)
    ensures PrefixStart(k) == k + Zeros(8)
  {
    ZeroDigits(8);
  }

  lemma {:induction false} ZeroDigits(w: nat)
    ensures ToBE(0, w) == Zeros(w)
  {
    if w > 0 {
      ZeroDigits(w - 1);
      assert Zeros(w) == Zeros(w - 1) + [0];
    }
  }

  /** Anything that extends the key by at least eight bytes is at or after the start. */
  lemma ExtensionAfterStart(k: Bytes, t: Bytes)
    requires |t| >= 8
    ensures Le(PrefixStart(k), k + t)
  {
    StartIsZeros(k);
    ZerosAreLeast(t, 8);
    LeCommonPrefix(k, Zeros(8), t);
  }

  /** Every extension of the key is before the end, unless the key is all 0xFF. */
  lemma ExtensionBeforeEnd(k: Bytes, t: Bytes)
    requires !AllFF(k)
    ensures Lt(k + t, PrefixEnd(k))
  {
    var p := HasPivot(k);
    AddOneShape(k);
    OrderAt(k, t, Increment(k), Zeros(8), p);
  }

  lemma OwnVersionsInside(k: Bytes, r: Revision)
    requires !AllFF(k)
    ensures InRange(EncodeKey(k, r), PrefixStart(k), PrefixEnd(k))
  {
    ExtensionAfterStart(k, ToBE(U64_MAX - r, 8));
    ExtensionBeforeEnd(k, ToBE(U64_MAX - r, 8));
  }

  /** Another key below the first difference sorts before the start. */
  lemma SmallerIsBefore(k: Bytes, other: Bytes, s: Bytes, i: nat)
    requires i < |k| && i < |other| && k[..i] == other[..i] && other[i] < k[i]
    ensures Lt(other + s, PrefixStart(k))
  {
    StartIsZeros(k);
    OrderAt(other, s, k, Zeros(8), i);
  }

  lemma {:induction false} SomethingNonzero(t: Bytes, n: nat, j: nat)
    requires j < |t| && t[j] != 0 && (forall i :: 0 <= i < j ==> t[i] == 0)
    ensures Le(Zeros(n), t)
    decreases n
  {
    if n == 0 {
      assert Zeros(0) == [];
    } else if j > 0 {
      SomethingNonzero(t[1..], n - 1, j - 1);
      assert Zeros(n)[1..] == Zeros(n - 1);
      assert t == [t[0]] + t[1..] && Zeros(n) == [0] + Zeros(n - 1);
    } else {
      assert Zeros(n)[0] == 0;
    }
  }

  lemma {:induction false} FirstNonzero(t: Bytes, q: nat) returns (j: nat)
    requires q < |t| && t[q] != 0
    ensures j <= q && t[j] != 0 && forall i :: 0 <= i < j ==> t[i] == 0
  {
    if t[0] != 0 {
      j := 0;
    } else {
      var i := FirstNonzero(t[1..], q - 1);
      j := i + 1;
    }
  }

  /** A string with a byte that is not zero is not below a string of zeros, whatever their lengths. */
  lemma NotBelowZeros(t: Bytes, n: nat, q: nat)
    requires q < |t| && t[q] != 0
    ensures !Lt(t, Zeros(n))
  {
    var j := FirstNonzero(t, q);
    SomethingNonzero(t, n, j);
    if Lt(t, Zeros(n)) { LtAsymmetric(t, Zeros(n)); }
  }

  lemma {:induction false} NonzeroDigit(x: nat, w: nat) returns (q: nat)
    requires 0 < x < Pow256(w)
    ensures q < w && ToBE(x, w)[q] != 0
  {
    if x % 256 != 0 {
      q := w - 1;
    } else {
      assert 0 < x / 256 < Pow256(w - 1);
      q := NonzeroDigit(x / 256, w - 1);
    }
  }

  /** Another key above the first difference sorts at or after the end. */
  lemma LargerIsAfter(k: Bytes, other: Bytes, r: Revision, i: nat)
    requires !AllFF(k) && r < U64_MAX && i < |k| && i < |other| && k[..i] == other[..i] && other[i] > k[i]
    ensures !Lt(EncodeKey(other, r), PrefixEnd(k))
  {
    var p := HasPivot(k);
    AddOneShape(k);
    var end, s := Increment(k), ToBE(U64_MAX - r, 8);
    if i < p {
      assert end[..i] == end[..p][..i] == k[..p][..i] && end[i] == end[..p][i];
      OrderAt(other, s, end, Zeros(8), i);
    } else if other[p] != end[p] {
      OrderAt(other, s, end, Zeros(8), p);
    } else {
      SameUpToPivot(k, other, r, p);
    }
  }

  lemma EndFromPivot(k: Bytes, p: nat)
    requires !AllFF(k) && Pivot(k, p)
    ensures PrefixEnd(k) == k[..p] + [k[p] + 1] + Zeros(|k| - p - 1 + 8)
  {
    AddOneShape(k);
    var end := Increment(k);
    assert end == end[..p] + [end[p]] + end[p + 1..];
  }

  lemma SameUpToPivot(k: Bytes, other: Bytes, r: Revision, p: nat)
    requires !AllFF(k) && Pivot(k, p) && r < U64_MAX && p < |other| && k[..p] == other[..p] && other[p] == k[p] + 1
    ensures !Lt(EncodeKey(other, r), PrefixEnd(k))
  {
    hide ToBE, PrefixEnd, Lt;
    EndFromPivot(k, p);
    var s := ToBE(U64_MAX - r, 8);
    var head, t, n := other[..p + 1], other[p + 1..] + s, |k| - p - 1 + 8;
    assert head == k[..p] + [k[p] + 1];
    assert EncodeKey(other, r) == head + t;
    Widths();
    var q := NonzeroDigit(U64_MAX - r, 8);
    assert t[|other| - p - 1 + q] == s[q];
    NotBelowZeros(t, n, |other| - p - 1 + q);
    LtCommonPrefix(head, t, Zeros(n));
  }

  /** On compatible keys the scan range of a key holds exactly its own versions. */
  lemma RangeExactly(k: Bytes, other: Bytes, r: Revision)
    requires !AllFF(k) && Compatible(k, other) && r < U64_MAX
    ensures InRange(EncodeKey(other, r), PrefixStart(k), PrefixEnd(k)) <==> other == k
  {
    if other == k {
      OwnVersionsInside(k, r);
    } else {
      var i := DifferAt(k, other);
      if other[i] < k[i] {
        SmallerIsBefore(k, other, ToBE(U64_MAX - r, 8), i);
        LtAsymmetric(EncodeKey(other, r), PrefixStart(k));
      } else {
        LargerIsAfter(k, other, r, i);
      }
    }
  }

  // ------------------------------------------------- where the bounds go wrong

  /** Every version of a longer key lies in the range of its prefix. */
  lemma LongerKeyIntrudes(k: Bytes, t: Bytes, r: Revision)
    requires !AllFF(k)
    ensures InRange(EncodeKey(k + t, r), PrefixStart(k), PrefixEnd(k))
  {
    var s := t + ToBE(U64_MAX - r, 8);
    assert EncodeKey(k + t, r) == k + s;
    ExtensionAfterStart(k, s);
    ExtensionBeforeEnd(k, s);
  }

  /** The range of a key of 0xFF bytes is inverted; the ordered map panics on it. */
  lemma AllFFRangeIsInverted(k: Bytes)
    requires AllFF(k) && k != []
    ensures Lt(PrefixEnd(k), PrefixStart(k))
  {
    AddOneShape(k);
    StartIsZeros(k);
    assert PrefixEnd(k)[0] == 0x01 && PrefixStart(k)[0] == 0xFF;
  }

  lemma TwoAndZeros()
    ensures ToBE(0x200_0000_0000_0000, 8) == [2, 0, 0, 0, 0, 0, 0, 0]
  {
    assert ToBE(2, 1) == [2];
    assert ToBE(0x200, 2) == [2, 0];
    assert ToBE(0x2_0000, 3) == [2, 0, 0];
    assert ToBE(0x200_0000, 4) == [2, 0, 0, 0];
    assert ToBE(0x2_0000_0000, 5) == [2, 0, 0, 0, 0];
    assert ToBE(0x200_0000_0000, 6) == [2, 0, 0, 0, 0, 0];
    assert ToBE(0x2_0000_0000_0000, 7) == [2, 0, 0, 0, 0, 0, 0];
  }

  /** Versions of the empty key lie outside its own range. */
  lemma EmptyKeyIsUnreadable(r: Revision)
    requires r < U64_MAX - 0x200_0000_0000_0000
    ensures !InRange(EncodeKey([], r), PrefixStart([]), PrefixEnd([]))
  {
    var x := U64_MAX - r;
    Widths();
    TwoAndZeros();
    BigEndianOrder(0x200_0000_0000_0000, x, 8);
    assert EncodeKey([], r) == ToBE(x, 8);
    assert PrefixEnd([]) == [0x01] + Zeros(8);
    assert Lt(PrefixEnd([]), ToBE(0x200_0000_0000_0000, 8));
    LtTransitive(PrefixEnd([]), ToBE(0x200_0000_0000_0000, 8), ToBE(x, 8));
    LtAsymmetric(PrefixEnd([]), ToBE(x, 8));
  }

  // -------------------------------------------------------------- value codec

  const I64_MIN: int := -0x8000_0000_0000_0000
  const I64_MAX: int := 0x7FFF_FFFF_FFFF_FFFF

  datatype VersionedValue = VersionedValue(
    value: Option<Bytes>, createRevision: nat, modRevision: nat, leaseId: int, ttlSeconds: int)

  predicate ValueFits(v: VersionedValue)
  {
    && (v.value.Some? ==> |v.value.value| <= U32_MAX)
    && v.createRevision <= U64_MAX && v.modRevision <= U64_MAX
    && I64_MIN <= v.leaseId <= I64_MAX && I64_MIN <= v.ttlSeconds <= I64_MAX
  }

  /** Two's complement. */
  function ToI64(x: int): Bytes
    requires I64_MIN <= x <= I64_MAX
  {
    ToLE(if x < 0 then x + U64_MAX + 1 else x, 8)
  }

  function FromI64(s: Bytes): int
  {
    var n := FromLE(s);
    if n > I64_MAX then n - U64_MAX - 1 else n
  }

  lemma I64RoundTrip(x: int)
    requires I64_MIN <= x <= I64_MAX
    ensures FromI64(ToI64(x)) == x
  {
    Widths();
    FromToLE(if x < 0 then x + U64_MAX + 1 else x, 8);
  }

  function ValueHead(v: Option<Bytes>): Bytes
  {
    match v
    case Some(b) => [0x01] + ToLE(|b|, 4) + b
    case None => [0x02]
  }

  function EncodeValue(v: VersionedValue): (s: Bytes)
    requires ValueFits(v)
    ensures |s| == |ValueHead(v.value)| + 32
  {
    ValueHead(v.value) + (ToLE(v.createRevision, 8) + (ToLE(v.modRevision,
        8) + (ToI64(v.leaseId) + ToI64(v.ttlSeconds))))
  }

  function DecodeTail(data: Bytes, offset: nat, value: Option<Bytes>): VersionedValue
    requires offset + 32 <= |data|
  {
    VersionedValue(value, FromLE(data[offset..offset + 8]), FromLE(data[offset + 8..offset + 16]),
                   FromI64(data[offset + 16..offset + 24]), FromI64(data[offset + 24..offset + 32]))
  }

  /** Decoding slices without checks: it panics on anything shorter than what the tag promises. */
  predicate Decodable(data: Bytes)
  {
    && |data| >= 33
    && (data[0] == 0x01 ==> 5 + U32At(data, 1) + 32 <= |data|)
  }

  function DecodeValue(data: Bytes): VersionedValue
    requires Decodable(data)
  {
    if data[0] == 0x01 then
      var len := U32At(data, 1);
      DecodeTail(data, 5 + len, Some(data[5..5 + len]))
    else DecodeTail(data, 1, None)
  }

  lemma TailRoundTrip(v: VersionedValue, data: Bytes, offset: nat)
    requires ValueFits(v) && offset + 32 <= |data|
    requires data[offset..offset + 32] == ToLE(v.createRevision,
             8) + (ToLE(v.modRevision, 8) + (ToI64(v.leaseId) + ToI64(v.ttlSeconds)))
    ensures DecodeTail(data, offset, v.value) == v
  {
    var a, b, c, d := ToLE(v.createRevision, 8), ToLE(v.modRevision, 8), ToI64(v.leaseId), ToI64(v.ttlSeconds);
    SliceSplit(data, offset, a, b + (c + d));
    SliceSplit(data, offset + 8, b, c + d);
    SliceSplit(data, offset + 16, c, d);
    Widths();
    FromToLE(v.createRevision, 8);
    FromToLE(v.modRevision, 8);
    I64RoundTrip(v.leaseId);
    I64RoundTrip(v.ttlSeconds);
  }

  /** Decoding undoes encoding, for live values and delete markers. */
  lemma ValueRoundTrip(v: VersionedValue)
    requires ValueFits(v)
    ensures Decodable(EncodeValue(v)) && DecodeValue(EncodeValue(v)) == v
  {
    var data, head := EncodeValue(v), ValueHead(v.value);
    assert data[|head|..|head| + 32] == data[|head|..];
    TailRoundTrip(v, data, |head|);
    if v.value.Some? {
      var b := v.value.value;
      assert data[1..1 + 4] == ToLE(|b|, 4) && data[5..5 + |b|] == b;
      U32AtToLE(data, 1, |b|);
    }
  }
}
