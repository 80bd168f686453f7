/**
 Bytes, fixed-width integer codecs and the lexicographic order on byte strings
 that `Ord for [u8]` gives in the storage and MVCC crates.
 */
module Bytes {

  type Byte = x: int | 0 <= x < 256 witness 0
  type Bytes = seq<Byte>

  const U32_MAX: nat := 0xFFFF_FFFF
  const U64_MAX: nat := 0xFFFF_FFFF_FFFF_FFFF

  // ---------------------------------------------------------------- integers

  /** 256 to the power `w`: the number of values `w` bytes can hold. */
  function Pow256(w: nat): (p: nat)
    ensures p > 0
  {
    if w == 0 then 1 else 256 * Pow256(w - 1)
  }

  lemma Widths()
    ensures Pow256(4) == U32_MAX + 1
    ensures Pow256(8) == U64_MAX + 1
  {
    assert Pow256(1) == 256;
    assert Pow256(2) == 0x1_0000;
    assert Pow256(3) == 0x100_0000;
    assert Pow256(4) == 0x1_0000_0000;
    assert Pow256(5) == 0x100_0000_0000;
    assert Pow256(6) == 0x1_0000_0000_0000;
    assert Pow256(7) == 0x100_0000_0000_0000;
  }

  /** Digit `i` of a number in base 256, least significant first. */
  function Digit(n: nat, i: nat): Byte
  {
    if i == 0 then n % 256 else Digit(n / 256, i - 1)
  }

  /** Little-endian encoding in `w` bytes; higher bytes are cut off, as an `as u32` cast does. */
  function ToLE(n: nat, w: nat): (s: Bytes)
    ensures |s| == w
  {
    seq(w, i requires 0 <= i < w => Digit(n, i))
  }

  function FromLE(s: Bytes): (n: nat)
    ensures n < Pow256(|s|)
  {
    if s == [] then 0 else s[0] + 256 * FromLE(s[1..])
  }

  lemma {:induction false} FromToLE(n: nat, w: nat)
    requires n < Pow256(w)
    ensures FromLE(ToLE(n, w)) == n
  {
    if w > 0 {
      assert n / 256 < Pow256(w - 1);
      FromToLE(n / 256, w - 1);
      forall i | 0 <= i < w - 1
        ensures ToLE(n, w)[1..][i] == ToLE(n / 256, w - 1)[i]
      {
        assert Digit(n, i + 1) == Digit(n / 256, i);
      }
      assert ToLE(n, w)[1..] == ToLE(n / 256, w - 1);
    }
  }

  /** The middle of three joined pieces. */
  lemma Middle(p: Bytes, x: Bytes, q: Bytes)
    ensures (p + x + q)[|p|..|p| + |x|] == x
  {
  }

  /** Two neighbouring slices of a slice. */
  lemma SliceSplit(data: Bytes, offset: nat, a: Bytes, b: Bytes)
    requires offset + |a| + |b| <= |data| && data[offset..offset + |a| + |b|] == a + b
    ensures data[offset..offset + |a|] == a && data[offset + |a|..offset + |a| + |b|] == b
  {
    var w := data[offset..offset + |a| + |b|];
    assert data[offset..offset + |a|] == w[..|a|];
    assert data[offset + |a|..offset + |a| + |b|] == w[|a|..];
  }

  /** The four bytes at `i`, least significant first. */
  function U32At(s: Bytes, i: nat): (n: nat)
    requires i + 4 <= |s|
    ensures n <= U32_MAX
  {
    var b0: nat, b1: nat, b2: nat, b3: nat := s[i], s[i + 1], s[i + 2], s[i + 3];
    b0 + 0x100 * b1 + 0x1_0000 * b2 + 0x100_0000 * b3
  }

  lemma U32AtIsFromLE(s: Bytes, i: nat)
    requires i + 4 <= |s|
    ensures U32At(s, i) == FromLE(s[i..i + 4])
  {
    var b1, b2, b3 := s[i + 1..i + 4], s[i + 2..i + 4], s[i + 3..i + 4];
    assert s[i..i + 4][1..] == b1 && b1[1..] == b2 && b2[1..] == b3 && b3[1..] == [];
    assert FromLE(b3) == s[i + 3];
    assert FromLE(b2) == s[i + 2] + 256 * FromLE(b3);
    assert FromLE(b1) == s[i + 1] + 256 * FromLE(b2);
  }

  /** A number written in four bytes is read back, wherever it stands. */
  lemma U32AtToLE(s: Bytes, i: nat, n: nat)
    requires n <= U32_MAX && i + 4 <= |s| && s[i..i + 4] == ToLE(n, 4)
    ensures U32At(s, i) == n
  {
    Widths();
    FromToLE(n, 4);
    U32AtIsFromLE(s, i);
  }

  /** Four bytes are the encoding of the number they stand for. */
  lemma ToLEOfU32(s: Bytes, i: nat)
    requires i + 4 <= |s|
    ensures ToLE(U32At(s, i), 4) == s[i..i + 4]
  {
    var b0: nat, b1: nat, b2: nat, b3: nat := s[i], s[i + 1], s[i + 2], s[i + 3];
    var n := U32At(s, i);
    var n1, n2 := b1 + 0x100 * b2 + 0x1_0000 * b3, b2 + 0x100 * b3;
    assert n == b0 + 256 * n1 && n1 == b1 + 256 * n2;
    assert n % 256 == b0 && n / 256 == n1 && n1 % 256 == b1 && n1 / 256 == n2 && n2 % 256 == b2 && n2 / 256 == b3;
    assert Digit(n, 1) == Digit(n1, 0) && Digit(n, 2) == Digit(n1, 1) == Digit(n2, 0);
    assert Digit(n, 3) == Digit(n1, 2) == Digit(n2, 1) == Digit(b3, 0);
  }

  /** Big-endian encoding in `w` bytes. */
  function ToBE(n: nat, w: nat): (s: Bytes)
    ensures |s| == w
  {
    if w == 0 then [] else ToBE(n / 256, w - 1) + [n % 256]
  }

  function FromBE(s: Bytes): (n: nat)
    ensures n < Pow256(|s|)
  {
    if s == [] then 0 else 256 * FromBE(s[..|s| - 1]) + s[|s| - 1]
  }

  lemma {:induction false} FromToBE(n: nat, w: nat)
    requires n < Pow256(w)
    ensures FromBE(ToBE(n, w)) == n
  {
    if w > 0 {
      assert n / 256 < Pow256(w - 1);
      FromToBE(n / 256, w - 1);
      assert ToBE(n, w)[..w - 1] == ToBE(n / 256, w - 1);
    }
  }

  // ------------------------------------------------------- lexicographic order

  /** Strict lexicographic order; a proper prefix comes first. */
  predicate Lt(a: Bytes, b: Bytes)
  {
    if b == [] then false
    else if a == [] then true
    else if a[0] != b[0] then a[0] < b[0]
    else Lt(a[1..], b[1..])
  }

  predicate Le(a: Bytes, b: Bytes)
  {
    a == b || Lt(a, b)
  }

  /** The half-open range of a scan. */
  predicate InRange(key: Bytes, start: Bytes, end: Bytes)
  {
    Le(start, key) && Lt(key, end)
  }

  lemma {:induction false} LtIrreflexive(a: Bytes)
    ensures !Lt(a, a)
  {
    if a != [] { LtIrreflexive(a[1..]); }
  }

  lemma {:induction false} LtTransitive(a: Bytes, b: Bytes, c: Bytes)
    requires Lt(a, b) && Lt(b, c)
    ensures Lt(a, c)
  {
    if a != [] && b != [] && c != [] && a[0] == b[0] == c[0] {
      LtTransitive(a[1..], b[1..], c[1..]);
    }
  }

  lemma {:induction false} LtTotal(a: Bytes, b: Bytes)
    ensures Lt(a, b) || a == b || Lt(b, a)
  {
    if a != [] && b != [] && a[0] == b[0] {
      LtTotal(a[1..], b[1..]);
      assert a == [a[0]] + a[1..] && b == [b[0]] + b[1..];
    }
  }

  lemma LtAsymmetric(a: Bytes, b: Bytes)
    requires Lt(a, b)
    ensures !Lt(b, a) && a != b
  {
    LtIrreflexive(a);
    if Lt(b, a) { LtTransitive(a, b, a); }
  }

  /** A common prefix does not influence the order. */
  lemma {:induction false} LtCommonPrefix(p: Bytes, a: Bytes, b: Bytes)
    ensures Lt(p + a, p + b) <==> Lt(a, b)
  {
    if p == [] {
      assert p + a == a && p + b == b;
    } else {
      LtCommonPrefix(p[1..], a, b);
      assert (p + a)[1..] == p[1..] + a && (p + b)[1..] == p[1..] + b;
    }
  }

  /** The first differing position decides. */
  lemma LtAtDifference(a: Bytes, b: Bytes, i: nat)
    requires i < |a| && i < |b| && a[..i] == b[..i] && a[i] != b[i]
    ensures Lt(a, b) <==> a[i] < b[i]
  {
    assert a == a[..i] + a[i..] && b == a[..i] + b[i..];
    LtCommonPrefix(a[..i], a[i..], b[i..]);
  }

  /** A proper prefix is smaller. */
  lemma LtProperPrefix(a: Bytes, b: Bytes)
    requires |a| < |b| && b[..|a|] == a
    ensures Lt(a, b)
  {
    assert a == a + [] && b == a + b[|a|..];
    LtCommonPrefix(a, [], b[|a|..]);
  }

  /** Either one string is a prefix of the other or they differ at some first position. */
  lemma {:induction false} PrefixOrDifference(a: Bytes, b: Bytes) returns (i: nat)
    ensures i <= |a| && i <= |b| && a[..i] == b[..i]
    ensures i == |a| || i == |b| || a[i] != b[i]
  {
    if a == [] || b == [] || a[0] != b[0] {
      i := 0;
    } else {
      var j := PrefixOrDifference(a[1..], b[1..]);
      i := j + 1;
      assert a[..i] == [a[0]] + a[1..][..j];
      assert b[..i] == [b[0]] + b[1..][..j];
    }
  }
}
