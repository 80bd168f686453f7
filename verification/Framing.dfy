/** Values written one after the other and read back by a loop that carries an offset. */
module Framing {
  import opened Common
  import opened Bytes

  function Join<T>(enc: T -> Bytes, xs: seq<T>): Bytes
  {
    if xs == [] then [] else enc(xs[0]) + Join(enc, xs[1..])
  }

  /** Where value `i` starts. */
  function Offset<T>(enc: T -> Bytes, xs: seq<T>, i: nat): nat
    requires i <= |xs|
  {
    |Join(enc, xs[..i])|
  }

  lemma {:induction false} JoinConcat<T>(enc: T -> Bytes, a: seq<T>, b: seq<T>)
    ensures Join(enc, a + b) == Join(enc, a) + Join(enc, b)
  {
    if a == [] {
      assert a + b == b;
    } else {
      assert (a + b)[1..] == a[1..] + b;
      JoinConcat(enc, a[1..], b);
    }
  }

  lemma JoinOneMore<T>(enc: T -> Bytes, xs: seq<T>, x: T)
    ensures Join(enc, xs + [x]) == Join(enc, xs) + enc(x)
  {
    JoinConcat(enc, xs, [x]);
    assert Join(enc, [x]) == enc(x) + [];
  }

  lemma JoinSplit<T>(enc: T -> Bytes, xs: seq<T>, i: nat)
    requires i < |xs|
    ensures Join(enc, xs) == Join(enc, xs[..i]) + enc(xs[i]) + Join(enc, xs[i + 1..])
    ensures Offset(enc, xs, i + 1) == Offset(enc, xs, i) + |enc(xs[i])|
  {
    assert xs[..i + 1] == xs[..i] + [xs[i]] && xs == xs[..i + 1] + xs[i + 1..];
    JoinOneMore(enc, xs[..i], xs[i]);
    JoinConcat(enc, xs[..i + 1], xs[i + 1..]);
  }

  /** A value stands in the data at its offset behind whatever precedes the list. */
  lemma JoinSlice<T>(enc: T -> Bytes, xs: seq<T>, i: nat, before: Bytes, after: Bytes, data: Bytes)
    requires i < |xs| && data == before + Join(enc, xs) + after
    ensures |before| + Offset(enc, xs, i + 1) == |before| + Offset(enc, xs, i) + |enc(xs[i])| <= |data| - |after|
    ensures data[|before| + Offset(enc, xs, i)..|before| + Offset(enc, xs, i + 1)] == enc(xs[i])
  {
    hide Join;
    JoinSplit(enc, xs, i);
    var p, q := before + Join(enc, xs[..i]), Join(enc, xs[i + 1..]) + after;
    assert data == p + enc(xs[i]) + q;
    Middle(p, enc(xs[i]), q);
  }

  // ----------------------------------------------------------------- reading

  function Prepend<T, E>(done: seq<T>, r: Result<seq<T>, E>): Result<seq<T>, E>
  {
    match r
    case Ok(rest) => Ok(done + rest)
    case Err(e) => Err(e)
  }

  function ReadMany<T, E>(read: nat -> Result<(T, nat), E>, count: nat, offset: nat): Result<seq<T>, E>
    decreases count
  {
    if count == 0 then Ok([])
    else
      match read(offset)
      case Err(e) => Err(e)
      case Ok(p) => Prepend([p.0], ReadMany(read, count - 1, p.1))
  }

  lemma PrependNone<T, E>(r: Result<seq<T>, E>)
    ensures Prepend([], r) == r
  {
    if r.Ok? { assert [] + r.value == r.value; }
  }

  lemma PrependOne<T, E>(done: seq<T>, x: T, r: Result<seq<T>, E>)
    ensures Prepend(done, Prepend([x], r)) == Prepend(done + [x], r)
  {
    if r.Ok? { assert done + ([x] + r.value) == done + [x] + r.value; }
  }

  /** The loop that both the block reader and the index parser are. */
  method ReadLoop<T, E>(read: nat -> Result<(T, nat), E>, count: nat, start: nat) returns (r: Result<seq<T>, E>)
    ensures r == ReadMany(read, count, start)
  {
    var done: seq<T>, offset := [], start;
    PrependNone(ReadMany(read, count, start));
    for i := 0 to count
      invariant Prepend(done, ReadMany(read, count - i, offset)) == ReadMany(read, count, start)
    {
      match read(offset) {
        case Err(e) =>
          return Err(e);
        case Ok(p) =>
          PrependOne(done, p.0, ReadMany(read, count - i - 1, p.1));
          done, offset := done + [p.0], p.1;
      }
    }
    assert done + [] == done;
    r := Ok(done);
  }

  ghost predicate ReadsAt<T, E>(read: nat -> Result<(T, nat), E>, enc: T -> Bytes, xs: seq<T>, base: nat, i: nat)
    requires i < |xs|
  {
    read(base + Offset(enc, xs, i)) == Ok((xs[i], base + Offset(enc, xs, i + 1)))
  }

  lemma {:induction false} ReadFromIndex<T, E>(read: nat -> Result<(T, nat), E>, enc: T -> Bytes, xs: seq<T>,
                                               base: nat, i: nat)
    requires i <= |xs| && forall j :: i <= j < |xs| ==> ReadsAt(read, enc, xs, base, j)
    ensures ReadMany(read, |xs| - i, base + Offset(enc, xs, i)) == Ok(xs[i..])
    decreases |xs| - i
  {
    if i < |xs| {
      assert ReadsAt(read, enc, xs, base, i);
      ReadFromIndex(read, enc, xs, base, i + 1);
      assert xs[i..] == [xs[i]] + xs[i + 1..];
    }
  }

  /** If every single value is read back at its offset, the loop reads the list back. */
  lemma ReadBack<T, E>(read: nat -> Result<(T, nat), E>, enc: T -> Bytes, xs: seq<T>, base: nat)
    requires forall j :: 0 <= j < |xs| ==> ReadsAt(read, enc, xs, base, j)
    ensures ReadMany(read, |xs|, base) == Ok(xs)
  {
    ReadFromIndex(read, enc, xs, base, 0);
    assert xs[0..] == xs && xs[..0] == [];
  }
}
