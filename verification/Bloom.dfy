/** Bloom filter: bit vector, double hashing with wrap-around, and the byte form stored in a table. */
module Blooms {
  import opened Bytes

  type U64 = x: nat | x <= U64_MAX
  /** The two hashes of a key; any function of the key will do. */
  type Hasher = Bytes -> (U64, U64)

  datatype Bloom = Bloom(bits: seq<bool>, numHashes: nat)

  /** `h1.wrapping_add(i.wrapping_mul(h2)) % num_bits` */
  function Index(h: (U64, U64), i: nat, numBits: nat): (j: nat)
    requires numBits > 0
    ensures j < numBits
  {
    ((h.0 + (i * h.1) % (U64_MAX + 1)) % (U64_MAX + 1)) % numBits
  }

  /** Position `j` is one of the first `n` probes of the key. */
  ghost predicate Probed(h: (U64, U64), n: nat, numBits: nat, j: nat)
    requires numBits > 0
  {
    exists i: nat :: i < n && Index(h, i, numBits) == j
  }

  ghost predicate MayContain(hash: Hasher, b: Bloom, key: Bytes)
  {
    |b.bits| > 0 && forall i: nat :: i < b.numHashes ==> b.bits[Index(hash(key), i, |b.bits|)]
  }

  /** `b'` is `b` with the probes of `key` switched on. */
  ghost predicate Inserted(hash: Hasher, b: Bloom, key: Bytes, b': Bloom)
  {
    && |b.bits| > 0 && |b'.bits| == |b.bits| && b'.numHashes == b.numHashes
    && forall j: nat :: j < |b.bits| ==> (b'.bits[j] <==> b.bits[j] || Probed(hash(key), b.numHashes, |b.bits|, j))
  }

  /** No insertion ever hides a key, and the inserted key is found. */
  lemma InsertKeeps(hash: Hasher, b: Bloom, key: Bytes, b': Bloom, other: Bytes)
    requires Inserted(hash, b, key, b')
    ensures MayContain(hash, b', key)
    ensures MayContain(hash, b, other) ==> MayContain(hash, b', other)
  {
    forall i: nat | i < b.numHashes
      ensures b'.bits[Index(hash(key), i, |b.bits|)]
    {
      assert Probed(hash(key), b.numHashes, |b.bits|, Index(hash(key), i, |b.bits|));
    }
  }

  /** No false negatives for a whole set of keys. */
  ghost predicate Covers(hash: Hasher, b: Bloom, keys: set<Bytes>)
  {
    |b.bits| > 0 && forall k :: k in keys ==> MayContain(hash, b, k)
  }

  lemma InsertCovers(hash: Hasher, b: Bloom, keys: set<Bytes>, key: Bytes, b': Bloom)
    requires Covers(hash, b, keys) && Inserted(hash, b, key, b')
    ensures Covers(hash, b', keys + {key})
  {
    forall k | k in keys + {key}
      ensures MayContain(hash, b', k)
    {
      InsertKeeps(hash, b, key, b', k);
    }
  }

  /** The filters on the way from an empty one, one key inserted after the other. */
  ghost predicate Filled(hash: Hasher, bs: seq<Bloom>, keys: seq<Bytes>)
  {
    && |bs| == |keys| + 1
    && |bs[0].bits| > 0 && (forall j :: 0 <= j < |bs[0].bits| ==> !bs[0].bits[j])
    && forall i {:trigger keys[i]} :: 0 <= i < |keys| ==> Inserted(hash, bs[i], keys[i], bs[i + 1])
  }

  /** Some inserted key switched the bit on. */
  ghost predicate SwitchedOn(hash: Hasher, keys: seq<Bytes>, numHashes: nat, numBits: nat, j: nat)
    requires numBits > 0
  {
    exists i :: 0 <= i < |keys| && Probed(hash(keys[i]), numHashes, numBits, j)
  }

  lemma {:induction false} BitsExactly(hash: Hasher, bs: seq<Bloom>, keys: seq<Bytes>, n: nat)
    requires Filled(hash, bs, keys) && n <= |keys|
    ensures |bs[n].bits| == |bs[0].bits| && bs[n].numHashes == bs[0].numHashes
    ensures forall j: nat :: j < |bs[n].bits| ==>
              (bs[n].bits[j] <==> SwitchedOn(hash, keys[..n], bs[0].numHashes, |bs[0].bits|, j))
  {
    hide Probed;
    if n > 0 {
      BitsExactly(hash, bs, keys, n - 1);
      assert Inserted(hash, bs[n - 1], keys[n - 1], bs[n]);
      var before, now := keys[..n - 1], keys[..n];
      forall j: nat | j < |bs[n].bits|
        ensures bs[n].bits[j] <==> SwitchedOn(hash, now, bs[0].numHashes, |bs[0].bits|, j)
      {
        if i :| 0 <= i < |before| && Probed(hash(before[i]), bs[0].numHashes, |bs[0].bits|, j) {
          assert now[i] == before[i];
        }
        if i :| 0 <= i < |now| && Probed(hash(now[i]), bs[0].numHashes, |bs[0].bits|, j) {
          assert i < n - 1 ==> before[i] == now[i];
        }
        assert now[n - 1] == keys[n - 1];
      }
    }
  }

  /**
   What a filter answers after any insertions: yes exactly when every probe of the key coincides
   with a probe of some inserted key. So inserted keys are always found, and an empty filter with at
   least one hash finds nothing.
   */
  lemma FilterExactly(hash: Hasher, bs: seq<Bloom>, keys: seq<Bytes>, key: Bytes)
    requires Filled(hash, bs, keys)
    ensures var b := bs[0];
            MayContain(hash, bs[|keys|], key) <==>
              forall i: nat :: i < b.numHashes ==>
                SwitchedOn(hash, keys, b.numHashes, |b.bits|, Index(hash(key), i, |b.bits|))
  {
    hide SwitchedOn;
    BitsExactly(hash, bs, keys, |keys|);
    assert keys[..|keys|] == keys;
  }

  // ------------------------------------------------------------- byte form

  function Pow2(n: nat): (p: nat)
    ensures p > 0
  {
    if n == 0 then 1 else 2 * Pow2(n - 1)
  }

  /** Bits as a number, least significant first. */
  function Pack(bits: seq<bool>): (x: nat)
    ensures x < Pow2(|bits|)
  {
    if bits == [] then 0 else (if bits[0] then 1 else 0) + 2 * Pack(bits[1..])
  }

  function Unpack(x: nat, n: nat): (bits: seq<bool>)
    ensures |bits| == n
  {
    if n == 0 then [] else [x % 2 == 1] + Unpack(x / 2, n - 1)
  }

  lemma EightBits(n: nat)
    requires n <= 8
    ensures Pow2(n) <= 256
  {
    assert Pow2(1) == 2;
    assert Pow2(2) == 4;
    assert Pow2(3) == 8;
    assert Pow2(4) == 16;
    assert Pow2(5) == 32;
    assert Pow2(6) == 64;
    assert Pow2(7) == 128;
  }

  /** At most eight bits in one byte; the missing ones are zero. */
  function PackByte(bits: seq<bool>): Byte
    requires |bits| <= 8
  {
    EightBits(|bits|);
    Pack(bits)
  }

  lemma {:induction false} UnpackPack(bits: seq<bool>, n: nat)
    requires |bits| <= n
    ensures Unpack(Pack(bits), n)[..|bits|] == bits
  {
    if bits != [] {
      UnpackPack(bits[1..], n - 1);
      assert Pack(bits) / 2 == Pack(bits[1..]) && (Pack(bits) % 2 == 1 <==> bits[0]);
      assert bits == [bits[0]] + bits[1..];
    }
  }

  function AsBytes(bits: seq<bool>): Bytes
    decreases |bits|
  {
    if bits == [] then []
    else if |bits| <= 8 then [PackByte(bits)]
    else [PackByte(bits[..8])] + AsBytes(bits[8..])
  }

  function FromVec(bytes: Bytes): (bits: seq<bool>)
    ensures |bits| == 8 * |bytes|
  {
    if bytes == [] then [] else Unpack(bytes[0], 8) + FromVec(bytes[1..])
  }

  function Resize(bits: seq<bool>, n: nat): (r: seq<bool>)
    ensures |r| == n
  {
    if n <= |bits| then bits[..n] else bits + seq(n - |bits|, _ => false)
  }

  function FromRaw(bytes: Bytes, numHashes: nat, numBits: nat): Bloom
  {
    Bloom(Resize(FromVec(bytes), numBits), numHashes)
  }

  lemma {:induction false} FromVecAsBytes(bits: seq<bool>)
    ensures |FromVec(AsBytes(bits))| >= |bits| && FromVec(AsBytes(bits))[..|bits|] == bits
    decreases |bits|
  {
    if bits == [] {
    } else if |bits| <= 8 {
      UnpackPack(bits, 8);
      assert FromVec(AsBytes(bits)) == Unpack(PackByte(bits), 8) + [];
    } else {
      UnpackPack(bits[..8], 8);
      FromVecAsBytes(bits[8..]);
      assert AsBytes(bits)[1..] == AsBytes(bits[8..]);
      assert FromVec(AsBytes(bits)) == bits[..8] + FromVec(AsBytes(bits[8..]));
      assert bits == bits[..8] + bits[8..];
    }
  }

  /** A filter written to a table and read back is the same filter. */
  lemma BloomRoundTrip(b: Bloom)
    ensures FromRaw(AsBytes(b.bits), b.numHashes, |b.bits|) == b
  {
    FromVecAsBytes(b.bits);
  }

  // ----------------------------------------------------------------- class

  class BloomFilter {
    const hash: Hasher
    var bits: seq<bool>
    const numHashes: nat

    function Value(): Bloom
      reads this
    {
      Bloom(bits, numHashes)
    }

    predicate Valid()
      reads this
    {
      |bits| > 0
    }

    /** The sizing formula is floating point; all that matters is its lower bounds. */
    constructor (hash: Hasher, numBits: nat, numHashes: nat)
      requires numBits >= 8 && numHashes >= 1
      ensures Valid() && this.hash == hash && this.numHashes == numHashes && |bits| == numBits
      ensures Covers(hash, Value(), {})
    {
      this.hash, this.numHashes := hash, numHashes;
      bits := seq(numBits, _ => false);
    }

    method Insert(key: Bytes)
      requires Valid()
      modifies this
      ensures Valid() && Inserted(hash, old(Value()), key, Value())
    {
      var h := hash(key);
      for i := 0 to numHashes
        invariant |bits| == |old(bits)|
        invariant forall j: nat :: j < |bits| ==> (bits[j] <==> old(bits)[j] || Probed(h, i, |bits|, j))
      {
        var idx := Index(h, i, |bits|);
        bits := bits[idx := true];
        assert Probed(h, i + 1, |bits|, idx);
        assert forall j: nat :: j < |bits| && Probed(h, i, |bits|, j) ==> Probed(h, i + 1, |bits|, j);
      }
    }

    method MayContainKey(key: Bytes) returns (r: bool)
      requires Valid()
      ensures r <==> MayContain(hash, Value(), key)
    {
      var h := hash(key);
      for i := 0 to numHashes
        invariant forall j: nat :: j < i ==> bits[Index(h, j, |bits|)]
      {
        if !bits[Index(h, i, |bits|)] { return false; }
      }
      r := true;
    }
  }
}
