/** Data blocks and the footer of a table: builders, readers and their round trips. */
module Blocks {
  import opened Common
  import opened Bytes
  import opened Entries
  import opened Framing

  const TOMBSTONE_MARKER: nat := U32_MAX
  const FOOTER_SIZE: nat := 40
  const MAGIC: nat := 0x5354_424C

  datatype TableError = Corrupted(what: string)

  // ----------------------------------------------------------------- entries

  function ValueBytes(v: Slot): Bytes
  {
    match v
    case Some(b) => b
    case None => []
  }

  function ValueMark(v: Slot): nat
  {
    match v
    case Some(b) => |b|
    case None => TOMBSTONE_MARKER
  }

  /** `[key_len: 4][val_len: 4][key][value]`; lengths are cut to 32 bits. */
  function EntryBytes(e: Entry): (s: Bytes)
    ensures |s| == 8 + |e.key| + |ValueBytes(e.value)|
  {
    ToLE(|e.key|, 4) + ToLE(ValueMark(e.value), 4) + e.key + ValueBytes(e.value)
  }

  /** The lengths survive the cast, and a value's length is not the tombstone marker. */
  predicate EntryFits(e: Entry)
  {
    |e.key| <= U32_MAX && (e.value.Some? ==> |e.value.value| < TOMBSTONE_MARKER)
  }

  function ReadEntry(data: Bytes, offset: nat, end: nat): Result<(Entry, nat), TableError>
    requires end <= |data|
  {
    if offset + 8 > end then Err(Corrupted("block entry truncated"))
    else
      var keyLen, mark, at := U32At(data, offset), U32At(data, offset + 4), offset + 8;
      if at + keyLen > end then Err(Corrupted("block key truncated"))
      else
        var key, at2 := data[at..at + keyLen], at + keyLen;
        if mark == TOMBSTONE_MARKER then Ok((Entry(key, None), at2))
        else if at2 + mark > end then Err(Corrupted("block value truncated"))
        else Ok((Entry(key, Some(data[at2..at2 + mark])), at2 + mark))
  }

  lemma EntryHeader(data: Bytes, offset: nat, e: Entry)
    requires offset + |EntryBytes(e)| <= |data| && data[offset..offset + |EntryBytes(e)|] == EntryBytes(e)
    ensures data[offset..offset + 4] == ToLE(|e.key|, 4)
    ensures data[offset + 4..offset + 8] == ToLE(ValueMark(e.value), 4)
    ensures data[offset + 8..offset + 8 + |e.key|] == e.key
    ensures data[offset + 8 + |e.key|..offset + |EntryBytes(e)|] == ValueBytes(e.value)
  {
    var a, b, v := ToLE(|e.key|, 4), ToLE(ValueMark(e.value), 4), ValueBytes(e.value);
    assert EntryBytes(e) == a + (b + (e.key + v));
    SliceSplit(data, offset, a, b + (e.key + v));
    SliceSplit(data, offset + 4, b, e.key + v);
    SliceSplit(data, offset + 8, e.key, v);
  }

  lemma ReadEntryBack(data: Bytes, offset: nat, end: nat, e: Entry)
    requires EntryFits(e) && offset + |EntryBytes(e)| <= end <= |data|
    requires data[offset..offset + |EntryBytes(e)|] == EntryBytes(e)
    ensures ReadEntry(data, offset, end) == Ok((e, offset + |EntryBytes(e)|))
  {
    EntryHeader(data, offset, e);
    U32AtToLE(data, offset, |e.key|);
    U32AtToLE(data, offset + 4, ValueMark(e.value));
  }

  /** The block format stores an entry faithfully exactly when its lengths fit. */
  lemma EntryRoundTripExactly(e: Entry)
    ensures ReadEntry(EntryBytes(e), 0, |EntryBytes(e)|) == Ok((e, |EntryBytes(e)|)) <==> EntryFits(e)
  {
    var s := EntryBytes(e);
    assert s[0..|s|] == s;
    if EntryFits(e) {
      ReadEntryBack(s, 0, |s|, e);
    } else if e.value.Some? && |e.key| <= U32_MAX && |e.value.value| == TOMBSTONE_MARKER {
      EntryHeader(s, 0, e);
      U32AtToLE(s, 4, TOMBSTONE_MARKER);
    }
  }

  // ------------------------------------------------------------------ blocks

  function BlockBytes(es: seq<Entry>): (s: Bytes)
    ensures |s| >= 4
  {
    Join(EntryBytes, es) + ToLE(|es|, 4)
  }

  predicate AllFit(es: seq<Entry>)
  {
    forall i :: 0 <= i < |es| ==> EntryFits(es[i])
  }

  predicate BlockFits(es: seq<Entry>)
  {
    |es| <= U32_MAX && AllFit(es)
  }

  /** Reads one entry of a block whose last four bytes are the trailer. */
  function EntryReader(data: Bytes): nat -> Result<(Entry, nat), TableError>
    requires |data| >= 4
  {
    offset => ReadEntry(data, offset, |data| - 4)
  }

  function ReadEntries(data: Bytes): Result<seq<Entry>, TableError>
  {
    if |data| < 4 then Err(Corrupted("block too small"))
    else ReadMany(EntryReader(data), U32At(data, |data| - 4), 0)
  }

  lemma EntrySlice(es: seq<Entry>, i: nat)
    requires i < |es|
    ensures var from, to := Offset(EntryBytes, es, i), Offset(EntryBytes, es, i + 1);
            to == from + |EntryBytes(es[i])| <= |BlockBytes(es)| - 4 && BlockBytes(es)[from..to] == EntryBytes(es[i])
  {
    assert BlockBytes(es) == [] + Join(EntryBytes, es) + ToLE(|es|, 4);
    JoinSlice(EntryBytes, es, i, [], ToLE(|es|, 4), BlockBytes(es));
  }

  lemma EntryReads(es: seq<Entry>, i: nat)
    requires i < |es| && EntryFits(es[i])
    ensures ReadsAt(EntryReader(BlockBytes(es)), EntryBytes, es, 0, i)
  {
    EntrySlice(es, i);
    ReadEntryBack(BlockBytes(es), Offset(EntryBytes, es, i), |BlockBytes(es)| - 4, es[i]);
  }

  lemma CountAtEnd(es: seq<Entry>)
    requires |es| <= U32_MAX
    ensures U32At(BlockBytes(es), |BlockBytes(es)| - 4) == |es|
  {
    var data := BlockBytes(es);
    assert data[|data| - 4..|data| - 4 + 4] == ToLE(|es|, 4);
    U32AtToLE(data, |data| - 4, |es|);
  }

  lemma BlockRoundTrip(es: seq<Entry>)
    requires BlockFits(es)
    ensures ReadEntries(BlockBytes(es)) == Ok(es)
  {
    forall i | 0 <= i < |es|
      ensures ReadsAt(EntryReader(BlockBytes(es)), EntryBytes, es, 0, i)
    {
      EntryReads(es, i);
    }
    ReadBack(EntryReader(BlockBytes(es)), EntryBytes, es, 0);
    CountAtEnd(es);
  }

  method ReadBlock(data: Bytes) returns (r: Result<seq<Entry>, TableError>)
    ensures r == ReadEntries(data)
  {
    if |data| < 4 { return Err(Corrupted("block too small")); }
    r := ReadLoop(EntryReader(data), U32At(data, |data| - 4), 0);
  }

  lemma OneMoreEntry(es: seq<Entry>, e: Entry)
    ensures Join(EntryBytes, es + [e])
         == Join(EntryBytes, es) + ToLE(|e.key|, 4) + ToLE(ValueMark(e.value), 4) + e.key + ValueBytes(e.value)
  {
    JoinOneMore(EntryBytes, es, e);
  }

  class BlockBuilder {
    var entries: seq<Entry>
    var size: nat

    /** The size estimate is exact. */
    predicate Valid()
      reads this
    {
      size == |BlockBytes(entries)|
    }

    constructor ()
      ensures Valid() && entries == []
    {
      entries, size := [], 4;
    }

    method Add(key: Bytes, value: Slot)
      requires Valid()
      modifies this
      ensures Valid() && entries == old(entries) + [Entry(key, value)]
    {
      JoinOneMore(EntryBytes, entries, Entry(key, value));
      size := size + 4 + 4 + |key| + |ValueBytes(value)|;
      entries := entries + [Entry(key, value)];
    }

    method Build() returns (buf: Bytes)
      ensures buf == BlockBytes(entries)
    {
      buf := [];
      assert entries[..0] == [];
      for i := 0 to |entries|
        invariant buf == Join(EntryBytes, entries[..i])
      {
        var e := entries[i];
        assert entries[..i + 1] == entries[..i] + [e];
        OneMoreEntry(entries[..i], e);
        buf := buf + ToLE(|e.key|, 4) + ToLE(ValueMark(e.value), 4) + e.key;
        if e.value.Some? { buf := buf + e.value.value; }
      }
      assert entries[..|entries|] == entries;
      buf := buf + ToLE(|entries|, 4);
    }
  }

  // ------------------------------------------------------------------ search

  datatype Position = Found(i: nat) | Missing(at: nat)

  predicate SortedKeys(keys: seq<Bytes>)
  {
    forall i, j :: 0 <= i < j < |keys| ==> Lt(keys[i], keys[j])
  }

  predicate SmallerBefore(keys: seq<Bytes>, key: Bytes, n: nat)
  {
    forall i :: 0 <= i < n && i < |keys| ==> Lt(keys[i], key)
  }

  predicate LargerFrom(keys: seq<Bytes>, key: Bytes, n: nat)
  {
    forall i :: n <= i < |keys| ==> Lt(key, keys[i])
  }

  lemma OrderAround(keys: seq<Bytes>, key: Bytes, mid: nat)
    requires SortedKeys(keys) && mid < |keys|
    ensures Lt(keys[mid], key) ==> SmallerBefore(keys, key, mid + 1)
    ensures Lt(key, keys[mid]) ==> LargerFrom(keys, key, mid)
  {
    forall i | 0 <= i < mid && Lt(keys[mid], key) ensures Lt(keys[i], key) { LtTransitive(keys[i], keys[mid], key); }
    forall i | mid < i < |keys| && Lt(key, keys[mid])
        ensures Lt(key, keys[i]) { LtTransitive(key, keys[mid], keys[i]); }
  }

  /** Binary search over strictly sorted keys: the position, or the insertion point. */
  method BinarySearch(keys: seq<Bytes>, key: Bytes) returns (p: Position)
    requires SortedKeys(keys)
    ensures match p
            case Found(i) => i < |keys| && keys[i] == key
            case Missing(n) => n <= |keys| && SmallerBefore(keys, key, n) && LargerFrom(keys, key, n)
  {
    var lo, hi := 0, |keys|;
    while lo < hi
      invariant 0 <= lo <= hi <= |keys|
      invariant SmallerBefore(keys, key, lo) && LargerFrom(keys, key, hi)
    {
      var mid := (lo + hi) / 2;
      if keys[mid] == key { return Found(mid); }
      OrderAround(keys, key, mid);
      LtTotal(keys[mid], key);
      if Lt(keys[mid], key) { lo := mid + 1; } else { hi := mid; }
    }
    p := Missing(lo);
  }

  // ------------------------------------------------------------------ footer

  datatype Footer = Footer(indexOffset: nat, indexSize: nat, bloomOffset: nat, bloomSize: nat, numHashes: nat)

  function FooterBytes(f: Footer): (s: Bytes)
    ensures |s| == FOOTER_SIZE
  {
    ToLE(f.indexOffset, 8) + ToLE(f.indexSize, 8) + ToLE(f.bloomOffset, 8) + ToLE(f.bloomSize, 8)
    + ToLE(f.numHashes, 4) + ToLE(MAGIC, 4)
  }

  predicate FooterFits(f: Footer)
  {
    && f.indexOffset <= U64_MAX && f.indexSize <= U64_MAX && f.bloomOffset <= U64_MAX && f.bloomSize <= U64_MAX
    && f.numHashes <= U32_MAX
  }

  function ReadFooter(s: Bytes): Result<Footer, TableError>
    requires |s| == FOOTER_SIZE
  {
    if U32At(s, 36) != MAGIC then Err(Corrupted("footer magic mismatch"))
    else Ok(Footer(FromLE(s[0..8]), FromLE(s[8..16]), FromLE(s[16..24]), FromLE(s[24..32]), U32At(s, 32)))
  }

  lemma FooterParts(f: Footer)
    ensures var s := FooterBytes(f);
            && s[0..8] == ToLE(f.indexOffset, 8) && s[8..16] == ToLE(f.indexSize, 8)
            && s[16..24] == ToLE(f.bloomOffset, 8) && s[24..32] == ToLE(f.bloomSize, 8)
            && s[32..32 + 4] == ToLE(f.numHashes, 4) && s[36..36 + 4] == ToLE(MAGIC, 4)
  {
    var s := FooterBytes(f);
    var a, b, c, d := ToLE(f.indexOffset, 8), ToLE(f.indexSize, 8), ToLE(f.bloomOffset, 8), ToLE(f.bloomSize, 8);
    var k, m := ToLE(f.numHashes, 4), ToLE(MAGIC, 4);
    assert s[0..40] == s == a + (b + (c + (d + (k + m))));
    SliceSplit(s, 0, a, b + (c + (d + (k + m))));
    SliceSplit(s, 8, b, c + (d + (k + m)));
    SliceSplit(s, 16, c, d + (k + m));
    SliceSplit(s, 24, d, k + m);
    SliceSplit(s, 32, k, m);
  }

  lemma FooterRoundTrip(f: Footer)
    requires FooterFits(f)
    ensures ReadFooter(FooterBytes(f)) == Ok(f)
  {
    var s := FooterBytes(f);
    FooterParts(f);
    Widths();
    FromToLE(f.indexOffset, 8);
    FromToLE(f.indexSize, 8);
    FromToLE(f.bloomOffset, 8);
    FromToLE(f.bloomSize, 8);
    U32AtToLE(s, 32, f.numHashes);
    U32AtToLE(s, 36, MAGIC);
  }
}
