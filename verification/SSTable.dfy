/**
 Tables on disk: data blocks, index, bloom filter and footer. The writer produces a `Layout` of
 its blocks; the reader gives back every entry of any layout, whatever the block boundaries are.
 */
module SSTables {
  import opened Common
  import opened Bytes
  import opened Entries
  import opened Framing
  import opened Blooms
  import opened Blocks

  datatype IndexEntry = IndexEntry(firstKey: Bytes, offset: nat, size: nat)

  type Block = seq<Entry>

  // ------------------------------------------------------------------- index

  function IndexEntryBytes(e: IndexEntry): (s: Bytes)
    ensures |s| == 20 + |e.firstKey|
  {
    ToLE(|e.firstKey|, 4) + e.firstKey + ToLE(e.offset, 8) + ToLE(e.size, 8)
  }

  predicate IndexEntryFits(e: IndexEntry)
  {
    |e.firstKey| <= U32_MAX && e.offset <= U64_MAX && e.size <= U64_MAX
  }

  function ReadIndexEntry(data: Bytes, offset: nat): Result<(IndexEntry, nat), TableError>
  {
    if offset + 4 > |data| then Err(Corrupted("index entry truncated"))
    else
      var keyLen, at := U32At(data, offset), offset + 4;
      if at + keyLen + 16 > |data| then Err(Corrupted("index entry truncated"))
      else
        var at2 := at + keyLen;
        Ok((IndexEntry(data[at..at2], FromLE(data[at2..at2 + 8]), FromLE(data[at2 + 8..at2 + 16])), at2 + 16))
  }

  lemma IndexEntryParts(data: Bytes, offset: nat, e: IndexEntry)
    requires offset + |IndexEntryBytes(e)| <= |data|
             && data[offset..offset + |IndexEntryBytes(e)|] == IndexEntryBytes(e)
    ensures var at := offset + 4 + |e.firstKey|;
            && data[offset..offset + 4] == ToLE(|e.firstKey|, 4) && data[offset + 4..at] == e.firstKey
            && data[at..at + 8] == ToLE(e.offset, 8) && data[at + 8..at + 16] == ToLE(e.size, 8)
  {
    var a, b, c := ToLE(|e.firstKey|, 4), ToLE(e.offset, 8), ToLE(e.size, 8);
    assert IndexEntryBytes(e) == a + (e.firstKey + (b + c));
    SliceSplit(data, offset, a, e.firstKey + (b + c));
    SliceSplit(data, offset + 4, e.firstKey, b + c);
    SliceSplit(data, offset + 4 + |e.firstKey|, b, c);
  }

  lemma ReadIndexEntryBack(data: Bytes, offset: nat, e: IndexEntry)
    requires IndexEntryFits(e) && offset + |IndexEntryBytes(e)| <= |data|
    requires data[offset..offset + |IndexEntryBytes(e)|] == IndexEntryBytes(e)
    ensures ReadIndexEntry(data, offset) == Ok((e, offset + |IndexEntryBytes(e)|))
  {
    IndexEntryParts(data, offset, e);
    U32AtToLE(data, offset, |e.firstKey|);
    Widths();
    FromToLE(e.offset, 8);
    FromToLE(e.size, 8);
  }

  function IndexReader(data: Bytes): nat -> Result<(IndexEntry, nat), TableError>
  {
    offset => ReadIndexEntry(data, offset)
  }

  function ParseIndex(data: Bytes): Result<seq<IndexEntry>, TableError>
  {
    if |data| < 4 then Err(Corrupted("index block too small"))
    else ReadMany(IndexReader(data), U32At(data, 0), 4)
  }

  function IndexBytes(index: seq<IndexEntry>): (s: Bytes)
    ensures |s| >= 4
  {
    ToLE(|index|, 4) + Join(IndexEntryBytes, index)
  }

  predicate IndexFits(index: seq<IndexEntry>)
  {
    |index| <= U32_MAX && forall i :: 0 <= i < |index| ==> IndexEntryFits(index[i])
  }

  lemma IndexSlice(index: seq<IndexEntry>, i: nat)
    requires i < |index|
    ensures var from, to := 4 + Offset(IndexEntryBytes, index, i), 4 + Offset(IndexEntryBytes, index, i + 1);
            to == from + |IndexEntryBytes(index[i])| <= |IndexBytes(index)|
                && IndexBytes(index)[from..to] == IndexEntryBytes(index[i])
  {
    assert IndexBytes(index) == ToLE(|index|, 4) + Join(IndexEntryBytes, index) + [];
    JoinSlice(IndexEntryBytes, index, i, ToLE(|index|, 4), [], IndexBytes(index));
  }

  lemma IndexReads(index: seq<IndexEntry>, i: nat)
    requires i < |index| && IndexEntryFits(index[i])
    ensures ReadsAt(IndexReader(IndexBytes(index)), IndexEntryBytes, index, 4, i)
  {
    IndexSlice(index, i);
    ReadIndexEntryBack(IndexBytes(index), 4 + Offset(IndexEntryBytes, index, i), index[i]);
  }

  lemma IndexRoundTrip(index: seq<IndexEntry>)
    requires IndexFits(index)
    ensures ParseIndex(IndexBytes(index)) == Ok(index)
  {
    forall i | 0 <= i < |index|
      ensures ReadsAt(IndexReader(IndexBytes(index)), IndexEntryBytes, index, 4, i)
    {
      IndexReads(index, i);
    }
    ReadBack(IndexReader(IndexBytes(index)), IndexEntryBytes, index, 4);
    assert IndexBytes(index)[0..0 + 4] == ToLE(|index|, 4);
    U32AtToLE(IndexBytes(index), 0, |index|);
  }

  // ------------------------------------------------------------------ layout

  function DataBytes(blocks: seq<Block>): Bytes
  {
    Join(BlockBytes, blocks)
  }

  /** The index a writer keeps: first key, offset and size of each block. */
  function IndexOf(blocks: seq<Block>): (ix: seq<IndexEntry>)
    requires forall i :: 0 <= i < |blocks| ==> blocks[i] != []
    ensures |ix| == |blocks|
  {
    seq(|blocks|, i requires 0 <= i < |blocks| =>
      IndexEntry(blocks[i][0].key, Offset(BlockBytes, blocks, i), |BlockBytes(blocks[i])|))
  }

  function Flatten(blocks: seq<Block>): seq<Entry>
  {
    if blocks == [] then [] else blocks[0] + Flatten(blocks[1..])
  }

  predicate NoEmptyBlock(blocks: seq<Block>)
  {
    forall i :: 0 <= i < |blocks| ==> blocks[i] != []
  }

  function BloomBytes(bloom: Bloom): Bytes
  {
    ToLE(|bloom.bits|, 8) + AsBytes(bloom.bits)
  }

  function FooterOf(blocks: seq<Block>, bloom: Bloom): Footer
    requires NoEmptyBlock(blocks)
  {
    var data, index := |DataBytes(blocks)|, |IndexBytes(IndexOf(blocks))|;
    Footer(data, index, data + index, |BloomBytes(bloom)|, bloom.numHashes)
  }

  /** The whole file. */
  function Layout(blocks: seq<Block>, bloom: Bloom): Bytes
    requires NoEmptyBlock(blocks)
  {
    DataBytes(blocks) + IndexBytes(IndexOf(blocks)) + BloomBytes(bloom) + FooterBytes(FooterOf(blocks, bloom))
  }

  /** Lengths and counts survive their 32 and 64 bit fields. */
  predicate TableFits(blocks: seq<Block>, bloom: Bloom)
    requires NoEmptyBlock(blocks)
  {
    && (forall i :: 0 <= i < |blocks| ==> BlockFits(blocks[i]))
    && |blocks| <= U32_MAX && bloom.numHashes <= U32_MAX && |bloom.bits| <= U64_MAX
    && |Layout(blocks, bloom)| <= U64_MAX
  }

  // ------------------------------------------------------------------ reader

  datatype Reader = Reader(data: Bytes, index: seq<IndexEntry>, bloom: Bloom)

  function ParseBloom(data: Bytes, numHashes: nat): Result<Bloom, TableError>
  {
    if |data| < 8 then Err(Corrupted("bloom block too small"))
    else Ok(FromRaw(data[8..], numHashes, FromLE(data[0..8])))
  }

  function OpenWith(data: Bytes, f: Footer): Result<Reader, TableError>
  {
    if f.indexOffset + f.indexSize > |data| then Err(Corrupted("index extends past file"))
    else
      match ParseIndex(data[f.indexOffset..f.indexOffset + f.indexSize])
      case Err(e) => Err(e)
      case Ok(index) =>
        if f.bloomOffset + f.bloomSize > |data| then Err(Corrupted("bloom filter extends past file"))
        else
          match ParseBloom(data[f.bloomOffset..f.bloomOffset + f.bloomSize], f.numHashes)
          case Err(e) => Err(e)
          case Ok(bloom) => Ok(Reader(data, index, bloom))
  }

  function Open(data: Bytes): Result<Reader, TableError>
  {
    if |data| < FOOTER_SIZE then Err(Corrupted("SSTable too small"))
    else
      match ReadFooter(data[|data| - FOOTER_SIZE..])
      case Err(e) => Err(e)
      case Ok(f) => OpenWith(data, f)
  }

  lemma BloomBlockRoundTrip(bloom: Bloom)
    requires |bloom.bits| <= U64_MAX
    ensures ParseBloom(BloomBytes(bloom), bloom.numHashes) == Ok(bloom)
  {
    assert BloomBytes(bloom)[0..8] == ToLE(|bloom.bits|, 8) && BloomBytes(bloom)[8..] == AsBytes(bloom.bits);
    Widths();
    FromToLE(|bloom.bits|, 8);
    BloomRoundTrip(bloom);
  }

  lemma LayoutSlices(blocks: seq<Block>, bloom: Bloom)
    requires NoEmptyBlock(blocks)
    ensures var s, f := Layout(blocks, bloom), FooterOf(blocks, bloom);
            && |s| == f.bloomOffset + f.bloomSize + FOOTER_SIZE
            && s[f.indexOffset..f.indexOffset + f.indexSize] == IndexBytes(IndexOf(blocks))
            && s[f.bloomOffset..f.bloomOffset + f.bloomSize] == BloomBytes(bloom)
            && s[|s| - FOOTER_SIZE..] == FooterBytes(f)
  {
    var a, b, c, d := DataBytes(blocks), IndexBytes(IndexOf(blocks)), BloomBytes(bloom),
        FooterBytes(FooterOf(blocks, bloom));
    FourParts(a, b, c, d);
  }

  lemma FourParts(a: Bytes, b: Bytes, c: Bytes, d: Bytes)
    ensures var s := a + b + c + d;
            && s[|a|..|a| + |b|] == b && s[|a| + |b|..|a| + |b| + |c|] == c && s[|s| - |d|..] == d
  {
    Middle(a, b, c + d);
    assert a + b + c + d == a + b + (c + d);
    Middle(a + b, c, d);
  }

  lemma {:induction false} BlockWithin(blocks: seq<Block>, i: nat)
    requires i < |blocks|
    ensures Offset(BlockBytes, blocks, i) + |BlockBytes(blocks[i])| <= |DataBytes(blocks)|
  {
    JoinSplit(BlockBytes, blocks, i);
  }

  lemma IndexOfFits(blocks: seq<Block>, bloom: Bloom)
    requires NoEmptyBlock(blocks) && TableFits(blocks, bloom)
    ensures IndexFits(IndexOf(blocks)) && FooterFits(FooterOf(blocks, bloom))
  {
    LayoutSlices(blocks, bloom);
    forall i | 0 <= i < |blocks|
      ensures IndexEntryFits(IndexOf(blocks)[i])
    {
      BlockWithin(blocks, i);
      assert BlockFits(blocks[i]) && EntryFits(blocks[i][0]);
    }
  }

  /** Opening a written file gives back its index and its filter. */
  lemma OpenRoundTrip(blocks: seq<Block>, bloom: Bloom)
    requires NoEmptyBlock(blocks) && TableFits(blocks, bloom)
    ensures Open(Layout(blocks, bloom)) == Ok(Reader(Layout(blocks, bloom), IndexOf(blocks), bloom))
  {
    LayoutSlices(blocks, bloom);
    IndexOfFits(blocks, bloom);
    FooterRoundTrip(FooterOf(blocks, bloom));
    IndexRoundTrip(IndexOf(blocks));
    BloomBlockRoundTrip(bloom);
  }

  // ------------------------------------------------------- sizes of a layout

  lemma {:induction false} FlattenConcat(a: seq<Block>, b: seq<Block>)
    ensures Flatten(a + b) == Flatten(a) + Flatten(b)
  {
    if a == [] {
      assert a + b == b;
    } else {
      assert (a + b)[1..] == a[1..] + b;
      FlattenConcat(a[1..], b);
    }
  }

  lemma FlattenSplit(blocks: seq<Block>, i: nat)
    requires i < |blocks|
    ensures Flatten(blocks) == Flatten(blocks[..i]) + blocks[i] + Flatten(blocks[i + 1..])
  {
    assert blocks == blocks[..i] + blocks[i..];
    FlattenConcat(blocks[..i], blocks[i..]);
    assert blocks[i..][1..] == blocks[i + 1..];
    assert Flatten(blocks[i..]) == blocks[i] + Flatten(blocks[i + 1..]);
    var a, b, c := Flatten(blocks[..i]), blocks[i], Flatten(blocks[i + 1..]);
    assert a + (b + c) == a + b + c;
  }

  lemma {:induction false} DataSize(blocks: seq<Block>)
    requires NoEmptyBlock(blocks)
    ensures |DataBytes(blocks)| == |Join(EntryBytes, Flatten(blocks))| + 4 * |blocks|
    ensures |blocks| <= |Flatten(blocks)|
  {
    if blocks != [] {
      DataSize(blocks[1..]);
      JoinConcat(EntryBytes, blocks[0], Flatten(blocks[1..]));
    }
  }

  lemma {:induction false} EntriesSize(es: seq<Entry>)
    ensures 8 * |es| <= |Join(EntryBytes, es)|
  {
    if es != [] { EntriesSize(es[1..]); }
  }

  /** Bytes that the first keys of the blocks need in the index. */
  lemma {:induction false} IndexSize(blocks: seq<Block>, index: seq<IndexEntry>)
    requires NoEmptyBlock(blocks) && |index| == |blocks|
    requires forall i :: 0 <= i < |blocks| ==> index[i].firstKey == blocks[i][0].key
    ensures |Join(IndexEntryBytes, index)| <= 20 * |blocks| + |Join(EntryBytes, Flatten(blocks))|
  {
    if blocks != [] {
      IndexSize(blocks[1..], index[1..]);
      JoinConcat(EntryBytes, blocks[0], Flatten(blocks[1..]));
      assert |Join(EntryBytes, blocks[0])| >= |EntryBytes(blocks[0][0])|;
    }
  }

  lemma {:induction false} AsBytesSize(bits: seq<bool>)
    ensures |AsBytes(bits)| <= |bits|
    decreases |bits|
  {
    if |bits| > 8 { AsBytesSize(bits[8..]); }
  }

  const SIZE_LIMIT: nat := 0x1000_0000_0000_0000

  /** Entries whose lengths fit their fields and whose total stays far below the 64 bit offsets. */
  predicate EntriesFit(es: seq<Entry>)
  {
    AllFit(es) && |es| <= U32_MAX && |Join(EntryBytes, es)| <= SIZE_LIMIT
  }

  predicate BloomFits(bloom: Bloom)
  {
    |bloom.bits| <= SIZE_LIMIT && bloom.numHashes <= U32_MAX
  }

  lemma LayoutSize(blocks: seq<Block>, bloom: Bloom)
    requires NoEmptyBlock(blocks)
    ensures |Layout(blocks, bloom)| <= 5 * |Join(EntryBytes, Flatten(blocks))| + |bloom.bits| + 60
  {
    DataSize(blocks);
    EntriesSize(Flatten(blocks));
    IndexSize(blocks, IndexOf(blocks));
    AsBytesSize(bloom.bits);
  }

  lemma BlocksFit(blocks: seq<Block>, i: nat)
    requires AllFit(Flatten(blocks)) && |Flatten(blocks)| <= U32_MAX && i < |blocks|
    ensures BlockFits(blocks[i])
  {
    FlattenSplit(blocks, i);
    var n := |Flatten(blocks[..i])|;
    forall j | 0 <= j < |blocks[i]|
      ensures EntryFits(blocks[i][j])
    {
      assert blocks[i][j] == Flatten(blocks)[n + j];
    }
  }

  lemma FittingTable(blocks: seq<Block>, bloom: Bloom)
    requires NoEmptyBlock(blocks) && EntriesFit(Flatten(blocks)) && BloomFits(bloom)
    ensures TableFits(blocks, bloom)
  {
    LayoutSize(blocks, bloom);
    DataSize(blocks);
    forall i | 0 <= i < |blocks|
      ensures BlockFits(blocks[i])
    {
      BlocksFit(blocks, i);
    }
  }

  // ------------------------------------------------------------------ lookup

  /** The reader was opened on a file with these blocks. */
  ghost predicate Serves(r: Reader, blocks: seq<Block>)
  {
    && NoEmptyBlock(blocks) && r.index == IndexOf(blocks)
    && DataBytes(blocks) <= r.data
    && forall i :: 0 <= i < |blocks| ==> BlockFits(blocks[i])
  }

  /** The reader's table holds exactly the entries `es`, sorted, none hidden by the filter. */
  ghost predicate Holds(hash: Hasher, r: Reader, es: seq<Entry>)
  {
    Sorted(es) && Covers(hash, r.bloom, Keys(es)) && exists blocks :: Serves(r, blocks) && Flatten(blocks) == es
  }

  /** A file that a writer has finished. */
  ghost predicate IsTable(hash: Hasher, file: Bytes, es: seq<Entry>)
  {
    exists blocks, bloom ::
      && NoEmptyBlock(blocks) && TableFits(blocks, bloom) && file == Layout(blocks, bloom)
      && Flatten(blocks) == es && Covers(hash, bloom, Keys(es))
  }

  lemma StartsWith(a: Bytes, b: Bytes, c: Bytes, d: Bytes)
    ensures a <= a + b + c + d
  {
  }

  lemma OpenServes(blocks: seq<Block>, bloom: Bloom)
    requires NoEmptyBlock(blocks) && TableFits(blocks, bloom)
    ensures Serves(Reader(Layout(blocks, bloom), IndexOf(blocks), bloom), blocks)
  {
    StartsWith(DataBytes(blocks), IndexBytes(IndexOf(blocks)), BloomBytes(bloom), FooterBytes(FooterOf(blocks, bloom)));
  }

  /** Opening a finished file always succeeds and serves exactly what was written. */
  lemma OpenTable(hash: Hasher, file: Bytes, es: seq<Entry>)
    requires IsTable(hash, file, es) && Sorted(es)
    ensures Open(file).Ok? && Holds(hash, Open(file).value, es)
  {
    var blocks, bloom :|
      && NoEmptyBlock(blocks) && TableFits(blocks, bloom) && file == Layout(blocks, bloom)
      && Flatten(blocks) == es && Covers(hash, bloom, Keys(es));
    OpenRoundTrip(blocks, bloom);
    OpenServes(blocks, bloom);
  }

  lemma BlockSlice(r: Reader, blocks: seq<Block>, i: nat)
    requires Serves(r, blocks) && i < |blocks|
    ensures var e := r.index[i];
            e.offset + e.size <= |r.data| && r.data[e.offset..e.offset + e.size] == BlockBytes(blocks[i])
  {
    var rest := r.data[|DataBytes(blocks)|..];
    assert r.data == [] + Join(BlockBytes, blocks) + rest;
    JoinSlice(BlockBytes, blocks, i, [], rest, r.data);
  }

  lemma SortedParts(a: seq<Entry>, b: seq<Entry>, c: seq<Entry>, i: nat, j: nat)
    requires Sorted(a + b + c)
    ensures Sorted(b)
    ensures i < |a| && j < |b| ==> Lt(a[i].key, b[j].key)
    ensures i < |b| && j < |c| ==> Lt(b[i].key, c[j].key)
  {
    var s := a + b + c;
    assert forall k :: 0 <= k < |b| ==> s[|a| + k] == b[k];
    if i < |a| && j < |b| { assert s[i] == a[i] && s[|a| + j] == b[j]; }
    if i < |b| && j < |c| { assert s[|a| + i] == b[i] && s[|a| + |b| + j] == c[j]; }
  }

  lemma SortedTail(a: seq<Entry>, b: seq<Entry>)
    requires Sorted(a + b)
    ensures Sorted(b)
  {
    assert forall k :: 0 <= k < |b| ==> (a + b)[|a| + k] == b[k];
  }

  lemma NotBefore(a: seq<Entry>, b: seq<Entry>, c: seq<Entry>, key: Bytes)
    requires Sorted(a + b + c) && b != [] && Le(b[0].key, key)
    ensures Find(a, key) == None
  {
    forall i | 0 <= i < |a|
      ensures Lt(a[i].key, key)
    {
      SortedParts(a, b, c, i, 0);
      if b[0].key != key { LtTransitive(a[i].key, b[0].key, key); }
    }
    FindNone(a, key, |a|);
  }

  lemma NotAfter(c: seq<Entry>, key: Bytes)
    requires Sorted(c) && (c != [] ==> Lt(key, c[0].key))
    ensures Find(c, key) == None
  {
    forall i | 0 <= i < |c|
      ensures Lt(key, c[i].key)
    {
      if i > 0 { LtTransitive(key, c[0].key, c[i].key); }
    }
    FindNone(c, key, 0);
  }

  /** Only block `i` can hold a key that lies between its first key and the next one's. */
  lemma FindInBlock(blocks: seq<Block>, i: nat, key: Bytes)
    requires NoEmptyBlock(blocks) && Sorted(Flatten(blocks)) && i < |blocks|
    requires i > 0 ==> Le(blocks[i][0].key, key)
    requires i + 1 < |blocks| ==> Lt(key, blocks[i + 1][0].key)
    ensures Sorted(blocks[i]) && Find(Flatten(blocks), key) == Find(blocks[i], key)
  {
    var a, b, c := Flatten(blocks[..i]), blocks[i], Flatten(blocks[i + 1..]);
    FlattenSplit(blocks, i);
    SortedParts(a, b, c, 0, 0);
    FindConcat(a + b, c, key);
    FindConcat(a, b, key);
    if i > 0 { NotBefore(a, b, c, key); }
    if i + 1 < |blocks| { assert c[0] == blocks[i + 1][0]; }
    SortedTail(a + b, c);
    NotAfter(c, key);
  }

  function FirstKeys(index: seq<IndexEntry>): (keys: seq<Bytes>)
    ensures |keys| == |index| && forall i :: 0 <= i < |index| ==> keys[i] == index[i].firstKey
  {
    seq(|index|, (i: int) requires 0 <= i < |index| => index[i].firstKey)
  }

  lemma FirstKeysSorted(blocks: seq<Block>)
    requires NoEmptyBlock(blocks) && Sorted(Flatten(blocks))
    ensures SortedKeys(FirstKeys(IndexOf(blocks)))
  {
    forall i, j | 0 <= i < j < |blocks|
      ensures Lt(blocks[i][0].key, blocks[j][0].key)
    {
      FlattenSplit(blocks, j);
      FlattenSplit(blocks[..j], i);
      var a := Flatten(blocks[..j]);
      assert a[|Flatten(blocks[..j][..i])|] == blocks[i][0];
      SortedParts(a, blocks[j], Flatten(blocks[j + 1..]), |Flatten(blocks[..j][..i])|, 0);
    }
  }

  /** `find_block`: the last block whose first key is at most the key, or the first block. */
  method FindBlock(index: seq<IndexEntry>, key: Bytes) returns (i: nat)
    requires SortedKeys(FirstKeys(index))
    ensures index == [] ==> i == 0
    ensures index != [] ==> i < |index|
    ensures 0 < i < |index| ==> Le(index[i].firstKey, key)
    ensures i + 1 < |index| ==> Lt(key, index[i + 1].firstKey)
  {
    var keys := FirstKeys(index);
    var p := BinarySearch(keys, key);
    match p {
      case Found(k) =>
        i := k;
        if k + 1 < |index| { assert Lt(keys[k], keys[k + 1]); }
      case Missing(n) =>
        i := if n == 0 then 0 else n - 1;
        if n > 0 { assert Lt(keys[n - 1], key); }
        if i + 1 < |index| { assert Lt(key, keys[i + 1]); }
    }
  }

  function EntryKeys(es: seq<Entry>): (keys: seq<Bytes>)
    ensures |keys| == |es| && forall i :: 0 <= i < |es| ==> keys[i] == es[i].key
  {
    seq(|es|, (i: int) requires 0 <= i < |es| => es[i].key)
  }

  method SearchBlock(es: seq<Entry>, key: Bytes) returns (r: Option<Slot>)
    requires Sorted(es)
    ensures r == Find(es, key)
  {
    var keys := EntryKeys(es);
    var p := BinarySearch(keys, key);
    match p {
      case Found(i) =>
        FindAt(es, i);
        r := Some(es[i].value);
      case Missing(n) =>
        forall i | 0 <= i < n ensures Lt(es[i].key, key) { assert Lt(keys[i], key); }
        forall i | n <= i < |es| ensures Lt(key, es[i].key) { assert Lt(key, keys[i]); }
        FindNone(es, key, n);
        r := None;
    }
  }

  method ProbeFilter(hash: Hasher, bloom: Bloom, key: Bytes) returns (hit: bool)
    requires |bloom.bits| > 0
    ensures hit <==> MayContain(hash, bloom, key)
  {
    var h := hash(key);
    for i := 0 to bloom.numHashes
      invariant forall j: nat :: j < i ==> bloom.bits[Index(h, j, |bloom.bits|)]
    {
      if !bloom.bits[Index(h, i, |bloom.bits|)] { return false; }
    }
    hit := true;
  }

  method SearchIn(block: Result<seq<Entry>, TableError>, key: Bytes) returns (res: Result<Option<Slot>, TableError>)
    requires block.Ok? ==> Sorted(block.value)
    ensures block.Ok? ==> res == Ok(Find(block.value, key))
    ensures block.Err? ==> res == Err(block.error)
  {
    match block {
      case Err(e) => res := Err(e);
      case Ok(es) =>
        var slot := SearchBlock(es, key);
        res := Ok(slot);
    }
  }

  /** The entries of one block, as the index locates it. */
  function BlockAt(r: Reader, i: nat): Result<seq<Entry>, TableError>
    requires InBounds(r) && i < |r.index|
  {
    ReadEntries(r.data[r.index[i].offset..r.index[i].offset + r.index[i].size])
  }

  /** The index points into the file; the reader relies on it. */
  predicate InBounds(r: Reader)
  {
    forall i :: 0 <= i < |r.index| ==> r.index[i].offset + r.index[i].size <= |r.data|
  }

  lemma ServesInBounds(r: Reader, blocks: seq<Block>)
    requires Serves(r, blocks)
    ensures InBounds(r)
  {
    forall k | 0 <= k < |blocks|
      ensures r.index[k].offset + r.index[k].size <= |r.data|
    {
      BlockSlice(r, blocks, k);
    }
  }

  lemma BlockReads(r: Reader, i: nat, block: Block)
    requires InBounds(r) && i < |r.index| && BlockFits(block)
    requires r.data[r.index[i].offset..r.index[i].offset + r.index[i].size] == BlockBytes(block)
    ensures BlockAt(r, i) == Ok(block)
  {
    BlockRoundTrip(block);
  }

  lemma ServesBlock(r: Reader, blocks: seq<Block>, i: nat)
    requires Serves(r, blocks) && i < |blocks| && InBounds(r)
    ensures BlockAt(r, i) == Ok(blocks[i])
  {
    BlockSlice(r, blocks, i);
    BlockReads(r, i, blocks[i]);
  }

  method ReadBlockAt(r: Reader, i: nat) returns (res: Result<seq<Entry>, TableError>)
    requires InBounds(r) && i < |r.index|
    ensures res == BlockAt(r, i)
  {
    res := ReadBlock(r.data[r.index[i].offset..r.index[i].offset + r.index[i].size]);
  }

  lemma IndexSorted(hash: Hasher, r: Reader, es: seq<Entry>)
    requires Holds(hash, r, es)
    ensures SortedKeys(FirstKeys(r.index)) && InBounds(r) && (r.index == [] ==> es == [])
  {
    var blocks :| Serves(r, blocks) && Flatten(blocks) == es;
    FirstKeysSorted(blocks);
    ServesInBounds(r, blocks);
  }

  lemma RightBlock(hash: Hasher, r: Reader, es: seq<Entry>, key: Bytes, i: nat)
    requires Holds(hash, r, es) && InBounds(r) && i < |r.index|
    requires i > 0 ==> Le(r.index[i].firstKey, key)
    requires i + 1 < |r.index| ==> Lt(key, r.index[i + 1].firstKey)
    ensures BlockAt(r, i).Ok? && Sorted(BlockAt(r, i).value) && Find(es, key) == Find(BlockAt(r, i).value, key)
  {
    var blocks :| Serves(r, blocks) && Flatten(blocks) == es;
    ServesBlock(r, blocks, i);
    FindInBlock(blocks, i, key);
  }

  lemma NotHidden(hash: Hasher, r: Reader, es: seq<Entry>, key: Bytes)
    requires Holds(hash, r, es) && !MayContain(hash, r.bloom, key)
    ensures Find(es, key) == None
  {
  }

  /** Point lookup through filter, index and block equals lookup in the entries written. */
  method Get(hash: Hasher, r: Reader, key: Bytes, ghost es: seq<Entry>) returns (res: Result<Option<Slot>, TableError>)
    requires Holds(hash, r, es)
    ensures res == Ok(Find(es, key))
  {
    var hit := ProbeFilter(hash, r.bloom, key);
    if !hit {
      NotHidden(hash, r, es, key);
      return Ok(None);
    }
    IndexSorted(hash, r, es);
    var i := FindBlock(r.index, key);
    if i >= |r.index| { return Ok(None); }
    RightBlock(hash, r, es, key, i);
    var block := ReadBlockAt(r, i);
    res := SearchIn(block, key);
  }

  function AllFrom(r: Reader, i: nat): Result<seq<Entry>, TableError>
    requires InBounds(r) && i <= |r.index|
    decreases |r.index| - i
  {
    if i == |r.index| then Ok([])
    else
      match BlockAt(r, i)
      case Err(e) => Err(e)
      case Ok(es) => Prepend(es, AllFrom(r, i + 1))
  }

  lemma PrependMore(done: seq<Entry>, es: seq<Entry>, r: Result<seq<Entry>, TableError>)
    ensures Prepend(done, Prepend(es, r)) == Prepend(done + es, r)
  {
    if r.Ok? { assert done + (es + r.value) == done + es + r.value; }
  }

  /** `iter`: all blocks in turn, stopping at the first damaged one. */
  method Iter(r: Reader) returns (res: Result<seq<Entry>, TableError>)
    requires InBounds(r)
    ensures res == AllFrom(r, 0)
  {
    var all: seq<Entry> := [];
    PrependNone(AllFrom(r, 0));
    for i := 0 to |r.index|
      invariant Prepend(all, AllFrom(r, i)) == AllFrom(r, 0)
    {
      var block := ReadBlockAt(r, i);
      match block {
        case Err(e) =>
          return Err(e);
        case Ok(es) =>
          PrependMore(all, es, AllFrom(r, i + 1));
          all := all + es;
      }
    }
    assert all + [] == all;
    res := Ok(all);
  }

  lemma {:induction false} AllFromBlocks(r: Reader, blocks: seq<Block>, i: nat)
    requires Serves(r, blocks) && InBounds(r) && i <= |blocks|
    ensures AllFrom(r, i) == Ok(Flatten(blocks[i..]))
    decreases |blocks| - i
  {
    if i < |blocks| {
      ServesBlock(r, blocks, i);
      AllFromBlocks(r, blocks, i + 1);
      assert blocks[i..][1..] == blocks[i + 1..];
    }
  }

  /** On a finished table, iteration yields exactly the entries written, in key order. */
  lemma IterIsAll(hash: Hasher, r: Reader, es: seq<Entry>)
    requires Holds(hash, r, es)
    ensures InBounds(r) && AllFrom(r, 0) == Ok(es)
  {
    var blocks :| Serves(r, blocks) && Flatten(blocks) == es;
    ServesInBounds(r, blocks);
    AllFromBlocks(r, blocks, 0);
    assert blocks[0..] == blocks;
  }

  function Between(es: seq<Entry>, start: Bytes, end: Bytes): seq<Entry>
  {
    if es == [] then []
    else (if InRange(es[0].key, start, end) then [es[0]] else []) + Between(es[1..], start, end)
  }

  lemma {:induction false} BetweenOneMore(es: seq<Entry>, e: Entry, start: Bytes, end: Bytes)
    ensures Between(es + [e], start, end) == Between(es, start, end) + if InRange(e.key, start, end) then [e] else []
  {
    if es == [] {
      assert es + [e] == [e];
    } else {
      assert (es + [e])[1..] == es[1..] + [e];
      BetweenOneMore(es[1..], e, start, end);
    }
  }

  lemma {:induction false} NothingPast(es: seq<Entry>, i: nat, start: Bytes, end: Bytes)
    requires Sorted(es) && i < |es| && Le(end, es[i].key)
    ensures Between(es, start, end) == Between(es[..i], start, end)
    decreases |es|
  {
    var last := |es| - 1;
    if i < last {
      LtTransitiveLe(end, es[i].key, es[last].key);
      NothingPast(es[..last], i, start, end);
      assert es[..last][..i] == es[..i];
    }
    assert es == es[..last] + [es[last]];
    BetweenOneMore(es[..last], es[last], start, end);
    assert !Lt(es[last].key, end) by {
      if Lt(es[last].key, end) { LtAsymmetric(es[last].key, end); }
    }
  }

  lemma LtTransitiveLe(a: Bytes, b: Bytes, c: Bytes)
    requires Le(a, b) && Lt(b, c)
    ensures Lt(a, c)
  {
    if a != b { LtTransitive(a, b, c); }
  }

  /** The scanning loop, with its early exit. */
  function TakeRange(es: seq<Entry>, start: Bytes, end: Bytes): seq<Entry>
  {
    if es == [] then []
    else if InRange(es[0].key, start, end) then [es[0]] + TakeRange(es[1..], start, end)
    else if Le(end, es[0].key) then []
    else TakeRange(es[1..], start, end)
  }

  /** On sorted entries the early exit loses nothing. */
  lemma {:induction false} TakeRangeIsBetween(es: seq<Entry>, start: Bytes, end: Bytes)
    requires Sorted(es)
    ensures TakeRange(es, start, end) == Between(es, start, end)
  {
    if es != [] {
      TakeRangeIsBetween(es[1..], start, end);
      if Le(end, es[0].key) { NothingPast(es, 0, start, end); }
    }
  }

  method Scan(r: Reader, start: Bytes, end: Bytes) returns (res: Result<seq<Entry>, TableError>)
    requires InBounds(r)
    ensures AllFrom(r, 0).Ok? ==> res == Ok(TakeRange(AllFrom(r, 0).value, start, end))
    ensures AllFrom(r, 0).Err? ==> res == Err(AllFrom(r, 0).error)
  {
    var all := Iter(r);
    match all {
      case Err(e) =>
        res := Err(e);
      case Ok(es) =>
        var found := ScanEntries(es, start, end);
        res := Ok(found);
    }
  }

  method ScanEntries(es: seq<Entry>, start: Bytes, end: Bytes) returns (found: seq<Entry>)
    ensures found == TakeRange(es, start, end)
  {
    found := [];
    assert es[0..] == es;
    for i := 0 to |es|
      invariant TakeRange(es, start, end) == found + TakeRange(es[i..], start, end)
    {
      assert es[i..][1..] == es[i + 1..];
      if Le(start, es[i].key) && Lt(es[i].key, end) {
        found := found + [es[i]];
      } else if Le(end, es[i].key) {
        return;
      }
    }
  }
}
