/** The table writer: entries go into blocks, blocks into the file, keys into the filter. */
module TableWriters {
  import opened Bytes
  import opened Entries
  import opened Framing
  import opened Blooms
  import opened Blocks
  import opened SSTables

  lemma IndexOneMore(blocks: seq<Block>, b: Block)
    requires NoEmptyBlock(blocks) && b != []
    ensures NoEmptyBlock(blocks + [b])
    ensures IndexOf(blocks + [b]) == IndexOf(blocks) + [IndexEntry(b[0].key, |DataBytes(blocks)|, |BlockBytes(b)|)]
    ensures DataBytes(blocks + [b]) == DataBytes(blocks) + BlockBytes(b)
    ensures Flatten(blocks + [b]) == Flatten(blocks) + b
  {
    var more := blocks + [b];
    JoinOneMore(BlockBytes, blocks, b);
    FlattenConcat(blocks, [b]);
    assert Flatten([b]) == b + [];
    forall i | 0 <= i < |blocks|
      ensures Offset(BlockBytes, more, i) == Offset(BlockBytes, blocks, i)
    {
      assert more[..i] == blocks[..i];
    }
    assert more[..|blocks|] == blocks;
  }

  lemma KeysOneMore(es: seq<Entry>, e: Entry)
    ensures Keys(es + [e]) == Keys(es) + {e.key}
  {
    KeysConcat(es, [e]);
    assert Keys([e]) == {e.key} by { assert [e][0].key == e.key; }
  }

  method BuildIndex(index: seq<IndexEntry>) returns (buf: Bytes)
    ensures buf == IndexBytes(index)
  {
    buf := ToLE(|index|, 4);
    assert index[..0] == [];
    for i := 0 to |index|
      invariant buf == ToLE(|index|, 4) + Join(IndexEntryBytes, index[..i])
    {
      assert index[..i + 1] == index[..i] + [index[i]];
      JoinOneMore(IndexEntryBytes, index[..i], index[i]);
      buf := buf + IndexEntryBytes(index[i]);
    }
    assert index[..|index|] == index;
  }

  /** Data, index, filter and footer, in that order. */
  method Assemble(data: Bytes, index: seq<IndexEntry>, bloom: Bloom, ghost blocks: seq<Block>) returns (file: Bytes)
    requires NoEmptyBlock(blocks) && data == DataBytes(blocks) && index == IndexOf(blocks)
    ensures file == Layout(blocks, bloom)
  {
    var indexOffset := |data|;
    var indexData := BuildIndex(index);
    var bloomData := ToLE(|bloom.bits|, 8) + AsBytes(bloom.bits);
    var footer := Footer(indexOffset, |indexData|, indexOffset + |indexData|, |bloomData|, bloom.numHashes);
    file := data + indexData + bloomData + FooterBytes(footer);
  }

  lemma Finished(hash: Hasher, blocks: seq<Block>, bloom: Bloom)
    requires NoEmptyBlock(blocks) && EntriesFit(Flatten(blocks)) && BloomFits(bloom)
             && Covers(hash, bloom, Keys(Flatten(blocks)))
    ensures IsTable(hash, Layout(blocks, bloom), Flatten(blocks))
  {
    FittingTable(blocks, bloom);
  }

  // ------------------------------------------------------------------- packing

  /** A block takes entries until it has reached the size, and then no more. */
  predicate Fits(b: Block, blockSize: nat)
  {
    b != [] && (|b| > 1 ==> |BlockBytes(b[..|b| - 1])| < blockSize)
  }

  predicate Full(b: Block, blockSize: nat)
  {
    Fits(b, blockSize) && |BlockBytes(b)| >= blockSize
  }

  /** Every block is closed as soon as it has reached the size; only the last one may be smaller. */
  predicate WellPacked(blocks: seq<Block>, blockSize: nat)
  {
    && (forall i :: 0 <= i < |blocks| ==> Fits(blocks[i], blockSize))
    && (forall i :: 0 <= i < |blocks| - 1 ==> Full(blocks[i], blockSize))
  }

  /** The file starts with the data and index of the entries packed into blocks of the size. */
  ghost predicate PackedFile(file: Bytes, entries: seq<Entry>, blockSize: nat)
  {
    exists bs :: IsPacking(bs, entries, blockSize) && DataBytes(bs) + IndexBytes(IndexOf(bs)) <= file
  }

  predicate IsPacking(blocks: seq<Block>, entries: seq<Entry>, blockSize: nat)
  {
    NoEmptyBlock(blocks) && WellPacked(blocks, blockSize) && Flatten(blocks) == entries
  }

  lemma LongerBlock(b: Block, n: nat)
    requires n <= |b|
    ensures |BlockBytes(b[..n])| <= |BlockBytes(b)|
  {
    if n < |b| { JoinSplit(EntryBytes, b, n); } else { assert b[..n] == b; }
  }

  /** Of two beginnings of the same entries that are packed alike neither is longer. */
  lemma SameFirstBlock(a: Block, b: Block, restA: seq<Entry>, restB: seq<Entry>, blockSize: nat)
    requires a + restA == b + restB && Fits(a, blockSize) && Fits(b, blockSize)
    requires restA != [] ==> Full(a, blockSize)
    requires restB != [] ==> Full(b, blockSize)
    ensures a == b && restA == restB
  {
    if |a| < |b| {
      assert a == (b + restB)[..|a|] == b[..|a|];
      assert restA != [];
      assert b[..|b| - 1][..|a|] == a;
      LongerBlock(b[..|b| - 1], |a|);
    } else if |b| < |a| {
      assert b == (a + restA)[..|b|] == a[..|b|];
      assert restB != [];
      assert a[..|a| - 1][..|b|] == b;
      LongerBlock(a[..|a| - 1], |b|);
    } else {
      assert a == (b + restB)[..|a|] == b;
      assert restA == (a + restA)[|a|..] == (b + restB)[|b|..] == restB;
    }
  }

  lemma RestIsEmpty(blocks: seq<Block>)
    requires NoEmptyBlock(blocks)
    ensures Flatten(blocks) == [] <==> blocks == []
  {
  }

  /** The entries and the block size determine the blocks, hence the data and the index of the file. */
  lemma {:induction false} PackingIsUnique(a: seq<Block>, b: seq<Block>, blockSize: nat)
    requires WellPacked(a, blockSize) && WellPacked(b, blockSize) && Flatten(a) == Flatten(b)
    ensures a == b
    decreases |a|
  {
    RestIsEmpty(a);
    RestIsEmpty(b);
    if a != [] {
      RestIsEmpty(a[1..]);
      RestIsEmpty(b[1..]);
      SameFirstBlock(a[0], b[0], Flatten(a[1..]), Flatten(b[1..]), blockSize);
      PackingIsUnique(a[1..], b[1..], blockSize);
    }
  }

  class SSTableWriter {
    const hash: Hasher
    const blockSize: nat
    const bloom: BloomFilter
    var current: BlockBuilder
    var index: seq<IndexEntry>
    var data: Bytes
    var entryCount: nat
    ghost var blocks: seq<Block>

    /** Everything added so far, in order. */
    ghost function Added(): seq<Entry>
      reads this, current
    {
      Flatten(blocks) + current.entries
    }

    /** Closed blocks are full, the open one is not. */
    ghost predicate Valid()
      reads this, current, bloom
    {
      && Consistent()
      && (forall i :: 0 <= i < |blocks| ==> Full(blocks[i], blockSize))
      && (current.entries != [] ==> current.size < blockSize)
    }

    ghost predicate Consistent()
      reads this, current, bloom
    {
      && current.Valid() && bloom.Valid() && bloom.hash == hash
      && NoEmptyBlock(blocks) && data == DataBytes(blocks) && index == IndexOf(blocks)
      && entryCount == |Added()|
      && Covers(hash, bloom.Value(), Keys(Added()))
    }

    /** `numBits` and `numHashes` come from the sizing formula of the filter. */
    constructor (hash: Hasher, blockSize: nat, numBits: nat, numHashes: nat)
      requires numBits >= 8 && numHashes >= 1
      ensures Valid() && Added() == [] && fresh(current) && fresh(bloom)
      ensures this.hash == hash && this.blockSize == blockSize
      ensures |bloom.bits| == numBits && bloom.numHashes == numHashes
    {
      this.hash, this.blockSize := hash, blockSize;
      bloom := new BloomFilter(hash, numBits, numHashes);
      current := new BlockBuilder();
      index, data, entryCount, blocks := [], [], 0, [];
    }

    method Add(key: Bytes, value: Slot)
      requires Valid()
      modifies this, current, bloom
      ensures Valid() && (current == old(current) || fresh(current))
      ensures Added() == old(Added()) + [Entry(key, value)]
      ensures |bloom.bits| == old(|bloom.bits|)
    {
      hide BlockBytes, DataBytes, IndexOf, Flatten, Covers, Inserted, Keys, NoEmptyBlock;
      ghost var was, open := Added(), current.entries;
      ghost var b := bloom.Value();
      bloom.Insert(key);
      InsertCovers(hash, b, Keys(was), key, bloom.Value());
      current.Add(key, value);
      entryCount := entryCount + 1;
      assert Added() == was + [Entry(key, value)];
      KeysOneMore(was, Entry(key, value));
      assert current.entries[..|current.entries| - 1] == open;
      if current.size >= blockSize {
        FlushBlock();
      }
    }

    method FlushBlock()
      requires Consistent() && current.entries != []
      modifies this
      ensures Consistent() && Added() == old(Added()) && fresh(current) && current.entries == []
      ensures blocks == old(blocks) + [old(current.entries)]
    {
      ghost var was := Added();
      var firstKey := current.entries[0].key;
      var blockData := current.Build();
      var offset, size := |data|, |blockData|;
      IndexOneMore(blocks, current.entries);
      data := data + blockData;
      index := index + [IndexEntry(firstKey, offset, size)];
      blocks := blocks + [current.entries];
      current := new BlockBuilder();
      assert Added() == was;
    }

    /** The finished file is a table that holds exactly the entries added, packed into blocks. */
    method Finish() returns (file: Bytes, ghost packed: seq<Block>)
      requires Valid() && EntriesFit(Added()) && BloomFits(bloom.Value())
      modifies this
      ensures IsTable(hash, file, old(Added()))
      ensures WellPacked(packed, blockSize) && Flatten(packed) == old(Added())
      ensures NoEmptyBlock(packed) && file == Layout(packed, bloom.Value())
    {
      hide BlockBytes, DataBytes, IndexOf, Covers, Keys, NoEmptyBlock, Layout, IsTable, EntriesFit, BloomFits;
      ghost var es := Added();
      if current.entries != [] {
        LongerBlock(current.entries, |current.entries| - 1);
        FlushBlock();
      }
      packed := blocks;
      assert Flatten(blocks) == es;
      file := Assemble(data, index, bloom.Value(), blocks);
      Finished(hash, blocks, bloom.Value());
    }
  }

  /** Write a whole run, as a flush and a compaction do. */
  method WriteTable(hash: Hasher, blockSize: nat, numBits: nat, numHashes: nat, entries: seq<Entry>)
      returns (file: Bytes)
    requires 8 <= numBits <= SIZE_LIMIT && 1 <= numHashes <= U32_MAX && EntriesFit(entries)
    ensures IsTable(hash, file, entries)
    ensures PackedFile(file, entries, blockSize)
  {
    var writer := new SSTableWriter(hash, blockSize, numBits, numHashes);
    for i := 0 to |entries|
      invariant fresh(writer) && fresh(writer.current) && fresh(writer.bloom) && writer.Valid()
      invariant writer.Added() == entries[..i] && |writer.bloom.bits| == numBits && writer.blockSize == blockSize
    {
      assert entries[..i + 1] == entries[..i] + [entries[i]];
      writer.Add(entries[i].key, entries[i].value);
    }
    assert entries[..|entries|] == entries;
    ghost var packed: seq<Block>;
    file, packed := writer.Finish();
    assert IsPacking(packed, entries, blockSize);
  }
}
