/**
 `LsmTree` as the object the source updates: memtables, manifest, reader cache and files. Its
 methods are proved against the value model, so they refine a plain map.
 */
module LsmTrees {
  import opened Common
  import opened Bytes
  import opened Entries
  import opened Blooms
  import opened SSTables
  import opened TableWriters
  import opened MemTables
  import opened Wals
  import opened WalOps
  import opened TornLogs
  import opened Levels
  import opened Manifests
  import opened Compactions
  import opened LevelCompaction
  import opened Lsm
  import opened LsmDisk
  import opened LsmCache

  function Clamp(x: nat, lo: nat, hi: nat): nat
  {
    if x < lo then lo else if x > hi then hi else x
  }

  /** The filter's sizing formula is floating point; only its bounds matter. */
  function Sized(sizing: nat -> (nat, nat), n: nat): (nat, nat)
  {
    (Clamp(sizing(n).0, 8, SIZE_LIMIT), Clamp(sizing(n).1, 1, U32_MAX))
  }

  /** A finished table file. */
  ghost predicate GoodFile(hash: Hasher, file: Bytes)
  {
    Sorted(DecodedFile(file)) && IsTable(hash, file, DecodedFile(file))
  }

  ghost predicate GoodFiles(hash: Hasher, ms: set<Meta>, tables: map<nat, Bytes>)
  {
    forall m :: m in ms ==> m.id in tables && GoodFile(hash, tables[m.id])
  }

  lemma TableIsGood(hash: Hasher, file: Bytes, es: seq<Entry>)
    requires IsTable(hash, file, es) && Sorted(es)
    ensures GoodFile(hash, file) && DecodedFile(file) == es && Open(file).Ok? && Holds(hash, Open(file).value, es)
  {
    DecodeTable(hash, file, es);
    OpenTable(hash, file, es);
  }

  lemma GoodFileOpens(hash: Hasher, file: Bytes)
    requires GoodFile(hash, file)
    ensures Open(file).Ok? && Holds(hash, Open(file).value, DecodedFile(file)) && InBounds(Open(file).value)
    ensures AllFrom(Open(file).value, 0) == Ok(DecodedFile(file))
  {
    OpenTable(hash, file, DecodedFile(file));
    IterIsAll(hash, Open(file).value, DecodedFile(file));
  }

  // ------------------------------------------------------------- opening readers

  function AllMetas(levels: LevelList): seq<Meta>
  {
    if levels == [] then [] else levels[0] + AllMetas(levels[1..])
  }

  lemma {:induction false} AllMetasExactly(levels: LevelList, m: Meta)
    ensures m in AllMetas(levels) <==> m in Metas(levels)
  {
    if levels != [] {
      AllMetasExactly(levels[1..], m);
      if m in Metas(levels) {
        var l :| 0 <= l < |levels| && m in levels[l];
        if l > 0 { assert m in levels[1..][l - 1]; }
      }
      if m in Metas(levels[1..]) {
        var l :| 0 <= l < |levels[1..]| && m in levels[1..][l];
        assert m in levels[l + 1];
      }
      if m in levels[0] { assert m in Metas(levels); }
    }
  }

  /** No table is listed twice, in any level. */
  ghost predicate ListedOnce(levels: LevelList)
  {
    && (forall l :: 0 <= l < |levels| ==> NoRepeats(levels[l]))
    && (forall l, j, m :: 0 <= l < j < |levels| && m in levels[l] ==> m !in levels[j])
  }

  lemma {:induction false} AllMetasNoRepeats(levels: LevelList)
    requires ListedOnce(levels)
    ensures NoRepeats(AllMetas(levels))
  {
    if levels != [] {
      assert ListedOnce(levels[1..]) by {
        forall l, j, m | 0 <= l < j < |levels[1..]| && m in levels[1..][l] ensures m !in levels[1..][j] {
          assert m in levels[l + 1] && m !in levels[j + 1];
        }
      }
      AllMetasNoRepeats(levels[1..]);
      forall m | m in levels[0] ensures m !in AllMetas(levels[1..]) {
        AllMetasExactly(levels[1..], m);
        forall l | 0 <= l < |levels[1..]| ensures m !in levels[1..][l] { assert m !in levels[l + 1]; }
      }
      JoinedNoRepeats(levels[0], AllMetas(levels[1..]));
    }
  }

  lemma JoinedNoRepeats(a: seq<Meta>, b: seq<Meta>)
    requires NoRepeats(a) && NoRepeats(b) && forall m :: m in a ==> m !in b
    ensures NoRepeats(a + b)
  {
    forall i, j | 0 <= i < j < |a + b| ensures (a + b)[i] != (a + b)[j] {
      if i < |a| && j >= |a| { assert a[i] in a && b[j - |a|] in b; }
    }
  }

  lemma PlacedListedOnce(s: Shelf)
    requires ShelfInv(s)
    ensures ListedOnce(s.levels)
  {
    forall l, j, m | 0 <= l < j < |s.levels| && m in s.levels[l] ensures m !in s.levels[j] {
      assert m.level == l;
      assert m in s.levels[j] ==> m.level == j;
    }
  }

  /** Open every listed table whose file exists. */
  method OpenTables(tables: map<nat, Bytes>, levels: LevelList) returns (r: Result<seq<Cached>, Blocks.TableError>)
    ensures r.Err? ==> exists m :: m in Metas(levels) && m.id in tables && Open(tables[m.id]).Err?
    ensures r.Ok? ==> IsOpened(tables, AllMetas(levels), r.value)
  {
    var cache: seq<Cached> := [];
    var ms := AllMetas(levels);
    assert ms[..0] == [];
    for i := 0 to |ms|
      invariant IsOpened(tables, ms[..i], cache)
    {
      assert ms[..i + 1] == ms[..i] + [ms[i]];
      AllMetasExactly(levels, ms[i]);
      if ms[i].id in tables {
        match Open(tables[ms[i].id]) {
          case Err(e) =>
            return Err(e);
          case Ok(reader) =>
            cache := cache + [(ms[i], reader)];
        }
      }
    }
    assert ms[..|ms|] == ms;
    r := Ok(cache);
  }

  /** The readers of the listed tables that have a file, in order. */
  ghost predicate IsOpened(tables: map<nat, Bytes>, ms: seq<Meta>, cache: seq<Cached>)
    decreases |ms|
  {
    if ms == [] then cache == []
    else
      var last := ms[|ms| - 1];
      if last.id in tables then
        && cache != [] && IsOpened(tables, ms[..|ms| - 1], cache[..|cache| - 1])
        && Open(tables[last.id]) == Ok(cache[|cache| - 1].1) && cache[|cache| - 1].0 == last
      else IsOpened(tables, ms[..|ms| - 1], cache)
  }

  lemma {:induction false} OpenedOne(tables: map<nat, Bytes>, ms: seq<Meta>, cache: seq<Cached>, i: nat)
    requires IsOpened(tables, ms, cache) && i < |cache|
    ensures cache[i].0 in ms && cache[i].0.id in tables && Open(tables[cache[i].0.id]) == Ok(cache[i].1)
    decreases |ms|
  {
    var last := ms[|ms| - 1];
    if last.id !in tables {
      OpenedOne(tables, ms[..|ms| - 1], cache, i);
    } else if i < |cache| - 1 {
      OpenedOne(tables, ms[..|ms| - 1], cache[..|cache| - 1], i);
    }
  }

  lemma {:induction false} OpenedAll(tables: map<nat, Bytes>, ms: seq<Meta>, cache: seq<Cached>, m: Meta)
      returns (e: Cached)
    requires IsOpened(tables, ms, cache) && m in ms && m.id in tables
    ensures e in cache && e.0 == m
    decreases |ms|
  {
    var last := ms[|ms| - 1];
    if last == m {
      e := cache[|cache| - 1];
    } else {
      assert m in ms[..|ms| - 1];
      e := OpenedAll(tables, ms[..|ms| - 1], if last.id in tables then cache[..|cache| - 1] else cache, m);
    }
  }

  lemma {:induction false} OpenedDistinct(tables: map<nat, Bytes>, ms: seq<Meta>, cache: seq<Cached>)
    requires IsOpened(tables, ms, cache) && NoRepeats(ms)
    requires forall a, b :: a in ms && b in ms && a.id == b.id ==> a == b
    ensures DistinctIds(cache)
    decreases |ms|
  {
    if ms != [] {
      var last, init := ms[|ms| - 1], ms[..|ms| - 1];
      if last.id in tables {
        var rest := cache[..|cache| - 1];
        OpenedDistinct(tables, init, rest);
        forall i | 0 <= i < |rest| ensures rest[i].0.id != last.id {
          OpenedOne(tables, init, rest, i);
          var j :| 0 <= j < |init| && init[j] == rest[i].0;
          assert ms[j] != ms[|ms| - 1];
        }
      } else {
        OpenedDistinct(tables, init, cache);
      }
    }
  }

  /** Reopening every listed table gives a right cache. */
  lemma OpenedIsCache(hash: Hasher, s: Shelf, tables: map<nat, Bytes>, cache: seq<Cached>)
    requires ShelfInv(s) && GoodFiles(hash, Metas(s.levels), tables) && IsOpened(tables, AllMetas(s.levels), cache)
    ensures CacheOk(hash, cache, s.levels, tables)
  {
    var ms := AllMetas(s.levels);
    PlacedListedOnce(s);
    AllMetasNoRepeats(s.levels);
    forall m ensures m in ms <==> m in Metas(s.levels) { AllMetasExactly(s.levels, m); }
    OpenedDistinct(tables, ms, cache);
    forall i | 0 <= i < |cache| ensures ServesTable(hash, cache[i], s.levels, tables) {
      OpenedOne(tables, ms, cache, i);
      GoodFileOpens(hash, tables[cache[i].0.id]);
    }
    forall m | m in Metas(s.levels) ensures exists e :: e in cache && e.0 == m {
      var e := OpenedAll(tables, ms, cache, m);
    }
  }

  // ------------------------------------------------------------ facts about a flush

  lemma FlushedFiles(hash: Hasher, s: Shelf, tables: map<nat, Bytes>, file: Bytes, es: seq<Entry>)
    requires ShelfInv(s) && GoodFiles(hash, Metas(s.levels), tables) && Sorted(es) && es != []
             && IsTable(hash, file, es)
    ensures GoodFiles(hash, Metas(FlushShelf(s, es).levels), tables[s.nextId := file])
  {
    hide GoodFile, IsTable, DecodedFile, Open;
    TableIsGood(hash, file, es);
    FlushMetas(s, es);
    forall m | m in Metas(s.levels) ensures m.id < s.nextId { assert MetaOk(m, s.nextId, s.contents); }
  }

  lemma FlushedCache(hash: Hasher, s: Shelf, tables: map<nat, Bytes>, cache: seq<Cached>, file: Bytes, es: seq<Entry>)
    requires ShelfInv(s) && CacheOk(hash, cache, s.levels, tables) && Sorted(es) && es != [] && IsTable(hash, file, es)
    ensures Open(file).Ok?
    ensures CacheOk(hash, cache + [(NewMeta(s.nextId, 0, es), Open(file).value)], FlushShelf(s, es).levels,
            tables[s.nextId := file])
  {
    hide IsTable, DecodedFile, Open, Holds;
    var x, levels, tables' := NewMeta(s.nextId, 0, es), FlushShelf(s, es).levels, tables[s.nextId := file];
    TableIsGood(hash, file, es);
    FlushMetas(s, es);
    var cache' := cache + [(x, Open(file).value)];
    forall i | 0 <= i < |cache| ensures cache[i].0.id < s.nextId && ServesTable(hash, cache[i], levels, tables') {
      assert ServesTable(hash, cache[i], s.levels, tables);
      assert MetaOk(cache[i].0, s.nextId, s.contents);
    }
    assert ServesTable(hash, cache'[|cache|], levels, tables');
    forall m | m in Metas(levels) ensures exists e :: e in cache' && e.0 == m {
      if m == x {
        assert cache'[|cache|] in cache';
      } else {
        var e :| e in cache && e.0 == m;
        assert e in cache';
      }
    }
  }

  // ---------------------------------------------------------- opening after a crash

  lemma UnlistedShelf(crc: Checksum, d: DiskState, file: Bytes)
    requires ShelfInv(Recovered(crc, d).shelf)
    ensures ShelfInv(Recovered(crc, TableWritten(d, LoadedManifest(d).1, file)).shelf)
  {
    hide DecodedFile, RecoveredRun;
    var s := Recovered(crc, d).shelf;
    var s' := Recovered(crc, TableWritten(d, LoadedManifest(d).1, file)).shelf;
    forall m | m in Metas(s.levels) ensures MetaOk(m, s'.nextId, s'.contents) {
      assert MetaOk(m, s.nextId, s.contents);
    }
  }

  lemma UnlistedGood(hash: Hasher, s: Shelf, tables: map<nat, Bytes>, file: Bytes)
    requires ShelfInv(s) && GoodFiles(hash, Metas(s.levels), tables)
    ensures GoodFiles(hash, Metas(s.levels), tables[s.nextId := file])
  {
    hide GoodFile;
    forall m | m in Metas(s.levels) ensures m.id != s.nextId { assert MetaOk(m, s.nextId, s.contents); }
  }

  /** Every state of the disk during a flush is clean, so opening it succeeds. */
  lemma FlushStaysClean(hash: Hasher, crc: Checksum, d: DiskState, file: Bytes, es: seq<Entry>, stage: nat)
    requires CleanDisk(hash, crc, d) && Sorted(es) && es != [] && IsTable(hash, file, es)
    ensures CleanDisk(hash, crc, FlushStage(d, file, es, stage))
  {
    hide ShelfInv, GoodFiles, IsTable, LogBytes, AllLoggable, ContentsOf, RecoveredRun, AddTable;
    var s := Recovered(crc, d).shelf;
    EmptyLogged(crc);
    FlushInv(s, es);
    UnlistedShelf(crc, d, file);
    UnlistedGood(hash, s, d.tables, file);
    FlushedFiles(hash, s, d.tables, file, es);
    FlushedTrail(d, file, es);
    if stage >= 2 { StageShelf(hash, crc, d, file, es, stage); StageFiles(d, file, es, stage); }
  }

  // ------------------------------------------------------------ reading for a merge

  lemma {:induction false} ListingOneMore(c: Contents, ms: seq<Meta>, m: Meta)
    requires (forall x :: x in ms ==> x.id in c) && m.id in c
    ensures Listing(c, ms + [m]) == Listing(c, ms) + c[m.id]
  {
    if ms == [] {
      assert ms + [m] == [m] && Listing(c, [m]) == c[m.id] + [];
    } else {
      assert (ms + [m])[1..] == ms[1..] + [m];
      ListingOneMore(c, ms[1..], m);
    }
  }

  method ReadFile(hash: Hasher, file: Bytes) returns (es: seq<Entry>)
    requires GoodFile(hash, file)
    ensures es == DecodedFile(file)
  {
    GoodFileOpens(hash, file);
    var all := Iter(Open(file).value);
    es := all.value;
  }

  /** The entries of the listed tables, one table after the other. */
  method ReadListed(hash: Hasher, tables: map<nat, Bytes>, ms: seq<Meta>) returns (all: seq<Entry>)
    requires forall m :: m in ms ==> m.id in tables && GoodFile(hash, tables[m.id])
    ensures all == Listing(ContentsOf(tables), ms)
  {
    hide GoodFile, DecodedFile;
    all := [];
    assert ms[..0] == [];
    for i := 0 to |ms|
      invariant all == Listing(ContentsOf(tables), ms[..i])
    {
      assert ms[..i + 1] == ms[..i] + [ms[i]];
      ListingOneMore(ContentsOf(tables), ms[..i], ms[i]);
      var es := ReadFile(hash, tables[ms[i].id]);
      all := all + es;
    }
    assert ms[..|ms|] == ms;
  }

  // -------------------------------------------------------------------- the tree

  function Without(ms: seq<MemTable>, m: MemTable): seq<MemTable>
  {
    if ms == [] then []
    else (if ms[0] == m then [] else [ms[0]]) + Without(ms[1..], m)
  }

  /** What the frozen memtables say, the newest last. */
  ghost function Frozen(ms: seq<MemTable>): Run
    reads ms
  {
    if ms == [] then map[] else Frozen(ms[..|ms| - 1]) + ms[|ms| - 1].data
  }

  /** The level chosen by the size rules, merged into the next. */
  ghost function Settled(t: Tree, trigger: nat, ratio: nat): Tree
  {
    match NeedsLevel(t.shelf.levels, trigger, ratio)
    case Some(n) => if Stored(t.shelf, n) then CompactTree(t, n) else t
    case None => t
  }

  ghost function AfterWrite(t: Tree, limit: nat, trigger: nat, ratio: nat): Tree
  {
    if RunSize(t.mem) >= limit then Settled(Flush(t), trigger, ratio) else t
  }

  /** The tables about to be written fit their format. */
  ghost predicate Room(t: Tree)
  {
    EntriesFit(InOrder(t.mem)) && forall n :: MergeFits(Flush(t).shelf, n)
  }

  ghost predicate MergeFits(s: Shelf, n: nat)
  {
    Stored(s, n) ==> EntriesFit(Kept(s, n))
  }

  /** The merge that a write may set off lists its overlapping sources newest first. */
  ghost predicate MergesCleanly(t: Tree, trigger: nat, ratio: nat)
  {
    match NeedsLevel(t.shelf.levels, trigger, ratio)
    case Some(n) => ListedInSearchOrder(t.shelf.contents, Level(t.shelf.levels, n))
    case None => true
  }

  /** A write changes the one key it names, flush and merge included. */
  lemma WriteReads(t: Tree, k: Bytes, v: Slot, limit: nat, trigger: nat, ratio: nat, x: Bytes)
    requires ShelfInv(t.shelf) && MergesCleanly(Flush(Write(t, k, v)), trigger, ratio)
    ensures ShelfInv(AfterWrite(Write(t, k, v), limit, trigger, ratio).shelf)
    ensures Reads(AfterWrite(Write(t, k, v), limit, trigger, ratio), x) == if x == k then v else Reads(t, x)
  {
    hide ShelfInv, Compact, FlushShelf, InOrder, ListedInSearchOrder, ShelfSlot;
    var w := Write(t, k, v);
    FlushPreserves(w, x);
    var f := Flush(w);
    match NeedsLevel(f.shelf.levels, trigger, ratio) {
      case None =>
      case Some(n) =>
        if Stored(f.shelf, n) {
          CompactInv(f.shelf, n);
          CompactPreserves(f.shelf, n, x);
        }
    }
  }

  // --------------------------------------------------------------------- opening

  datatype OpenError = BadOp(op: OpError) | BadTable(table: Blocks.TableError)

  /** Listed tables are finished files and the manifest is in shape. */
  ghost predicate FilesClean(hash: Hasher, crc: Checksum, d: DiskState)
  {
    && ShelfInv(Recovered(crc, d).shelf) && |LoadedManifest(d).0| >= 1
    && GoodFiles(hash, Metas(LoadedManifest(d).0), d.tables)
  }

  /** And the log has no torn tail. */
  ghost predicate CleanDisk(hash: Hasher, crc: Checksum, d: DiskState)
  {
    FilesClean(hash, crc, d) && exists ops :: AllLoggable(ops) && WalOf(d) == LogBytes(crc, ops)
  }

  /** The log is one of whole records, followed by what a crash let through of one more. */
  ghost predicate CutLog(crc: Checksum, wal: Bytes, ops: seq<WalOp>, op: WalOp, cut: nat)
  {
    && AllLoggable(ops) && Loggable(op) && cut < |EncodeRecord(crc, EncodeOp(op))|
    && wal == CutAppend(crc, ops, op, cut)
  }

  /** A disk that a crash inside a put or delete may leave. */
  ghost predicate CrashedDisk(hash: Hasher, crc: Checksum, d: DiskState)
  {
    FilesClean(hash, crc, d) && exists ops, op, cut :: CutLog(crc, WalOf(d), ops, op, cut)
  }

  lemma CleanIsCrashed(hash: Hasher, crc: Checksum, d: DiskState)
    requires CleanDisk(hash, crc, d)
    ensures CrashedDisk(hash, crc, d)
  {
    hide FilesClean, LogBytes;
    var ops :| AllLoggable(ops) && WalOf(d) == LogBytes(crc, ops);
    assert LogBytes(crc, ops) + [] == LogBytes(crc, ops);
    assert CutLog(crc, WalOf(d), ops, LogDelete([]), 0);
  }

  method ReplayInto(mt: MemTable, records: seq<Bytes>) returns (r: Result<(), OpError>)
    requires mt.Valid()
    modifies mt
    ensures mt.Valid()
    ensures match Replay(old(mt.data), records)
            case Ok(m) => r.Ok? && mt.data == m
            case Err(e) => r == Err(e)
  {
    assert records[0..] == records;
    for i := 0 to |records|
      invariant mt.Valid() && Replay(old(mt.data), records) == Replay(mt.data, records[i..])
    {
      assert records[i..][1..] == records[i + 1..];
      match DecodeOp(records[i]) {
        case Err(e) => return Err(e);
        case Ok(LogPut(k, v)) => mt.Put(k, v);
        case Ok(LogDelete(k)) => mt.Delete(k);
      }
    }
    r := Ok(());
  }

  /** The operations that the log replays to; `whole` says that nothing follows them. */
  lemma LoggedOps(hash: Hasher, crc: Checksum, d: DiskState) returns (ops: seq<WalOp>, whole: bool)
    ensures whole <==> CleanDisk(hash, crc, d)
    ensures whole ==> AllLoggable(ops) && WalOf(d) == LogBytes(crc, ops)
    ensures CrashedDisk(hash, crc, d) ==> Recover(crc, WalOf(d)) == Ok(ApplyOps(map[], ops))
  {
    hide FilesClean, Recover, LogBytes, ApplyOps, CutAppend;
    ops, whole := [], CleanDisk(hash, crc, d);
    if whole {
      ops :| AllLoggable(ops) && WalOf(d) == LogBytes(crc, ops);
      RecoverLog(crc, ops);
    } else if CrashedDisk(hash, crc, d) {
      var before, op, cut :| CutLog(crc, WalOf(d), before, op, cut);
      ops := before;
      AppendIsCrashAtomic(crc, ops, op, cut);
    }
  }

  lemma CleanTablesOpen(hash: Hasher, crc: Checksum, d: DiskState)
    ensures FilesClean(hash, crc, d) ==>
              forall m :: m in Metas(LoadedManifest(d).0) && m.id in d.tables ==> SSTables.Open(d.tables[m.id]).Ok?
  {
    hide ShelfInv, Recovered, GoodFile, SSTables.Open;
    if FilesClean(hash, crc, d) {
      forall m | m in Metas(LoadedManifest(d).0) && m.id in d.tables ensures SSTables.Open(d.tables[m.id]).Ok? {
        GoodFileOpens(hash, d.tables[m.id]);
      }
    }
  }

  lemma CleanCache(hash: Hasher, crc: Checksum, d: DiskState, cache: seq<Cached>)
    requires IsOpened(d.tables, AllMetas(LoadedManifest(d).0), cache)
    ensures FilesClean(hash, crc, d) ==> CacheOk(hash, cache, LoadedManifest(d).0, d.tables)
  {
    hide ShelfInv, GoodFiles, IsOpened, CacheOk, RecoveredRun, ContentsOf;
    if FilesClean(hash, crc, d) {
      OpenedIsCache(hash, Recovered(crc, d).shelf, d.tables, cache);
    }
  }

  // --------------------------------------------------------- crash inside a write

  ghost function WriteOp(t: Tree, op: WalOp): Tree
  {
    t.(mem := ApplyOp(t.mem, op))
  }

  function WithLog(d: DiskState, wal: Bytes): DiskState
  {
    d.(wal := Some(wal))
  }

  lemma SameFiles(hash: Hasher, crc: Checksum, d: DiskState, wal: Bytes)
    requires FilesClean(hash, crc, d)
    ensures FilesClean(hash, crc, WithLog(d, wal)) && Recovered(crc, WithLog(d, wal)).shelf == Recovered(crc, d).shelf
  {
  }

  /** A write is crash-atomic: opening finds the tree after it or the tree before it, never anything else. */
  lemma WriteIsCrashAtomic(hash: Hasher, crc: Checksum, d: DiskState, ops: seq<WalOp>, op: WalOp, cut: nat)
    requires FilesClean(hash, crc, d) && AllLoggable(ops) && WalOf(d) == LogBytes(crc, ops) && Loggable(op)
    requires cut <= |EncodeRecord(crc, EncodeOp(op))|
    ensures var d' := WithLog(d, CutAppend(crc, ops, op, cut));
            && CrashedDisk(hash, crc, d')
            && Recovered(crc, d') == if cut == |EncodeRecord(crc, EncodeOp(op))| then WriteOp(Recovered(crc, d), op)
               else Recovered(crc, d)
  {
    hide FilesClean, LogBytes, EncodeRecord, Recover, EncodeOp, Loggable;
    var wal := CutAppend(crc, ops, op, cut);
    var d' := WithLog(d, wal);
    SameFiles(hash, crc, d, wal);
    AppendIsCrashAtomic(crc, ops, op, cut);
    RecoverLog(crc, ops);
    assert (ops + [op])[..|ops|] == ops;
    var enc := EncodeRecord(crc, EncodeOp(op));
    if cut == |enc| {
      assert enc[..cut] == enc;
      LogOneMore(crc, ops, op);
      assert AllLoggable(ops + [op]) && WalOf(d') == LogBytes(crc, ops + [op]);
      CleanIsCrashed(hash, crc, d');
    } else {
      assert CutLog(crc, WalOf(d'), ops, op, cut);
    }
  }

  /** Opening succeeds, with the given tree. */
  ghost predicate Reopens(crc: Checksum, d: DiskState, t: Tree)
  {
    Recover(crc, WalOf(d)).Ok? && Recovered(crc, d) == t
  }

  /** The tree that opening rebuilt, and later writes on top of it. */
  ghost function Expected(crc: Checksum, d: DiskState, ops: seq<WalOp>, more: seq<WalOp>): Tree
  {
    Tree(ApplyOps(map[], ops + more), Recovered(crc, d).shelf)
  }

  /**
   Writes after a reopening: every sequence of them is found again by the next opening if and only
   if the crash had left the log at a record boundary. The log grows behind the torn tail.
   */
  lemma WritesAfterCrashExactly(crc: Checksum, d: DiskState, ops: seq<WalOp>, op: WalOp, cut: nat)
    requires CutLog(crc, WalOf(d), ops, op, cut)
    ensures Reopens(crc, d, Expected(crc, d, ops, []))
    ensures (forall more :: AllLoggable(more) ==>
               Reopens(crc, WithLog(d, WalOf(d) + LogBytes(crc, more)), Expected(crc, d, ops, more))) <==> cut == 0
  {
    hide LogBytes, EncodeRecord, EncodeOp, Recover, Loggable, AllLoggable, ApplyOps, ContentsOf;
    var torn := EncodeRecord(crc, EncodeOp(op))[..cut];
    AppendIsCrashAtomic(crc, ops, op, cut);
    assert ops + [] == ops;
    forall more
      ensures Reopens(crc, WithLog(d, WalOf(d) + LogBytes(crc, more)), Expected(crc, d, ops, more))
              <==> LaterOpsSurvive(crc, ops, torn, more)
    {
      assert WalOf(d) + LogBytes(crc, more) == LogBytes(crc, ops) + (torn + LogBytes(crc, more));
    }
    TornLogExactly(crc, ops, op, cut);
  }

  lemma OpOneMore(ops: seq<WalOp>, op: WalOp)
    ensures ApplyOps(map[], ops + [op]) == ApplyOp(ApplyOps(map[], ops), op)
  {
    assert (ops + [op])[..|ops|] == ops;
  }

  lemma WithoutOnly(m: MemTable)
    ensures Without([m], m) == []
  {
    assert [m][1..] == [];
  }

  lemma NoneFrozen(ms: seq<MemTable>)
    requires ms == []
    ensures Frozen(ms) == map[]
  {
  }

  class LsmTree {
    const hash: Hasher
    const crc: Checksum
    const sizing: nat -> (nat, nat)
    const memtableLimit: nat
    const blockSize: nat
    const trigger: nat
    const ratio: nat
    const disk: Disk
    const manifest: Manifest
    var active: MemTable
    var immutables: seq<MemTable>
    var cache: seq<Cached>
    /** The operations that made the active memtable. */
    ghost var logged: seq<WalOp>
    /** The log file holds exactly these operations: no torn tail, no record too long to be read. */
    ghost var whole: bool

    constructor (hash: Hasher, crc: Checksum, sizing: nat -> (nat, nat), memtableLimit: nat, blockSize: nat,
                 trigger: nat, ratio: nat, disk: Disk, manifest: Manifest, active: MemTable, cache: seq<Cached>,
                 ghost logged: seq<WalOp>, ghost whole: bool)
      ensures this.hash == hash && this.crc == crc && this.memtableLimit == memtableLimit
      ensures this.disk == disk && this.manifest == manifest && this.active == active && this.cache == cache
      ensures immutables == [] && this.logged == logged && this.whole == whole
    {
      this.hash, this.crc, this.sizing := hash, crc, sizing;
      this.memtableLimit, this.blockSize, this.trigger, this.ratio := memtableLimit, blockSize, trigger, ratio;
      this.disk, this.manifest, this.active, this.cache, this.logged := disk, manifest, active, cache, logged;
      immutables, this.whole := [], whole;
    }

    /**
     Opening rebuilds the value that the files stand for. On every disk that a crash may leave it
     succeeds, and the tree is ready for every operation.
     */
    static method Open(hash: Hasher, crc: Checksum, sizing: nat -> (nat, nat), memtableLimit: nat, blockSize: nat,
                       trigger: nat, ratio: nat, disk: Disk) returns (r: Result<LsmTree, OpenError>)
      modifies disk
      ensures disk.State() == old(disk.State()) || disk.State() == LogCreated(old(disk.State()))
      ensures r.Ok? ==> fresh(r.value) && fresh(r.value.active) && fresh(r.value.manifest) && r.value.disk == disk
      ensures r.Ok? ==> r.value.Value() == Recovered(crc, old(disk.State()))
      ensures CrashedDisk(hash, crc, old(disk.State())) ==> r.Ok? && r.value.Valid()
      ensures r.Ok? ==> (r.value.whole <==> CleanDisk(hash, crc, old(disk.State())))
    {
      hide ShelfInv, CacheOk, GoodFile, ContentsOf, AllLoggable, LogBytes, ReadAll, Replay, IsOpened, CutLog;
      ghost var d := disk.State();
      var (levels, nextId) := LoadedManifest(disk.State());
      var manifest := new Manifest.Load(levels, nextId);
      var memtable := new MemTable(memtableLimit);
      var reader := new ByteReader(WalOf(disk.State()));
      var records := ReadAllRecords(crc, reader);
      var replayed := ReplayInto(memtable, records);
      ghost var ops, whole := LoggedOps(hash, crc, d);
      match replayed {
        case Err(e) =>
          return Err(BadOp(e));
        case Ok(_) =>
      }
      disk.CreateLog();
      var readers := OpenTables(disk.tables, levels);
      match readers {
        case Err(e) =>
          CleanTablesOpen(hash, crc, d);
          return Err(BadTable(e));
        case Ok(cache) =>
          CleanCache(hash, crc, d, cache);
          var tree := new LsmTree(hash, crc, sizing, memtableLimit, blockSize, trigger, ratio, disk, manifest,
              memtable, cache,
                                  ops, whole);
          NoneFrozen(tree.immutables);
          assert map[] + memtable.data == memtable.data;
          r := Ok(tree);
      }
    }

    ghost function TheShelf(): Shelf
      reads manifest, disk
    {
      Shelf(manifest.levels, manifest.nextSstId, ContentsOf(disk.tables))
    }

    /** The tree as a value. */
    ghost function Value(): Tree
      reads this, active, immutables, manifest, disk
    {
      Tree(Frozen(immutables) + active.data, TheShelf())
    }

    /** Enough for reading. */
    ghost predicate Readable()
      reads this, manifest, disk
    {
      CacheOk(hash, cache, manifest.levels, disk.tables)
    }

    /** While the log is whole it replays to the active memtable. */
    ghost predicate Logged()
      reads this, active, disk
    {
      && disk.wal.Some? && ApplyOps(map[], logged) == active.data
      && (whole ==> AllLoggable(logged) && disk.wal == Some(LogBytes(crc, logged)))
    }

    /** The manifest in memory is the one on disk, and every table it lists is a finished file. */
    ghost predicate FilesOk()
      reads this, manifest, disk
    {
      && LoadedManifest(disk.State()) == (manifest.levels, manifest.nextSstId)
      && ShelfInv(TheShelf())
      && GoodFiles(hash, Metas(manifest.levels), disk.tables)
    }

    ghost predicate Valid()
      reads this, active, immutables, manifest, disk
    {
      && active.Valid() && active.maxSize == memtableLimit && immutables == []
      && |manifest.levels| >= 1 && Readable() && FilesOk() && Logged()
    }

    /** While the log is whole, whatever is in memory can be rebuilt from the files. */
    lemma Durable()
      requires Valid() && whole
      ensures Recovered(crc, disk.State()) == Value()
    {
      hide ShelfInv, CacheOk, GoodFiles, ContentsOf, AllLoggable, LogBytes, Recover;
      RecoverLog(crc, logged);
      NoneFrozen(immutables);
      assert map[] + active.data == active.data;
    }

    lemma ShelfOf()
      requires FilesOk()
      ensures Recovered(crc, disk.State()).shelf == TheShelf()
    {
    }

    method Get(key: Bytes) returns (r: Option<Bytes>)
      requires Readable()
      ensures r == Reads(Value(), key)
    {
      hide CacheOk, ContentsOf, TableSlot;
      if key in active.data { return active.data[key]; }
      assert immutables[..|immutables|] == immutables;
      for i := |immutables| downto 0
        invariant key in Frozen(immutables) <==> key in Frozen(immutables[..i])
        invariant key in Frozen(immutables) ==> Frozen(immutables)[key] == Frozen(immutables[..i])[key]
      {
        assert immutables[..i + 1][..i] == immutables[..i];
        if key in immutables[i].data { return immutables[i].data[key]; }
      }
      var slot := LookupTables(hash, cache, key, manifest.levels, disk.tables);
      r := Visible(slot);
    }

    /** The range must not be inverted: the ordered map refuses it. */
    method Scan(start: Bytes, end: Bytes) returns (ps: Pairs)
      requires Readable() && Le(start, end)
      ensures IsScan(Value(), start, end, ps)
    {
      hide CacheOk, ContentsOf, TableSlot, IsScan, MemOver, Frozen, InRange;
      var under := ScanTables(hash, cache, start, end, manifest.levels, disk.tables);
      var merged := ScanFrozen(immutables, start, end, under);
      merged := ScanMem(active, start, end, merged, under, Frozen(immutables));
      var all := Traverse(merged);
      ps := DropDeleted(all);
      MemOverTree(Value(), under, start, end, merged);
    }

    /** Write the entries as the newest table of level 0: file, manifest, reader. */
    method StoreTable(entries: seq<Entry>) returns (ghost file: Bytes)
      requires Readable() && FilesOk() && Sorted(entries) && entries != [] && EntriesFit(entries)
      modifies this`cache, manifest, disk
      ensures IsTable(hash, file, entries) && Readable()
      ensures disk.State() == FlushStage(old(disk.State()), file, entries, 2)
      ensures disk.trail == old(disk.trail) + [FlushStage(old(disk.State()), file, entries, 1),
                                               FlushStage(old(disk.State()), file, entries, 1), disk.State()]
      ensures disk.tables == old(disk.tables)[old(manifest.nextSstId) := file]
      ensures manifest.levels == AddTable(old(manifest.levels), NewMeta(old(manifest.nextSstId), 0, entries))
      ensures manifest.nextSstId == old(manifest.nextSstId) + 1
    {
      hide ShelfInv, CacheOk, GoodFiles, ContentsOf, IsTable, EntriesFit, SSTables.Open, Level, Metas, IdsBelow,
           AddTable, PackedFile;
      ghost var s, tables, before := TheShelf(), disk.tables, cache;
      var id := manifest.NextSstId();
      var size := Sized(sizing, |entries|);
      var bytes := WriteTable(hash, blockSize, size.0, size.1, entries);
      disk.WriteTable(id, bytes);
      var meta := NewMeta(id, 0, entries);
      manifest.AddSSTable(meta);
      disk.SaveManifest(manifest.levels, manifest.nextSstId);
      FlushedCache(hash, s, tables, before, bytes, entries);
      cache := cache + [(meta, SSTables.Open(bytes).value)];
      file := bytes;
    }

    method ResetLog()
      modifies disk, this`logged, this`whole
      ensures disk.State() == LogCreated(LogRemoved(old(disk.State()))) && logged == [] && whole
      ensures disk.trail == old(disk.trail) + [LogRemoved(old(disk.State())), disk.State()]
      ensures AllLoggable(logged) && disk.wal == Some(LogBytes(crc, logged)) && ApplyOps(map[], logged) == map[]
    {
      disk.RemoveLog();
      disk.CreateLog();
      logged, whole := [], true;
    }

    /**
     Flush: the reads do not change, and neither do they if the process stops after any of the
     effects on the disk. A flush starts a new log, so it ends whatever was wrong with the old one.
     */
    method FlushMemtable()
      requires Valid() && EntriesFit(InOrder(active.data))
      modifies this, manifest, disk
      ensures Valid() && (active == old(active) || fresh(active))
      ensures Value() == Flush(old(Value()))
      ensures old(whole) || InOrder(old(active.data)) != [] ==> whole
      ensures |old(disk.trail)| <= |disk.trail|
      ensures forall i :: old(whole) && |old(disk.trail)| <= i < |disk.trail| ==>
                SameReads(Recovered(crc, disk.trail[i]), old(Value()))
    {
      hide ShelfInv, CacheOk, GoodFiles, ContentsOf, IsTable, SameReads, Recovered, InOrder, EntriesFit, LogBytes,
           ApplyOps, AllLoggable, AddTable, FlushStage, Metas, RunSize;
      ghost var d, t, tables := disk.State(), Value(), disk.tables;
      if whole { Durable(); }
      ShelfOf();
      MemOf(t, active.data);
      var frozen := active;
      var entries := frozen.Iter();
      if entries == [] { return; }
      active := new MemTable(memtableLimit);
      immutables := immutables + [frozen];
      assert immutables == [frozen];
      ghost var file := StoreTable(entries);
      WithoutOnly(frozen);
      immutables := Without(immutables, frozen);
      ResetLog();
      FlushedFiles(hash, t.shelf, tables, file, entries);
      FlushedValue(hash, crc, t, d, file, entries);
      if old(whole) { FlushedReads(hash, crc, t, d, file, entries); }
      FlushedTrail(d, file, entries);
      NoneFrozen(immutables);
      MemOf(Tree(Frozen(immutables) + active.data, TheShelf()), active.data);
    }

    /** Merge level `n` into the next one. */
    method CompactLevel(n: nat)
      requires GoodFiles(hash, SeqSet(Listed(manifest.levels, n)), disk.tables)
      requires MergeFits(TheShelf(), n) && manifest.nextSstId !in IdsOf(Listed(manifest.levels, n))
      modifies manifest, disk
      ensures Stored(old(TheShelf()), n) && TheShelf() == Compact(old(TheShelf()), n)
      ensures disk.wal == old(disk.wal) && disk.manifest == old(disk.manifest)
      ensures KeptFiles(hash, old(disk.tables), old(TheShelf()), n, disk.tables)
    {
      hide GoodFile, ContentsOf, IsTable, EntriesFit, InOrder, AddTable, Manifests.RemoveTables, IdsOf, Targets,
           Level, KeptFiles, PackedFile;
      ghost var s, tables := TheShelf(), disk.tables;
      var sources, listed := Level(manifest.levels, n), Listed(manifest.levels, n);
      ListedStored(hash, s, tables, n);
      KeptSame(hash, tables, s, n);
      if sources == [] { return; }
      var all := ReadListed(hash, disk.tables, listed);
      var merged := MergeEntries(all);
      var deepest := Deepest(manifest.levels, n);
      if all == [] {
        NothingKept(s, n);
        manifest.RemoveSSTables(IdsOf(listed));
        return;
      }
      var id := manifest.NextSstId();
      var kept := merged;
      if deepest { kept := DropTombstones(merged); }
      if kept == [] {
        manifest.RemoveSSTables(IdsOf(listed));
        return;
      }
      KeptSorted(s, n);
      var size := Sized(sizing, |kept|);
      var file := WriteTable(hash, blockSize, size.0, size.1, kept);
      disk.WriteTable(id, file);
      manifest.RemoveSSTables(IdsOf(listed));
      manifest.AddSSTable(NewMeta(id, n + 1, kept));
      disk.RemoveTables(IdsOf(listed));
      CompactedContents(hash, tables, IdsOf(listed), id, file, kept);
      KeptWritten(hash, tables, s, n, file);
    }

    /** Merge one level if the size rules ask for it, save the manifest, reopen the tables. */
    method MaybeCompact()
      requires Valid() && forall n :: MergeFits(TheShelf(), n)
      modifies this, manifest, disk
      ensures Valid() && active == old(active) && active.data == old(active.data)
      ensures Value() == Settled(old(Value()), trigger, ratio)
      ensures whole == old(whole) && disk.wal == old(disk.wal)
    {
      hide ShelfInv, CacheOk, GoodFiles, ContentsOf, Compact, Kept, AllLoggable, LogBytes, ApplyOps, IsOpened,
           NeedsLevel, Stored, Listed, KeptFiles;
      ghost var t, s, tables := Value(), TheShelf(), disk.tables;
      var level := manifest.NeedsCompaction(trigger, ratio);
      if level.Some? {
        assert MergeFits(s, level.value);
        ListedGood(hash, s, tables, level.value);
        CompactLevel(level.value);
        CompactedGood(hash, s, tables, level.value, disk.tables);
        disk.SaveManifest(manifest.levels, manifest.nextSstId);
        var readers := OpenTables(disk.tables, manifest.levels);
        GoodTablesOpen(hash, TheShelf(), disk.tables);
        cache := readers.value;
        OpenedIsCache(hash, TheShelf(), disk.tables, cache);
      }
    }

    /** The record goes behind whatever is in the file, however long it is. */
    method Append(op: WalOp)
      requires Logged()
      modifies disk, this`logged, this`whole
      ensures disk.wal == Some(WalOf(old(disk.State())) + EncodeRecord(crc, EncodeOp(op)))
      ensures logged == old(logged) + [op] && (whole <==> old(whole) && Loggable(op))
      ensures whole ==> AllLoggable(logged) && disk.wal == Some(LogBytes(crc, logged))
      ensures ApplyOps(map[], logged) == ApplyOp(old(active.data), op)
      ensures disk.tables == old(disk.tables) && disk.manifest == old(disk.manifest)
    {
      hide LogBytes, Loggable, ApplyOps, ApplyOp, EncodeOp, EncodeRecord;
      LogOneMore(crc, logged, op);
      OpOneMore(logged, op);
      disk.AppendLog(crc, EncodeOp(op));
      logged, whole := logged + [op], whole && Loggable(op);
    }

    method AfterInsert()
      requires Valid() && Room(Value())
      modifies this, manifest, disk
      ensures Valid() && (active == old(active) || fresh(active))
      ensures Value() == AfterWrite(old(Value()), memtableLimit, trigger, ratio)
      ensures old(whole) ==> whole
      ensures if RunSize(old(active.data)) < memtableLimit then whole == old(whole) && disk.wal == old(disk.wal)
              else InOrder(old(active.data)) != [] ==> whole
    {
      hide ShelfInv, CacheOk, GoodFiles, ContentsOf, Kept, AllLoggable, LogBytes, ApplyOps, InOrder, FlushShelf,
           EntriesFit, Compact, NeedsLevel, Stored, LoadedManifest, RunSize, SameReads;
      NoneFrozen(immutables);
      MemOf(Value(), active.data);
      if active.IsFull() {
        FlushMemtable();
        MaybeCompact();
      }
    }

    /** Below the limit the record is the new end of the log; at the limit a flush starts a new log. */
    ghost predicate LogGrows(op: WalOp, size: nat, wasWhole: bool, before: DiskState)
      reads this, disk
    {
      if size < memtableLimit then
        disk.wal == Some(WalOf(before) + EncodeRecord(crc, EncodeOp(op))) && (whole <==> wasWhole && Loggable(op))
      else whole
    }

    /** A put is one map update, whatever flush and merge it sets off. */
    method Put(key: Bytes, value: Bytes)
      requires Valid() && Room(Write(Value(), key, Some(value)))
      modifies this, active, manifest, disk
      ensures Valid() && (active == old(active) || fresh(active))
      ensures Value() == AfterWrite(Write(old(Value()), key, Some(value)), memtableLimit, trigger, ratio)
      ensures LogGrows(LogPut(key, value), RunSize(Write(old(Value()), key, Some(value)).mem), old(whole),
              old(disk.State()))
    {
      hide ShelfInv, CacheOk, GoodFiles, ContentsOf, AllLoggable, LogBytes, ApplyOps, Loggable, Room, AfterWrite,
           RunSize, InOrder, EncodeRecord, EncodeOp, SameReads;
      NoneFrozen(immutables);
      Append(LogPut(key, value));
      active.Put(key, value);
      assert Value() == Write(old(Value()), key, Some(value));
      SomeEntry(active.data, key);
      MemOf(Value(), active.data);
      AfterInsert();
    }

    method Delete(key: Bytes)
      requires Valid() && Room(Write(Value(), key, None))
      modifies this, active, manifest, disk
      ensures Valid() && (active == old(active) || fresh(active))
      ensures Value() == AfterWrite(Write(old(Value()), key, None), memtableLimit, trigger, ratio)
      ensures LogGrows(LogDelete(key), RunSize(Write(old(Value()), key, None).mem), old(whole), old(disk.State()))
    {
      hide ShelfInv, CacheOk, GoodFiles, ContentsOf, AllLoggable, LogBytes, ApplyOps, Loggable, Room, AfterWrite,
           RunSize, InOrder, EncodeRecord, EncodeOp, SameReads;
      NoneFrozen(immutables);
      Append(LogDelete(key));
      active.Delete(key);
      assert Value() == Write(old(Value()), key, None);
      SomeEntry(active.data, key);
      MemOf(Value(), active.data);
      AfterInsert();
    }
  }

  lemma ListedGood(hash: Hasher, s: Shelf, tables: map<nat, Bytes>, n: nat)
    requires ShelfInv(s) && GoodFiles(hash, Metas(s.levels), tables)
    ensures GoodFiles(hash, SeqSet(Listed(s.levels, n)), tables)
    ensures s.nextId !in IdsOf(Listed(s.levels, n))
  {
    hide GoodFile, Listed;
    forall m | m in Listed(s.levels, n) ensures m in Metas(s.levels) && m.id < s.nextId {
      ListedMetas(s, n, m);
      assert MetaOk(m, s.nextId, s.contents);
    }
  }

  lemma CompactedGood(hash: Hasher, s: Shelf, tables: map<nat, Bytes>, n: nat, tables': map<nat, Bytes>)
    requires ShelfInv(s) && Stored(s, n) && GoodFiles(hash, Metas(s.levels), tables) && |s.levels| >= 1
    requires Compact(s, n).contents == ContentsOf(tables') && KeptFiles(hash, tables, s, n, tables')
    ensures ShelfInv(Compact(s, n)) && GoodFiles(hash, Metas(Compact(s, n).levels), tables')
            && |Compact(s, n).levels| >= 1
  {
    hide GoodFile, DecodedFile, Kept, Compact, KeptFiles, ShelfOk;
    CompactInv(s, n);
    CompactKeepsLevels(s, n);
    forall m | m in Metas(Compact(s, n).levels) ensures m.id in tables' && GoodFile(hash, tables'[m.id]) {
      StillGood(hash, s, tables, n, tables', m);
    }
  }

  lemma CompactKeepsLevels(s: Shelf, n: nat)
    requires Stored(s, n)
    ensures |Compact(s, n).levels| >= |s.levels|
  {
  }

  lemma StillGood(hash: Hasher, s: Shelf, tables: map<nat, Bytes>, n: nat, tables': map<nat, Bytes>, m: Meta)
    requires ShelfInv(s) && Stored(s, n) && GoodFiles(hash, Metas(s.levels), tables) && ShelfInv(Compact(s, n))
    requires Compact(s, n).contents == ContentsOf(tables') && KeptFiles(hash, tables, s, n, tables')
    requires m in Metas(Compact(s, n).levels)
    ensures m.id in tables' && GoodFile(hash, tables'[m.id])
  {
    hide GoodFile, DecodedFile, Kept, Compact;
    assert MetaOk(m, Compact(s, n).nextId, Compact(s, n).contents);
    CompactIdle(s, n);
    if Level(s.levels, n) != [] { CompactMetas(s, n); }
    if m in Metas(s.levels) { assert MetaOk(m, s.nextId, s.contents); }
  }

  lemma CompactIdle(s: Shelf, n: nat)
    requires Stored(s, n)
    ensures Level(s.levels, n) == [] ==> Compact(s, n) == s
  {
  }

  lemma GoodTablesOpen(hash: Hasher, s: Shelf, tables: map<nat, Bytes>)
    requires GoodFiles(hash, Metas(s.levels), tables)
    ensures forall m :: m in Metas(s.levels) && m.id in tables ==> SSTables.Open(tables[m.id]).Ok?
  {
    hide GoodFile, SSTables.Open;
    forall m | m in Metas(s.levels) && m.id in tables
        ensures SSTables.Open(tables[m.id]).Ok? { GoodFileOpens(hash, tables[m.id]); }
  }

  /** Files are only removed, but for the merged one, which is a finished table. */
  ghost predicate KeptFiles(hash: Hasher, tables: map<nat, Bytes>, s: Shelf, n: nat, tables': map<nat, Bytes>)
    requires Stored(s, n)
  {
    && (forall x :: x in tables' && x != s.nextId ==> x in tables && tables'[x] == tables[x])
    && (Level(s.levels, n) != [] && Kept(s, n) != [] ==> s.nextId in tables' && GoodFile(hash, tables'[s.nextId]))
  }

  lemma KeptSame(hash: Hasher, tables: map<nat, Bytes>, s: Shelf, n: nat)
    requires Stored(s, n)
    ensures Level(s.levels, n) == [] || Kept(s, n) == [] ==> KeptFiles(hash, tables, s, n, tables)
  {
    hide Kept, GoodFile;
  }

  lemma KeptWritten(hash: Hasher, tables: map<nat, Bytes>, s: Shelf, n: nat, file: Bytes)
    requires Stored(s, n) && IsTable(hash, file, Kept(s, n)) && Sorted(Kept(s, n))
             && s.nextId !in IdsOf(Listed(s.levels, n))
    ensures KeptFiles(hash, tables, s, n, tables[s.nextId := file] - IdsOf(Listed(s.levels, n)))
  {
    hide Kept, GoodFile, IsTable, SSTables.Open;
    TableIsGood(hash, file, Kept(s, n));
  }

  lemma NothingKept(s: Shelf, n: nat)
    requires Stored(s, n) && Listing(s.contents, Listed(s.levels, n)) == []
    ensures Kept(s, n) == []
  {
    var m := ToMap(Listing(s.contents, Listed(s.levels, n)));
    assert m == map[];
    NoKeys(InOrder(m));
  }

  lemma ListedStored(hash: Hasher, s: Shelf, tables: map<nat, Bytes>, n: nat)
    requires s.contents == ContentsOf(tables) && GoodFiles(hash, SeqSet(Listed(s.levels, n)), tables)
    ensures Stored(s, n) && forall m :: m in Listed(s.levels, n) ==> m.id in tables && GoodFile(hash, tables[m.id])
  {
    hide GoodFile, DecodedFile, Listed;
    forall m | m in Listed(s.levels, n) ensures m.id in tables && GoodFile(hash, tables[m.id])
        { assert m in SeqSet(Listed(s.levels, n)); }
  }

  lemma KeptSorted(s: Shelf, n: nat)
    requires Stored(s, n)
    ensures Sorted(Kept(s, n))
  {
    hide InOrder, ToMap, Listing, Listed, LiveOnly;
    LiveOnlySorted(InOrder(ToMap(Listing(s.contents, Listed(s.levels, n)))));
  }

  lemma CompactedContents(hash: Hasher, tables: map<nat, Bytes>, ids: set<nat>, id: nat, file: Bytes, es: seq<Entry>)
    requires IsTable(hash, file, es) && Sorted(es) && id !in ids
    ensures ContentsOf(tables[id := file] - ids) == (ContentsOf(tables) - ids)[id := es]
  {
    hide IsTable, SSTables.Open, GoodFile;
    TableIsGood(hash, file, es);
  }

  lemma FlushedTrail(d: DiskState, file: Bytes, es: seq<Entry>)
    requires es != []
    ensures FlushStage(d, file, es, 3) == LogRemoved(FlushStage(d, file, es, 2))
    ensures FlushStage(d, file, es, 4) == LogCreated(FlushStage(d, file, es, 3))
    ensures FlushStage(d, file, es, 2).tables == d.tables[LoadedManifest(d).1 := file]
    ensures LoadedManifest(FlushStage(d, file, es, 2))
         == (AddTable(LoadedManifest(d).0, NewMeta(LoadedManifest(d).1, 0, es)), LoadedManifest(d).1 + 1)
    ensures |LoadedManifest(FlushStage(d, file, es, 2)).0| >= 1
  {
  }

  lemma MemOf(t: Tree, data: Run)
    requires t.mem == map[] + data
    ensures t.mem == data
  {
  }

  lemma SomeEntry(m: Run, k: Bytes)
    requires k in m
    ensures InOrder(m) != []
  {
    FindInOrder(m, k);
  }

  lemma EmptyLogged(crc: Checksum)
    ensures AllLoggable([]) && LogBytes(crc, []) == [] && ApplyOps(map[], []) == map[]
  {
  }

  lemma FlushedValue(hash: Hasher, crc: Checksum, t: Tree, d: DiskState, file: Bytes, es: seq<Entry>)
    requires Recovered(crc, d).shelf == t.shelf && ShelfInv(t.shelf) && es == InOrder(t.mem) && es != []
             && IsTable(hash, file, es)
    ensures ShelfInv(FlushShelf(t.shelf, es)) && Flush(t) == Tree(map[], FlushShelf(t.shelf, es))
    ensures ContentsOf(d.tables[t.shelf.nextId := file]) == FlushShelf(t.shelf, es).contents
  {
    hide ShelfInv, IsTable, InOrder, RecoveredRun;
    FlushInv(t.shelf, es);
    DecodeTable(hash, file, es);
    ContentsWith(d.tables, t.shelf.nextId, file);
  }

  lemma FlushedReads(hash: Hasher, crc: Checksum, t: Tree, d: DiskState, file: Bytes, es: seq<Entry>)
    requires Recovered(crc, d) == t && ShelfInv(t.shelf) && es == InOrder(t.mem) && es != [] && IsTable(hash, file, es)
    ensures forall i :: 1 <= i <= 4 ==> SameReads(Recovered(crc, FlushStage(d, file, es, i)), t)
  {
    hide ShelfInv, IsTable, SameReads, InOrder, Recovered, FlushStage;
    forall i | 1 <= i <= 4 ensures SameReads(Recovered(crc, FlushStage(d, file, es, i)), t) {
      FlushIsCrashAtomic(hash, crc, d, file, i);
    }
  }

  /** One memtable on top of what was merged so far. */
  method ScanMem(mt: MemTable, start: Bytes, end: Bytes, merged: Run, ghost under: Run, ghost mem: Run) returns (m: Run)
    requires Le(start, end) && MemOver(under, mem, start, end, merged)
    ensures MemOver(under, mem + mt.data, start, end, m)
  {
    hide MemOver, Between, InOrder;
    var es := mt.Scan(start, end);
    MemOverStep(under, mem, start, end, merged, mt.data);
    m := InsertAll(merged, es);
  }

  lemma MemOverNothing(under: Run, start: Bytes, end: Bytes)
    requires forall k :: k in under ==> InRange(k, start, end)
    ensures MemOver(under, map[], start, end, under)
  {
  }

  /** The frozen memtables, oldest first. */
  method ScanFrozen(immutables: seq<MemTable>, start: Bytes, end: Bytes, under: Run) returns (m: Run)
    requires Le(start, end) && forall k :: k in under ==> InRange(k, start, end)
    ensures MemOver(under, Frozen(immutables), start, end, m)
  {
    hide MemOver;
    m := under;
    MemOverNothing(under, start, end);
    for i := 0 to |immutables|
      invariant MemOver(under, Frozen(immutables[..i]), start, end, m)
    {
      assert immutables[..i + 1][..i] == immutables[..i];
      m := ScanMem(immutables[i], start, end, m, under, Frozen(immutables[..i]));
    }
    assert immutables[..|immutables|] == immutables;
  }

  /** `m` answers for the keys in range: from `mem` if it knows the key, else from `under`. */
  ghost predicate MemOver(under: Run, mem: Run, start: Bytes, end: Bytes, m: Run)
  {
    forall k ::
      && (k in m <==> InRange(k, start, end) && (k in mem || k in under))
      && (k in m ==> m[k] == if k in mem then mem[k] else under[k])
  }

  lemma MemOverStep(under: Run, mem: Run, start: Bytes, end: Bytes, m: Run, data: Run)
    requires MemOver(under, mem, start, end, m)
    ensures Sorted(Between(InOrder(data), start, end))
    ensures MemOver(under, mem + data, start, end, m + ToMap(Between(InOrder(data), start, end)))
  {
    hide Between, InOrder, Find, Keys;
    var es := InOrder(data);
    BetweenSorted(es, start, end);
    forall k
      ensures k in Keys(Between(es, start, end)) <==> InRange(k, start, end) && k in data
      ensures k in Keys(Between(es, start, end)) ==> Find(Between(es, start, end), k).value == data[k]
    {
      BetweenFind(es, start, end, k);
      FindInOrder(data, k);
    }
  }

  lemma MemOverTree(t: Tree, under: Run, start: Bytes, end: Bytes, m: Run)
    requires MemOver(under, t.mem, start, end, m)
    requires forall k :: k in under ==> InRange(k, start, end) && ShelfSlot(t.shelf, k) == Some(under[k])
    requires forall k :: InRange(k, start, end) && k !in under ==> ShelfSlot(t.shelf, k) == None
    ensures IsScan(t, start, end, LivePairs(InOrder(m)))
  {
    hide IsScan, ShelfSlot, InRange, Reads;
    ScanOf(t, start, end, m);
  }
}
