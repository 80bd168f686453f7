/**
 The files of a tree, what opening them recovers, and why a flush may stop after any of its
 effects on the disk.
 */
module LsmDisk {
  import opened Common
  import opened Bytes
  import opened Entries
  import opened Blooms
  import opened SSTables
  import opened Wals
  import opened WalOps
  import opened Levels
  import opened Manifests
  import opened LevelCompaction
  import opened Lsm

  const NUM_LEVELS: nat := 7

  /** Table files are named by their id; the manifest file holds the manifest itself. */
  datatype DiskState = DiskState(manifest: Option<(LevelList, nat)>, tables: map<nat, Bytes>, wal: Option<Bytes>)

  function LoadedManifest(d: DiskState): (LevelList, nat)
  {
    match d.manifest
    case Some(m) => m
    case None => (seq(NUM_LEVELS, _ => []), 0)
  }

  /** The entries a table file gives back; a damaged file gives none. */
  ghost function DecodedFile(file: Bytes): seq<Entry>
  {
    match Open(file)
    case Err(_) => []
    case Ok(r) =>
      if !InBounds(r) then []
      else
        match AllFrom(r, 0)
        case Ok(es) => es
        case Err(_) => []
  }

  ghost function ContentsOf(tables: map<nat, Bytes>): Contents
  {
    map id | id in tables :: DecodedFile(tables[id])
  }

  function WalOf(d: DiskState): Bytes
  {
    match d.wal
    case Some(b) => b
    case None => []
  }

  function RecoveredRun(crc: Checksum, wal: Bytes): Run
  {
    match Recover(crc, wal)
    case Ok(m) => m
    case Err(_) => map[]
  }

  /** The tree that `open` builds from the files. */
  ghost function Recovered(crc: Checksum, d: DiskState): Tree
  {
    Tree(RecoveredRun(crc, WalOf(d)), Shelf(LoadedManifest(d).0, LoadedManifest(d).1, ContentsOf(d.tables)))
  }

  /** An empty directory is the empty tree. */
  lemma EmptyDiskIsEmptyTree(crc: Checksum)
    ensures Recovered(crc, DiskState(None, map[], None)) == EMPTY_TREE
  {
    assert ReadAll(crc, []) == [];
  }

  ghost predicate SameReads(a: Tree, b: Tree)
  {
    forall k :: Reads(a, k) == Reads(b, k)
  }

  lemma DecodeTable(hash: Hasher, file: Bytes, es: seq<Entry>)
    requires IsTable(hash, file, es) && Sorted(es)
    ensures DecodedFile(file) == es
  {
    OpenTable(hash, file, es);
    IterIsAll(hash, Open(file).value, es);
  }

  // -------------------------------------------------------------- flush effects

  function TableWritten(d: DiskState, id: nat, file: Bytes): DiskState
  {
    d.(tables := d.tables[id := file])
  }

  function ManifestSaved(d: DiskState, levels: LevelList, nextId: nat): DiskState
  {
    d.(manifest := Some((levels, nextId)))
  }

  function LogRemoved(d: DiskState): DiskState
  {
    d.(wal := None)
  }

  function LogCreated(d: DiskState): DiskState
  {
    if d.wal.Some? then d else d.(wal := Some([]))
  }

  lemma ContentsWith(tables: map<nat, Bytes>, id: nat, file: Bytes)
    ensures ContentsOf(tables[id := file]) == ContentsOf(tables)[id := DecodedFile(file)]
  {
  }

  lemma SlotIgnores(ms: set<Meta>, c: Contents, c': Contents, k: Bytes)
    requires DistinctTables(ms)
    requires forall m :: m in ms ==> m.id in c && m.id in c' && c'[m.id] == c[m.id]
    ensures TableSlot(ms, c', k) == TableSlot(ms, c, k)
  {
    AbsentIffNone(ms, c, k);
    AbsentIffNone(ms, c', k);
    if m :| m in ms && Has(c, m, k) {
      var w := WinnerExists(ms, c, k, m);
      assert Winner(ms, c', k, w);
      WinnerDecides(ms, c, k, w);
      WinnerDecides(ms, c', k, w);
    }
  }

  /**
   A table file that the manifest does not list is invisible, whatever bytes it holds: a crash in
   the middle of writing it does no harm.
   */
  lemma UnlistedFileIsInvisible(crc: Checksum, d: DiskState, junk: Bytes)
    requires ShelfInv(Recovered(crc, d).shelf)
    ensures SameReads(Recovered(crc, TableWritten(d, LoadedManifest(d).1, junk)), Recovered(crc, d))
  {
    var (levels, id) := LoadedManifest(d);
    var t, t' := Recovered(crc, d), Recovered(crc, TableWritten(d, id, junk));
    ContentsWith(d.tables, id, junk);
    forall m | m in Metas(levels)
      ensures m.id in t.shelf.contents && m.id in t'.shelf.contents && t'.shelf.contents[m.id] == t.shelf.contents[m.id]
    {
      assert MetaOk(m, id, t.shelf.contents);
    }
    forall k ensures Reads(t', k) == Reads(t, k) {
      SlotIgnores(Metas(levels), t.shelf.contents, t'.shelf.contents, k);
    }
  }

  /** The state after the first `stage` effects of a flush of the memtable into `file`. */
  ghost function FlushStage(d: DiskState, file: Bytes, es: seq<Entry>, stage: nat): DiskState
    requires es != []
  {
    var (levels, id) := LoadedManifest(d);
    if stage == 0 then d
    else if stage == 1 then TableWritten(d, id, file)
    else if stage == 2 then ManifestSaved(TableWritten(d, id, file), AddTable(levels, NewMeta(id, 0, es)), id + 1)
    else if stage == 3 then LogRemoved(FlushStage(d, file, es, 2))
    else LogCreated(FlushStage(d, file, es, 3))
  }

  lemma StageFiles(d: DiskState, file: Bytes, es: seq<Entry>, stage: nat)
    requires es != [] && stage >= 2
    ensures var (levels, id) := LoadedManifest(d);
            && FlushStage(d, file, es, stage).tables == d.tables[id := file]
            && LoadedManifest(FlushStage(d, file, es, stage)) == (AddTable(levels, NewMeta(id, 0, es)), id + 1)
  {
  }

  lemma StageShelf(hash: Hasher, crc: Checksum, d: DiskState, file: Bytes, es: seq<Entry>, stage: nat)
    requires es != [] && Sorted(es) && IsTable(hash, file, es) && stage >= 2
    ensures Recovered(crc, FlushStage(d, file, es, stage)).shelf == FlushShelf(Recovered(crc, d).shelf, es)
  {
    hide IsTable, DecodedFile, FlushStage, AddTable, RecoveredRun, LoadedManifest;
    StageFiles(d, file, es, stage);
    DecodeTable(hash, file, es);
    ContentsWith(d.tables, LoadedManifest(d).1, file);
  }

  lemma EmptyLog(crc: Checksum)
    ensures RecoveredRun(crc, []) == map[]
  {
    assert ReadAll(crc, []) == [];
  }

  lemma StageMem(crc: Checksum, d: DiskState, file: Bytes, es: seq<Entry>, stage: nat)
    requires es != []
    ensures Recovered(crc, FlushStage(d, file, es, stage)).mem == if stage <= 2 then Recovered(crc, d).mem else map[]
  {
    EmptyLog(crc);
  }

  /** While the log still exists, the memtable and the new table say the same twice. */
  lemma LoggedTwice(t: Tree, es: seq<Entry>, k: Bytes)
    requires ShelfInv(t.shelf) && es != [] && es == InOrder(t.mem)
    ensures Reads(Tree(t.mem, FlushShelf(t.shelf, es)), k) == Reads(t, k)
  {
    FlushedSlot(t.shelf, es, k);
    FindInOrder(t.mem, k);
  }

  /**
   Flush is crash-atomic: after any number of its effects on the disk, opening the files rebuilds a
   tree with the same reads.
   */
  lemma FlushIsCrashAtomic(hash: Hasher, crc: Checksum, d: DiskState, file: Bytes, stage: nat)
    requires ShelfInv(Recovered(crc, d).shelf) && InOrder(Recovered(crc, d).mem) != []
    requires IsTable(hash, file, InOrder(Recovered(crc, d).mem))
    ensures SameReads(Recovered(crc, FlushStage(d, file, InOrder(Recovered(crc, d).mem), stage)), Recovered(crc, d))
  {
    var t := Recovered(crc, d);
    var es := InOrder(t.mem);
    if stage == 1 {
      UnlistedFileIsInvisible(crc, d, file);
    } else if stage >= 2 {
      StageShelf(hash, crc, d, file, es, stage);
      StageMem(crc, d, file, es, stage);
      forall k ensures Reads(Recovered(crc, FlushStage(d, file, es, stage)), k) == Reads(t, k) {
        if stage == 2 { LoggedTwice(t, es, k); } else { FlushPreserves(t, k); }
      }
    }
  }

  // -------------------------------------------------------------------- class

  class Disk {
    var manifest: Option<(LevelList, nat)>
    var tables: map<nat, Bytes>
    var wal: Option<Bytes>
    /** Every state the files have been in, the present one last. */
    ghost var trail: seq<DiskState>

    function State(): DiskState
      reads this
    {
      DiskState(manifest, tables, wal)
    }

    constructor (d: DiskState)
      ensures State() == d && trail == [d]
    {
      manifest, tables, wal := d.manifest, d.tables, d.wal;
      trail := [d];
    }

    method WriteTable(id: nat, file: Bytes)
      modifies this
      ensures State() == TableWritten(old(State()), id, file) && trail == old(trail) + [State()]
    {
      tables := tables[id := file];
      trail := trail + [State()];
    }

    method RemoveTables(ids: set<nat>)
      modifies this
      ensures State() == old(State()).(tables := old(tables) - ids) && trail == old(trail) + [State()]
    {
      tables := tables - ids;
      trail := trail + [State()];
    }

    /** Write a temporary file, which opening ignores, then rename it over the manifest. */
    method SaveManifest(levels: LevelList, nextId: nat)
      modifies this
      ensures State() == ManifestSaved(old(State()), levels, nextId) && trail == old(trail) + [old(State()), State()]
    {
      trail := trail + [State()];
      manifest := Some((levels, nextId));
      trail := trail + [State()];
    }

    method RemoveLog()
      modifies this
      ensures State() == LogRemoved(old(State())) && trail == old(trail) + [State()]
    {
      wal := None;
      trail := trail + [State()];
    }

    method CreateLog()
      modifies this
      ensures State() == LogCreated(old(State())) && trail == old(trail) + [State()]
    {
      if wal.None? { wal := Some([]); }
      trail := trail + [State()];
    }

    method AppendLog(crc: Checksum, data: Bytes)
      modifies this
      ensures State() == old(State()).(wal := Some(WalOf(old(State())) + EncodeRecord(crc, data)))
      ensures trail == old(trail) + [State()]
    {
      var writer := new WalWriter(crc, if wal.Some? then wal.value else []);
      writer.Append(data);
      wal := Some(writer.file);
      trail := trail + [State()];
    }
  }
}
