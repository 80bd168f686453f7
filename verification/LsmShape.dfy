/**
 The shape of the tree over time: which tables a compaction replaces, where tombstones may be, and
 how large the memtable and level 0 can get.
 */
module LsmShape {
  import opened Common
  import opened Bytes
  import opened Entries
  import opened Framing
  import opened Blocks
  import opened MemTables
  import opened Levels
  import opened Manifests
  import opened Compactions
  import opened LevelCompaction
  import opened Lsm
  import opened LsmTrees

  // ---------------------------------------------------------------- replaced tables

  /** Between the least and the greatest key of the level there is a key of the table's range. */
  predicate Meets(sources: seq<Meta>, m: Meta)
  {
    && (exists i :: 0 <= i < |sources| && Le(sources[i].minKey, m.maxKey))
    && (exists i :: 0 <= i < |sources| && Le(m.minKey, sources[i].maxKey))
  }

  lemma {:induction false} LeastIsListed(ms: seq<Meta>) returns (i: nat)
    requires ms != []
    ensures i < |ms| && ms[i].minKey == LeastMin(ms)
  {
    if |ms| == 1 || !Lt(LeastMin(ms[1..]), ms[0].minKey) {
      i := 0;
    } else {
      var j := LeastIsListed(ms[1..]);
      i := j + 1;
    }
  }

  lemma {:induction false} GreatestIsListed(ms: seq<Meta>) returns (i: nat)
    requires ms != []
    ensures i < |ms| && ms[i].maxKey == GreatestMax(ms)
  {
    if |ms| == 1 || !Lt(ms[0].maxKey, GreatestMax(ms[1..])) {
      i := 0;
    } else {
      var j := GreatestIsListed(ms[1..]);
      i := j + 1;
    }
  }

  lemma MeetsHull(ms: seq<Meta>, m: Meta)
    requires ms != []
    ensures Meets(ms, m) <==> Overlaps(m, LeastMin(ms), GreatestMax(ms))
  {
    hide LeastMin, GreatestMax, Le;
    var i := LeastIsListed(ms);
    var j := GreatestIsListed(ms);
    if x :| 0 <= x < |ms| && Le(ms[x].minKey, m.maxKey) {
      LeastMinBelow(ms, ms[x]);
      LeTransitive(LeastMin(ms), ms[x].minKey, m.maxKey);
    }
    if x :| 0 <= x < |ms| && Le(m.minKey, ms[x].maxKey) {
      GreatestMaxAbove(ms, ms[x]);
      LeTransitive(m.minKey, ms[x].maxKey, GreatestMax(ms));
    }
  }

  /**
   A compaction of level `n` replaces exactly the tables of that level and those of the next one
   that meet their key range. Every other table stays listed at its level, with its content. The
   files of the replaced ones are gone, unless the merge kept no entry at all.
   */
  lemma TablesReplacedExactly(s: Shelf, n: nat, m: Meta)
    requires ShelfInv(s) && Stored(s, n) && m in Metas(s.levels)
    ensures var s' := Compact(s, n);
            && (m in Metas(s'.levels) <==> !(m.level == n || (m.level == n + 1 && Meets(Level(s.levels, n), m))))
            && (m in Metas(s'.levels) ==>
                  m.id in s.contents && m.id in s'.contents && s'.contents[m.id] == s.contents[m.id])
            && (m !in Metas(s'.levels) ==> (m.id in s'.contents <==> Kept(s, n) == []))
  {
    hide ShelfInv, Compact, Kept, Meets, LeastMin, GreatestMax;
    var sources := Level(s.levels, n);
    LevelHolds(s, n, m);
    if sources == [] {
      NothingToCompact(s, n);
      StillThere(s, m);
      NothingMeets(m);
    } else {
      MeetsHull(sources, m);
      ListedMetas(s, n, m);
      if m.level == n + 1 { TargetsMeet(s, n, m); }
      CompactMetas(s, n);
      NewIsNotOld(s, n, m);
      if m !in Listed(s.levels, n) { StaysWithContent(s, n, m); } else { FileGoes(s, n, m); }
    }
  }

  lemma NothingMeets(m: Meta)
    ensures !Meets([], m)
  {
  }

  lemma NothingToCompact(s: Shelf, n: nat)
    requires Stored(s, n) && Level(s.levels, n) == []
    ensures Compact(s, n) == s
  {
  }

  lemma LevelHolds(s: Shelf, n: nat, m: Meta)
    requires ShelfInv(s) && m in Metas(s.levels)
    ensures m in Level(s.levels, n) <==> m.level == n
  {
    LevelMetas(s.levels, n, m);
  }

  lemma StillThere(s: Shelf, m: Meta)
    requires ShelfInv(s) && m in Metas(s.levels)
    ensures m.id in s.contents
  {
    assert MetaOk(m, s.nextId, s.contents);
  }

  lemma TargetsMeet(s: Shelf, n: nat, m: Meta)
    requires ShelfInv(s) && m in Metas(s.levels) && m.level == n + 1 && Level(s.levels, n) != []
    ensures m in Targets(s.levels, n) <==> Overlaps(m, LeastMin(Level(s.levels, n)), GreatestMax(Level(s.levels, n)))
  {
    LevelHolds(s, n + 1, m);
    OverlappingKeeps(Level(s.levels, n + 1), LeastMin(Level(s.levels, n)), GreatestMax(Level(s.levels, n)), m);
  }

  lemma NewIsNotOld(s: Shelf, n: nat, m: Meta)
    requires ShelfInv(s) && Stored(s, n) && m in Metas(s.levels)
    ensures m !in Added(s, n)
  {
    assert MetaOk(m, s.nextId, s.contents);
  }

  lemma FileGoes(s: Shelf, n: nat, m: Meta)
    requires ShelfInv(s) && Stored(s, n) && Level(s.levels, n) != [] && m in Listed(s.levels, n)
    ensures m.id in Compact(s, n).contents <==> Kept(s, n) == []
  {
    hide Kept;
    ListingNotEmpty(s, n);
    ListedMetas(s, n, m);
    assert MetaOk(m, s.nextId, s.contents);
  }

  lemma StaysWithContent(s: Shelf, n: nat, m: Meta)
    requires ShelfInv(s) && Stored(s, n) && m in Metas(s.levels) && m !in Listed(s.levels, n)
    ensures m.id in s.contents && m.id in Compact(s, n).contents && Compact(s, n).contents[m.id] == s.contents[m.id]
  {
    IdStays(s, n, m);
    CompactContents(s, n);
  }

  // -------------------------------------------------------------------- tombstones

  predicate NoTombstones(es: seq<Entry>)
  {
    forall i :: 0 <= i < |es| ==> es[i].value.Some?
  }

  /** The tables of the last level hold no tombstones. */
  ghost predicate CleanBottom(s: Shelf)
  {
    |s.levels| >= 2 && forall m :: m in Metas(s.levels) && m.level == |s.levels| - 1 ==>
      m.id in s.contents && NoTombstones(s.contents[m.id])
  }

  lemma {:induction false} LiveOnlyIsLive(es: seq<Entry>)
    ensures NoTombstones(LiveOnly(es))
  {
    if es != [] { LiveOnlyIsLive(es[1..]); }
  }

  lemma FlushCleanBottom(s: Shelf, es: seq<Entry>)
    requires ShelfInv(s) && CleanBottom(s) && Sorted(es) && es != []
    ensures CleanBottom(FlushShelf(s, es))
  {
    hide NoTombstones;
    var s' := FlushShelf(s, es);
    FlushMetas(s, es);
    forall m | m in Metas(s'.levels) && m.level == |s'.levels| - 1
      ensures m.id in s'.contents && NoTombstones(s'.contents[m.id])
    {
      assert MetaOk(m, s.nextId, s.contents);
    }
  }

  lemma LevelsAfter(s: Shelf, n: nat)
    requires Stored(s, n)
    ensures var k := |Compact(s, n).levels|; k == |s.levels| || (n + 2 > |s.levels| && k == n + 2)
  {
  }

  lemma CompactCleanBottom(s: Shelf, n: nat)
    requires ShelfInv(s) && CleanBottom(s) && Stored(s, n)
    ensures CleanBottom(Compact(s, n))
  {
    hide NoTombstones, ShelfInv, Compact, Kept;
    if Level(s.levels, n) == [] {
      NothingToCompact(s, n);
    } else {
      var s' := Compact(s, n);
      LevelsAfter(s, n);
      CompactMetas(s, n);
      forall m | m in Metas(s'.levels) && m.level == |s'.levels| - 1
        ensures m.id in s'.contents && NoTombstones(s'.contents[m.id])
      {
        if m in Metas(s.levels) {
          LevelInside(s, m);
          NewIsNotOld(s, n, m);
          StaysWithContent(s, n, m);
        } else {
          MergedIsLive(s, n, m);
        }
      }
    }
  }

  lemma LevelInside(s: Shelf, m: Meta)
    requires ShelfInv(s) && m in Metas(s.levels)
    ensures m.level < |s.levels|
  {
  }

  lemma MergedIsLive(s: Shelf, n: nat, m: Meta)
    requires ShelfInv(s) && Stored(s, n) && Level(s.levels, n) != [] && m in Added(s, n)
    requires n + 1 >= |s.levels| - 1
    ensures m.id in Compact(s, n).contents && NoTombstones(Compact(s, n).contents[m.id])
  {
    ListingNotEmpty(s, n);
    LiveOnlyIsLive(InOrder(ToMap(Listing(s.contents, Listed(s.levels, n)))));
  }

  lemma ApplyCleanBottom(t: Tree, op: Op)
    requires ShelfInv(t.shelf) && CleanBottom(t.shelf)
    ensures CleanBottom(Apply(t, op).shelf)
  {
    hide ShelfInv, CleanBottom, Compact, FlushShelf;
    match op {
      case Put(_, _) =>
      case Delete(_) =>
      case FlushNow => if InOrder(t.mem) != [] { FlushCleanBottom(t.shelf, InOrder(t.mem)); }
      case CompactLevel(n) => if Stored(t.shelf, n) { CompactCleanBottom(t.shelf, n); }
    }
  }

  lemma {:induction false} ExecCleanBottom(t: Tree, ops: seq<Op>)
    requires ShelfInv(t.shelf) && CleanBottom(t.shelf)
    ensures CleanBottom(Exec(t, ops).shelf)
    decreases |ops|
  {
    hide ShelfInv, CleanBottom, Apply;
    if ops != [] {
      ApplyInv(t, ops[0]);
      ApplyCleanBottom(t, ops[0]);
      ExecCleanBottom(Apply(t, ops[0]), ops[1..]);
    }
  }

  /** After every history from the empty tree the last level holds no tombstones: deletions are forgotten there. */
  lemma LastLevelHasNoTombstones(ops: seq<Op>)
    ensures CleanBottom(Exec(EMPTY_TREE, ops).shelf)
  {
    EmptyTree();
    assert Metas(EMPTY_TREE.shelf.levels) == {};
    ExecCleanBottom(EMPTY_TREE, ops);
  }

  // ------------------------------------------------------------------------- sizes

  /** What the memtable counts is what its entries take in a block, but for eight bytes each. */
  lemma {:induction false} SizeIsBytes(m: Run)
    ensures RunSize(m) + 8 * |m| == |Join(EntryBytes, InOrder(m))|
    decreases |m|
  {
    if m != map[] {
      var es := InOrder(m);
      var low := es[0].key;
      assert low in Keys(es);
      assert Find(es, low) == Some(es[0].value);
      TailOfOrder(m);
      RunSizeWithout(m, low);
      SizeIsBytes(m - {low});
      assert |m - {low}| == |m| - 1;
    }
  }

  lemma TailOfOrder(m: Run)
    requires m != map[]
    ensures InOrder(m) != [] && InOrder(m)[0].key in m && m[InOrder(m)[0].key] == InOrder(m)[0].value
    ensures InOrder(m)[1..] == InOrder(m - {InOrder(m)[0].key})
  {
  }

  /** After every write the memtable is below its limit: a full one has been flushed. */
  lemma MemtableStaysBelowLimit(t: Tree, limit: nat, trigger: nat, ratio: nat)
    requires limit > 0
    ensures RunSize(AfterWrite(t, limit, trigger, ratio).mem) < limit
  {
    hide Settled, Compact;
    if RunSize(t.mem) >= limit {
      assert InOrder(t.mem) == [] ==> ToMap(InOrder(t.mem)) == map[];
      SettledKeepsMem(Flush(t), trigger, ratio);
    }
  }

  lemma SettledKeepsMem(t: Tree, trigger: nat, ratio: nat)
    ensures Settled(t, trigger, ratio).mem == t.mem
  {
  }

  /** Merging level 0 empties it; merging another level leaves it alone. */
  lemma LevelZeroAfter(s: Shelf, n: nat)
    requires ShelfInv(s) && Stored(s, n)
    ensures Level(Compact(s, n).levels, 0) == if n == 0 then [] else Level(s.levels, 0)
  {
    hide Kept;
    var listed := Listed(s.levels, n);
    if Level(s.levels, n) != [] && |s.levels| > 0 {
      if n == 0 { RetainNone(s.levels[0], IdsOf(listed)); } else { RetainAll(s, n); }
    }
  }

  lemma {:induction false} RetainNone(ms: seq<Meta>, ids: set<nat>)
    requires forall m :: m in ms ==> m.id in ids
    ensures Retain(ms, ids) == []
  {
    if ms != [] { RetainNone(ms[1..], ids); }
  }

  lemma {:induction false} RetainOthers(ms: seq<Meta>, ids: set<nat>)
    requires forall m :: m in ms ==> m.id !in ids
    ensures Retain(ms, ids) == ms
  {
    if ms != [] { RetainOthers(ms[1..], ids); }
  }

  lemma RetainAll(s: Shelf, n: nat)
    requires ShelfInv(s) && n > 0 && |s.levels| > 0
    ensures Retain(s.levels[0], IdsOf(Listed(s.levels, n))) == s.levels[0]
  {
    hide ShelfInv, Listed;
    forall m | m in s.levels[0] ensures m.id !in IdsOf(Listed(s.levels, n)) {
      InLevelZero(s, m);
      ListedMetas(s, n, m);
      IdStays(s, n, m);
    }
    RetainOthers(s.levels[0], IdsOf(Listed(s.levels, n)));
  }

  lemma InLevelZero(s: Shelf, m: Meta)
    requires ShelfInv(s) && |s.levels| > 0 && m in s.levels[0]
    ensures m in Metas(s.levels) && m.level == 0
  {
  }

  /** After every write that flushed, level 0 holds fewer tables than the trigger. */
  lemma LevelZeroStaysShort(t: Tree, limit: nat, trigger: nat, ratio: nat)
    requires ShelfInv(t.shelf) && trigger > 0 && RunSize(t.mem) >= limit
    ensures |Level(AfterWrite(t, limit, trigger, ratio).shelf.levels, 0)| < trigger
  {
    hide ShelfInv, Compact, FlushShelf, NeedsLevel, RunSize;
    FlushPreserves(t, []);
    var s := Flush(t).shelf;
    NeedsLevelExactly(s.levels, trigger, ratio);
    match NeedsLevel(s.levels, trigger, ratio) {
      case Some(n) =>
        ListedMetas(s, n, Meta(0, 0, [], []));
        LevelZeroAfter(s, n);
      case None =>
    }
  }
}
