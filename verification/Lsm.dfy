/**
 The tree as a value: a memtable above the levels. Any sequence of puts, deletes, flushes and
 compactions reads like a plain map, and a scan lists exactly its live pairs.
 */
module Lsm {
  import opened Common
  import opened Bytes
  import opened Entries
  import opened Levels
  import opened Manifests
  import opened Compactions
  import opened LevelCompaction

  datatype Tree = Tree(mem: Run, shelf: Shelf)

  ghost function TreeSlot(t: Tree, k: Bytes): Option<Slot>
  {
    if k in t.mem then Some(t.mem[k]) else ShelfSlot(t.shelf, k)
  }

  /** What `get` returns. */
  ghost function Reads(t: Tree, k: Bytes): Option<Bytes>
  {
    Visible(TreeSlot(t, k))
  }

  /** The tree stands for the map. */
  ghost predicate Refines(t: Tree, m: map<Bytes, Bytes>)
  {
    forall k :: Reads(t, k) == if k in m then Some(m[k]) else None
  }

  // -------------------------------------------------------------- operations

  function Write(t: Tree, k: Bytes, v: Slot): Tree
  {
    t.(mem := t.mem[k := v])
  }

  ghost function FlushShelf(s: Shelf, es: seq<Entry>): Shelf
    requires es != []
  {
    Shelf(AddTable(s.levels, NewMeta(s.nextId, 0, es)), s.nextId + 1, s.contents[s.nextId := es])
  }

  ghost function Flush(t: Tree): Tree
  {
    if InOrder(t.mem) == [] then t else Tree(map[], FlushShelf(t.shelf, InOrder(t.mem)))
  }

  ghost function CompactTree(t: Tree, n: nat): Tree
    requires Stored(t.shelf, n)
  {
    t.(shelf := Compact(t.shelf, n))
  }

  // ------------------------------------------------------------------- flush

  lemma FlushMetas(s: Shelf, es: seq<Entry>)
    requires ShelfInv(s) && Sorted(es) && es != []
    ensures Placed(FlushShelf(s, es).levels)
    ensures Metas(FlushShelf(s, es).levels) == Metas(s.levels) + {NewMeta(s.nextId, 0, es)}
  {
    AddMetas(s.levels, NewMeta(s.nextId, 0, es));
  }

  lemma OldMetaOk(s: Shelf, es: seq<Entry>, m: Meta)
    requires ShelfInv(s) && es != [] && m in Metas(s.levels)
    ensures m.id < s.nextId && MetaOk(m, s.nextId + 1, FlushShelf(s, es).contents)
  {
    assert MetaOk(m, s.nextId, s.contents);
  }

  /** A flush keeps the shape of the levels. */
  lemma FlushInv(s: Shelf, es: seq<Entry>)
    requires ShelfInv(s) && Sorted(es) && es != []
    ensures ShelfInv(FlushShelf(s, es))
  {
    var s', x := FlushShelf(s, es), NewMeta(s.nextId, 0, es);
    FlushMetas(s, es);
    forall m | m in Metas(s'.levels) ensures MetaOk(m, s'.nextId, s'.contents) && (m != x ==> m.id < s.nextId) {
      if m != x { OldMetaOk(s, es, m); }
    }
    forall l | 0 <= l < |s'.levels| ensures NoRepeats(s'.levels[l]) {
      LevelMetas(s.levels, l, x);
      assert x in Metas(s.levels) ==> x.id < s.nextId by { if x in Metas(s.levels) { OldMetaOk(s, es, x); } }
    }
  }

  lemma FlushedHas(s: Shelf, es: seq<Entry>, m: Meta, k: Bytes)
    requires ShelfInv(s) && es != [] && m in Metas(s.levels)
    ensures m.id < s.nextId && (Has(FlushShelf(s, es).contents, m, k) <==> Has(s.contents, m, k))
    ensures Has(s.contents, m, k) ==> SlotIn(FlushShelf(s, es).contents, m, k) == SlotIn(s.contents, m, k)
  {
    OldMetaOk(s, es, m);
  }

  lemma FlushedHit(s: Shelf, es: seq<Entry>, k: Bytes)
    requires ShelfInv(s) && Sorted(es) && k in Keys(es)
    ensures es != [] && ShelfSlot(FlushShelf(s, es), k) == Find(es, k)
  {
    NoKeys(es);
    var s', x := FlushShelf(s, es), NewMeta(s.nextId, 0, es);
    FlushMetas(s, es);
    forall m | m in Metas(s.levels) ensures Before(x, m) { OldMetaOk(s, es, m); }
    WinnerDecides(Metas(s'.levels), s'.contents, k, x);
  }

  lemma FlushedMiss(s: Shelf, es: seq<Entry>, k: Bytes)
    requires ShelfInv(s) && Sorted(es) && es != [] && k !in Keys(es)
    ensures ShelfSlot(FlushShelf(s, es), k) == ShelfSlot(s, k)
  {
    var s', ms := FlushShelf(s, es), Metas(s.levels);
    FlushMetas(s, es);
    forall m | m in ms ensures Has(s'.contents, m, k) <==> Has(s.contents, m, k) { FlushedHas(s, es, m, k); }
    if m :| m in ms && Has(s.contents, m, k) {
      var w := WinnerExists(ms, s.contents, k, m);
      FlushedHas(s, es, w, k);
      assert Winner(Metas(s'.levels), s'.contents, k, w);
      WinnerDecides(Metas(s'.levels), s'.contents, k, w);
      WinnerDecides(ms, s.contents, k, w);
    } else {
      NoWinner(Metas(s'.levels), s'.contents, k);
      NoWinner(ms, s.contents, k);
    }
  }

  /** The flushed table is searched first and holds exactly the memtable. */
  lemma FlushedSlot(s: Shelf, es: seq<Entry>, k: Bytes)
    requires ShelfInv(s) && Sorted(es) && es != []
    ensures ShelfSlot(FlushShelf(s, es), k) == if Find(es, k).Some? then Find(es, k) else ShelfSlot(s, k)
  {
    if k in Keys(es) { FlushedHit(s, es, k); } else { FlushedMiss(s, es, k); }
  }

  /** A flush changes no read. */
  lemma FlushPreserves(t: Tree, k: Bytes)
    requires ShelfInv(t.shelf)
    ensures ShelfInv(Flush(t).shelf) && Reads(Flush(t), k) == Reads(t, k)
  {
    var es := InOrder(t.mem);
    if es != [] {
      FlushInv(t.shelf, es);
      FlushedSlot(t.shelf, es, k);
      FindInOrder(t.mem, k);
    }
  }

  // ---------------------------------------------------------- whole histories

  datatype Op = Put(key: Bytes, value: Bytes) | Delete(dkey: Bytes) | FlushNow | CompactLevel(n: nat)

  /** The merge precondition: overlapping sources are listed newest first. */
  ghost predicate MayRun(t: Tree, op: Op)
  {
    op.CompactLevel? ==> ListedInSearchOrder(t.shelf.contents, Level(t.shelf.levels, op.n))
  }

  ghost function Apply(t: Tree, op: Op): Tree
  {
    match op
    case Put(k, v) => Write(t, k, Some(v))
    case Delete(k) => Write(t, k, None)
    case FlushNow => Flush(t)
    case CompactLevel(n) => if Stored(t.shelf, n) then CompactTree(t, n) else t
  }

  function ApplyToMap(m: map<Bytes, Bytes>, op: Op): map<Bytes, Bytes>
  {
    match op
    case Put(k, v) => m[k := v]
    case Delete(k) => m - {k}
    case FlushNow => m
    case CompactLevel(_) => m
  }

  lemma ApplyInv(t: Tree, op: Op)
    requires ShelfInv(t.shelf)
    ensures ShelfInv(Apply(t, op).shelf)
  {
    match op {
      case Put(_, _) =>
      case Delete(_) =>
      case FlushNow => FlushPreserves(t, []);
      case CompactLevel(n) =>
        ListedMetas(t.shelf, n, Meta(0, 0, [], []));
        CompactInv(t.shelf, n);
    }
  }

  /** One operation on the tree is the same operation on the map. */
  lemma ApplyRefines(t: Tree, m: map<Bytes, Bytes>, op: Op)
    requires ShelfInv(t.shelf) && Refines(t, m) && MayRun(t, op)
    ensures Refines(Apply(t, op), ApplyToMap(m, op))
  {
    forall k ensures Reads(Apply(t, op), k) == if k in ApplyToMap(m, op) then Some(ApplyToMap(m, op)[k]) else None {
      match op {
        case Put(_, _) =>
        case Delete(_) =>
        case FlushNow => FlushPreserves(t, k);
        case CompactLevel(n) =>
          ListedMetas(t.shelf, n, Meta(0, 0, [], []));
          CompactPreserves(t.shelf, n, k);
      }
    }
  }

  ghost function Exec(t: Tree, ops: seq<Op>): Tree
    decreases |ops|
  {
    if ops == [] then t else Exec(Apply(t, ops[0]), ops[1..])
  }

  function ExecOnMap(m: map<Bytes, Bytes>, ops: seq<Op>): map<Bytes, Bytes>
    decreases |ops|
  {
    if ops == [] then m else ExecOnMap(ApplyToMap(m, ops[0]), ops[1..])
  }

  /** Every compaction along the way meets the merge precondition. */
  ghost predicate RunsCleanly(t: Tree, ops: seq<Op>)
    decreases |ops|
  {
    ops != [] ==> MayRun(t, ops[0]) && RunsCleanly(Apply(t, ops[0]), ops[1..])
  }

  /** The tree refines a plain map over every sequence of operations, and keeps the shape of its levels. */
  lemma {:induction false} HistoryRefines(t: Tree, m: map<Bytes, Bytes>, ops: seq<Op>)
    requires ShelfInv(t.shelf) && Refines(t, m) && RunsCleanly(t, ops)
    ensures Refines(Exec(t, ops), ExecOnMap(m, ops)) && ShelfInv(Exec(t, ops).shelf)
    decreases |ops|
  {
    if ops != [] {
      ApplyInv(t, ops[0]);
      ApplyRefines(t, m, ops[0]);
      HistoryRefines(Apply(t, ops[0]), ApplyToMap(m, ops[0]), ops[1..]);
    }
  }

  const EMPTY_TREE := Tree(map[], Shelf([[], [], [], [], [], [], []], 0, map[]))

  lemma EmptyTree()
    ensures ShelfInv(EMPTY_TREE.shelf) && Refines(EMPTY_TREE, map[])
  {
    assert Metas(EMPTY_TREE.shelf.levels) == {};
    forall k ensures Reads(EMPTY_TREE, k) == None { NoWinner({}, map[], k); }
  }

  /** From the empty tree: after any history the reads are those of the map that saw the same writes. */
  lemma FromEmpty(ops: seq<Op>, k: Bytes)
    requires RunsCleanly(EMPTY_TREE, ops)
    ensures Reads(Exec(EMPTY_TREE, ops), k) == if k in ExecOnMap(map[], ops) then Some(ExecOnMap(map[], ops)[k])
            else None
  {
    EmptyTree();
    HistoryRefines(EMPTY_TREE, map[], ops);
  }

  // ------------------------------------------------- the order of level 0, in fact

  lemma {:induction false} RetainOldestFirst(ms: seq<Meta>, ids: set<nat>)
    requires OldestFirst(ms)
    ensures OldestFirst(Retain(ms, ids))
  {
    if ms != [] {
      var rest := Retain(ms[1..], ids);
      RetainOldestFirst(ms[1..], ids);
      forall i | 0 <= i < |rest| ensures ms[0].id < rest[i].id {
        RetainKeeps(ms[1..], ids, rest[i]);
        var j :| 0 <= j < |ms[1..]| && ms[1..][j] == rest[i];
        assert ms[j + 1] == rest[i];
      }
    }
  }

  lemma FlushKeepsOldestFirst(s: Shelf, es: seq<Entry>)
    requires ShelfInv(s) && es != [] && OldestFirst(Level(s.levels, 0))
    ensures OldestFirst(Level(FlushShelf(s, es).levels, 0))
  {
    forall m | m in Level(s.levels, 0) ensures m.id < s.nextId {
      LevelMetas(s.levels, 0, m);
      assert MetaOk(m, s.nextId, s.contents);
    }
  }

  lemma CompactLevelZero(s: Shelf, n: nat)
    requires Stored(s, n)
    ensures var l := Level(Compact(s, n).levels, 0);
            l == Level(s.levels, 0) || (|s.levels| > 0 && l == Retain(s.levels[0], IdsOf(Listed(s.levels, n))))
                || l == []
  {
  }

  lemma ApplyKeepsOldestFirst(t: Tree, op: Op)
    requires ShelfInv(t.shelf) && OldestFirst(Level(t.shelf.levels, 0))
    ensures OldestFirst(Level(Apply(t, op).shelf.levels, 0))
  {
    var levels := t.shelf.levels;
    match op {
      case Put(_, _) =>
      case Delete(_) =>
      case FlushNow =>
        if InOrder(t.mem) != [] { FlushKeepsOldestFirst(t.shelf, InOrder(t.mem)); }
      case CompactLevel(n) =>
        if |levels| > 0 { RetainOldestFirst(levels[0], IdsOf(Listed(levels, n))); }
        if Stored(t.shelf, n) { CompactLevelZero(t.shelf, n); }
    }
  }

  lemma {:induction false} ExecKeepsOldestFirst(t: Tree, ops: seq<Op>)
    requires ShelfInv(t.shelf) && OldestFirst(Level(t.shelf.levels, 0))
    ensures OldestFirst(Level(Exec(t, ops).shelf.levels, 0)) && ShelfInv(Exec(t, ops).shelf)
    decreases |ops|
  {
    if ops != [] {
      ApplyKeepsOldestFirst(t, ops[0]);
      ApplyInv(t, ops[0]);
      ExecKeepsOldestFirst(Apply(t, ops[0]), ops[1..]);
    }
  }

  /**
   After every history level 0 is listed oldest first, so a compaction of level 0 keeps every read
   if and only if, for every key, the oldest of the tables it reads says the same as the newest.
   */
  lemma LevelZeroCompactionExactly(ops: seq<Op>, k: Bytes)
    ensures var t := Exec(EMPTY_TREE, ops);
            && OldestFirst(Level(t.shelf.levels, 0)) && ShelfInv(t.shelf) && Stored(t.shelf, 0)
            && (Level(t.shelf.levels, 0) != [] ==>
                  (Visible(ShelfSlot(Compact(t.shelf, 0), k)) == Visible(ShelfSlot(t.shelf, k))
                   <==> Visible(Find(Listing(t.shelf.contents, Listed(t.shelf.levels, 0)), k))
                        == Visible(TableSlot(SeqSet(Listed(t.shelf.levels, 0)), t.shelf.contents, k))))
  {
    var t := Exec(EMPTY_TREE, ops);
    EmptyTree();
    ExecKeepsOldestFirst(EMPTY_TREE, ops);
    ListedMetas(t.shelf, 0, Meta(0, 0, [], []));
    if Level(t.shelf.levels, 0) != [] { CompactExactly(t.shelf, 0, k); }
  }

  lemma OneEntry(k: Bytes, v: Bytes)
    ensures InOrder(map[k := Some(v)]) == [Entry(k, Some(v))]
  {
    var m: Run, es := map[k := Some(v)], [Entry(k, Some(v))];
    assert es[0].key == k;
    assert ToMap(es) == m;
    SortedUnique(es, InOrder(m));
  }

  lemma PutThenFlush(s: Shelf, k: Bytes, v: Bytes)
    ensures Flush(Write(Tree(map[], s), k, Some(v))) == Tree(map[], FlushShelf(s, [Entry(k, Some(v))]))
  {
    OneEntry(k, v);
    assert map[][k := Some(v)] == map[k := Some(v)];
  }

  lemma TwoWrites(k: Bytes, v: Bytes, w: Bytes)
    ensures FlushShelf(FlushShelf(EMPTY_TREE.shelf, [Entry(k, Some(v))]), [Entry(k, Some(w))]) == TwoFlushes(k, v, w)
  {
    var m0, m1 := NewMeta(0, 0, [Entry(k, Some(v))]), NewMeta(1, 0, [Entry(k, Some(w))]);
    var none: LevelList := EMPTY_TREE.shelf.levels;
    assert |none| == 7 && none[0] + [m0] == [m0];
    var levels := AddTable(none, m0);
    assert levels == [[m0], [], [], [], [], [], []] && levels[0] + [m1] == [m0, m1];
    assert AddTable(levels, m1) == [[m0, m1], [], [], [], [], [], []];
  }

  /**
   A history that fails: write a key, flush, overwrite it, flush, compact level 0. The map has the
   second value, the tree reads the first.
   */
  lemma OverwrittenValueReturns(k: Bytes, v: Bytes, w: Bytes)
    ensures var ops := [Put(k, v), FlushNow, Put(k, w), FlushNow, CompactLevel(0)];
            && Reads(Exec(EMPTY_TREE, ops), k) == Some(v) && ExecOnMap(map[], ops) == map[k := w]
  {
    hide FlushShelf, Compact, Flush, Stored, InOrder, ShelfSlot;
    var ops := [Put(k, v), FlushNow, Put(k, w), FlushNow, CompactLevel(0)];
    PutThenFlush(EMPTY_TREE.shelf, k, v);
    PutThenFlush(FlushShelf(EMPTY_TREE.shelf, [Entry(k, Some(v))]), k, w);
    TwoWrites(k, v, w);
    OlderWins(k, v, w);
    var t := Tree(map[], TwoFlushes(k, v, w));
    assert ops[1..] == [FlushNow, Put(k, w), FlushNow, CompactLevel(0)];
    assert ops[1..][1..] == [Put(k, w), FlushNow, CompactLevel(0)];
    assert ops[1..][1..][1..] == [FlushNow, CompactLevel(0)];
    assert ops[1..][1..][1..][1..] == [CompactLevel(0)];
    var once := Tree(map[], FlushShelf(EMPTY_TREE.shelf, [Entry(k, Some(v))]));
    assert Exec(EMPTY_TREE, ops) == Exec(Write(EMPTY_TREE, k, Some(v)), ops[1..]) == Exec(once, ops[1..][1..]);
    assert Exec(once, ops[1..][1..]) == Exec(Write(once, k, Some(w)), ops[1..][1..][1..]) == Exec(t, [CompactLevel(0)]);
    assert Exec(t, [CompactLevel(0)]) == CompactTree(t, 0) by { assert [CompactLevel(0)][1..] == []; }
    assert map[][k := v] == map[k := v] && map[k := v][k := w] == map[k := w];
    assert ExecOnMap(map[k := v], ops[1..]) == ExecOnMap(map[k := v], ops[1..][1..]);
    assert ExecOnMap(map[k := w], ops[1..][1..][1..]) == ExecOnMap(map[k := w], [CompactLevel(0)]) == map[k := w];
  }

  // -------------------------------------------------------------------- scan

  type Pairs = seq<(Bytes, Bytes)>

  predicate SortedPairs(ps: Pairs)
  {
    forall i, j :: 0 <= i < j < |ps| ==> Lt(ps[i].0, ps[j].0)
  }

  /** Exactly the live pairs with `start <= key < end`, in key order. */
  ghost predicate IsScan(t: Tree, start: Bytes, end: Bytes, ps: Pairs)
  {
    && SortedPairs(ps)
    && forall k, v :: (k, v) in ps <==> InRange(k, start, end) && Reads(t, k) == Some(v)
  }

  function LivePairs(es: seq<Entry>): Pairs
  {
    if es == [] then []
    else (if es[0].value.Some? then [(es[0].key, es[0].value.value)] else []) + LivePairs(es[1..])
  }

  lemma {:induction false} LivePairsExactly(es: seq<Entry>, k: Bytes, v: Bytes)
    requires Sorted(es)
    ensures (k, v) in LivePairs(es) <==> Find(es, k) == Some(Some(v))
  {
    if es != [] {
      LivePairsExactly(es[1..], k, v);
      LtIrreflexive(k);
      if es[0].key == k && k in Keys(es[1..]) { FirstBelow(es, k); }
    }
  }

  lemma {:induction false} LivePairsSorted(es: seq<Entry>)
    requires Sorted(es)
    ensures SortedPairs(LivePairs(es))
  {
    if es != [] {
      LivePairsSorted(es[1..]);
      var rest := LivePairs(es[1..]);
      forall i | 0 <= i < |rest| ensures Lt(es[0].key, rest[i].0) {
        assert (rest[i].0, rest[i].1) in rest;
        LivePairsExactly(es[1..], rest[i].0, rest[i].1);
        FirstBelow(es, rest[i].0);
      }
    }
  }
}
