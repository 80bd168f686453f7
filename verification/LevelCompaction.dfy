/**
 One compaction step on the levels: what it replaces, what it writes, and exactly which lookups
 it preserves.
 */
module LevelCompaction {
  import opened Common
  import opened Bytes
  import opened Entries
  import opened Levels
  import opened Manifests
  import opened Compactions

  /** The tables of a tree: the manifest and the contents of the files it names. */
  datatype Shelf = Shelf(levels: LevelList, nextId: nat, contents: Contents)

  predicate NoRepeats(ms: seq<Meta>)
  {
    forall i, j :: 0 <= i < j < |ms| ==> ms[i] != ms[j]
  }

  ghost predicate ShelfInv(s: Shelf)
  {
    && Placed(s.levels) && (forall l :: 0 <= l < |s.levels| ==> NoRepeats(s.levels[l]))
    && ShelfOk(Metas(s.levels), s.nextId, s.contents)
  }

  /** What the tables answer for a key. */
  ghost function ShelfSlot(s: Shelf, k: Bytes): Option<Slot>
  {
    TableSlot(Metas(s.levels), s.contents, k)
  }

  function Targets(levels: LevelList, n: nat): seq<Meta>
  {
    var sources := Level(levels, n);
    if sources == [] then [] else Overlapping(Level(levels, n + 1), LeastMin(sources), GreatestMax(sources))
  }

  /** The tables read by the merge, in the order in which they are read. */
  function Listed(levels: LevelList, n: nat): seq<Meta>
  {
    Level(levels, n) + Targets(levels, n)
  }

  function IdsOf(ms: seq<Meta>): set<nat>
  {
    set m | m in ms :: m.id
  }

  predicate Deepest(levels: LevelList, n: nat)
  {
    n + 1 >= |levels| - 1
  }

  ghost predicate Stored(s: Shelf, n: nat)
  {
    forall m :: m in Listed(s.levels, n) ==> m.id in s.contents
  }

  ghost function Kept(s: Shelf, n: nat): seq<Entry>
    requires Stored(s, n)
  {
    var merged := InOrder(ToMap(Listing(s.contents, Listed(s.levels, n))));
    if Deepest(s.levels, n) then LiveOnly(merged) else merged
  }

  function NewMeta(id: nat, level: nat, es: seq<Entry>): Meta
    requires es != []
  {
    Meta(id, level, es[0].key, es[|es| - 1].key)
  }

  /** Level `n` merged into the next one. Files of replaced tables go when a new table is written. */
  ghost function Compact(s: Shelf, n: nat): Shelf
    requires Stored(s, n)
  {
    var listed := Listed(s.levels, n);
    if Level(s.levels, n) == [] then s
    else
      var levels := RemoveTables(s.levels, IdsOf(listed));
      if Listing(s.contents, listed) == [] then s.(levels := levels)
      else
        var kept := Kept(s, n);
        if kept == [] then s.(levels := levels, nextId := s.nextId + 1)
        else Shelf(AddTable(levels, NewMeta(s.nextId, n + 1, kept)), s.nextId + 1,
            (s.contents - IdsOf(listed))[s.nextId := kept])
  }

  // ----------------------------------------------------------- replaced tables

  lemma ListedMetas(s: Shelf, n: nat, m: Meta)
    requires ShelfInv(s)
    ensures m in Listed(s.levels, n) <==>
              m in Metas(s.levels) && (m.level == n || (m.level == n + 1 && m in Targets(s.levels, n)))
    ensures Stored(s, n)
  {
    LevelMetas(s.levels, n, m);
    LevelMetas(s.levels, n + 1, m);
    var sources := Level(s.levels, n);
    if sources != [] { OverlappingKeeps(Level(s.levels, n + 1), LeastMin(sources), GreatestMax(sources), m); }
    forall x | x in Listed(s.levels, n) ensures x.id in s.contents {
      LevelMetas(s.levels, n, x);
      LevelMetas(s.levels, n + 1, x);
      if sources != [] { OverlappingKeeps(Level(s.levels, n + 1), LeastMin(sources), GreatestMax(sources), x); }
      assert MetaOk(x, s.nextId, s.contents);
    }
  }

  /** A table of the next level that the merge leaves alone lies wholly on one side of the sources. */
  lemma OnOneSide(s: Shelf, n: nat, m: Meta)
    requires ShelfInv(s) && Level(s.levels, n) != [] && m in Metas(s.levels) && m.level == n + 1
             && m !in Listed(s.levels, n)
    ensures var src := Level(s.levels, n); Lt(m.maxKey, LeastMin(src)) || Lt(GreatestMax(src), m.minKey)
  {
    var src := Level(s.levels, n);
    LevelMetas(s.levels, n + 1, m);
    OverlappingKeeps(Level(s.levels, n + 1), LeastMin(src), GreatestMax(src), m);
    LtNotLe(m.maxKey, LeastMin(src));
    LtNotLe(GreatestMax(src), m.minKey);
  }

  lemma RangeOk(m: Meta, nextId: nat, c: Contents)
    requires MetaOk(m, nextId, c)
    ensures Le(m.minKey, m.maxKey)
  {
    var es := c[m.id];
    if |es| > 1 { assert Lt(es[0].key, es[|es| - 1].key); }
  }

  lemma LtLeTransitive(a: Bytes, b: Bytes, c: Bytes)
    requires (Lt(a, b) && Le(b, c)) || (Le(a, b) && Lt(b, c))
    ensures Lt(a, c)
  {
    if a != b && b != c { LtTransitive(a, b, c); }
  }

  /** Left of the sources means left of every replaced table. */
  lemma LeftOfAll(s: Shelf, n: nat, m: Meta, g: Meta)
    requires ShelfInv(s) && Level(s.levels, n) != [] && m in Metas(s.levels) && m.level == n + 1
             && m !in Listed(s.levels, n)
    requires Lt(m.maxKey, LeastMin(Level(s.levels, n))) && g in Listed(s.levels, n)
    ensures Lt(m.maxKey, g.minKey)
  {
    var src := Level(s.levels, n);
    ListedMetas(s, n, g);
    if g in src {
      LeastMinBelow(src, g);
      LtLeTransitive(m.maxKey, LeastMin(src), g.minKey);
    } else {
      OverlappingKeeps(Level(s.levels, n + 1), LeastMin(src), GreatestMax(src), g);
      assert Apart(m, g);
      if Lt(g.maxKey, m.minKey) {
        RangeOk(m, s.nextId, s.contents);
        LtLeTransitive(g.maxKey, m.minKey, m.maxKey);
        LtTransitive(g.maxKey, m.maxKey, LeastMin(src));
        LtNotLe(g.maxKey, LeastMin(src));
      }
    }
  }

  lemma RightOfAll(s: Shelf, n: nat, m: Meta, g: Meta)
    requires ShelfInv(s) && Level(s.levels, n) != [] && m in Metas(s.levels) && m.level == n + 1
             && m !in Listed(s.levels, n)
    requires Lt(GreatestMax(Level(s.levels, n)), m.minKey) && g in Listed(s.levels, n)
    ensures Lt(g.maxKey, m.minKey)
  {
    var src := Level(s.levels, n);
    ListedMetas(s, n, g);
    if g in src {
      GreatestMaxAbove(src, g);
      LtLeTransitive(g.maxKey, GreatestMax(src), m.minKey);
    } else {
      OverlappingKeeps(Level(s.levels, n + 1), LeastMin(src), GreatestMax(src), g);
      assert Apart(m, g);
      if Lt(m.maxKey, g.minKey) {
        RangeOk(m, s.nextId, s.contents);
        LtLeTransitive(m.minKey, m.maxKey, g.minKey);
        LtTransitive(GreatestMax(src), m.minKey, g.minKey);
        LtNotLe(GreatestMax(src), g.minKey);
      }
    }
  }

  lemma ReplacedByMerge(s: Shelf, n: nat)
    requires ShelfInv(s) && Level(s.levels, n) != []
    ensures Replaced(Metas(s.levels), n, SeqSet(Listed(s.levels, n)))
  {
    var ms, gone := Metas(s.levels), SeqSet(Listed(s.levels, n));
    forall m | m in ms || m in gone
      ensures m in gone <==> m in ms && (m.level == n || (m.level == n + 1 && m in Targets(s.levels, n)))
    {
      ListedMetas(s, n, m);
    }
    forall m, g | m in ms - gone && g in gone && m.level == n + 1
      ensures Apart(m, g)
    {
      OnOneSide(s, n, m);
      if Lt(m.maxKey, LeastMin(Level(s.levels, n))) { LeftOfAll(s, n, m, g); } else { RightOfAll(s, n, m, g); }
    }
  }

  lemma RemovedMetas(s: Shelf, n: nat)
    requires ShelfInv(s)
    ensures var levels := RemoveTables(s.levels, IdsOf(Listed(s.levels, n)));
            Placed(levels) && Metas(levels) == Metas(s.levels) - SeqSet(Listed(s.levels, n))
  {
    var listed := Listed(s.levels, n);
    RemoveMetas(s.levels, IdsOf(listed));
    forall m | m in Metas(s.levels)
      ensures m.id in IdsOf(listed) <==> m in listed
    {
      if m.id in IdsOf(listed) {
        var x :| x in listed && x.id == m.id;
        ListedMetas(s, n, x);
      }
    }
  }

  // -------------------------------------------------------------- merged table

  lemma FindInOrder(m: Run, k: Bytes)
    ensures Find(InOrder(m), k) == if k in m then Some(m[k]) else None
  {
    assert ToMap(InOrder(m)) == m;
  }

  /** Whatever the merge keeps came from a replaced table, and what it says of a key is the first listed entry. */
  lemma KeptAnswers(s: Shelf, n: nat, k: Bytes)
    requires ShelfInv(s) && Stored(s, n)
    ensures Sorted(Kept(s, n))
    ensures var all := Listing(s.contents, Listed(s.levels, n));
            Find(Kept(s, n), k) == if Deepest(s.levels, n) && Find(all, k) == Some(None) then None else Find(all, k)
  {
    var merged := InOrder(ToMap(Listing(s.contents, Listed(s.levels, n))));
    FindInOrder(ToMap(Listing(s.contents, Listed(s.levels, n))), k);
    LiveOnlyFind(merged, k);
    LiveOnlySorted(merged);
  }

  lemma ListedHolds(c: Contents, ms: seq<Meta>, k: Bytes)
    requires forall m :: m in ms ==> m.id in c
    ensures Find(Listing(c, ms), k).Some? <==> exists g :: g in SeqSet(ms) && Has(c, g, k)
  {
    var i := FirstIndex(c, ms, k);
    if i < |ms| {
      FirstListed(c, ms, i, k);
      assert ms[i] in SeqSet(ms);
    } else {
      forall m | m in ms ensures !Has(c, m, k) { var j :| 0 <= j < |ms| && ms[j] == m; }
      NotListed(c, ms, k);
    }
  }

  /** A key of the merged table belongs to a replaced table. */
  lemma KeptKey(s: Shelf, n: nat, k: Bytes) returns (g: Meta)
    requires ShelfInv(s) && Stored(s, n) && k in Keys(Kept(s, n))
    ensures g in Listed(s.levels, n) && g in Metas(s.levels) && Has(s.contents, g, k)
  {
    KeptAnswers(s, n, k);
    ListedHolds(s.contents, Listed(s.levels, n), k);
    g :| g in SeqSet(Listed(s.levels, n)) && Has(s.contents, g, k);
    ListedMetas(s, n, g);
  }

  lemma KeyRightOf(s: Shelf, n: nat, m: Meta, k: Bytes)
    requires ShelfInv(s) && Stored(s, n) && Level(s.levels, n) != [] && k in Keys(Kept(s, n))
    requires m in Metas(s.levels) && m.level == n + 1 && m !in Listed(s.levels, n)
    requires Lt(m.maxKey, LeastMin(Level(s.levels, n)))
    ensures Lt(m.maxKey, k)
  {
    var g := KeptKey(s, n, k);
    LeftOfAll(s, n, m, g);
    KeyInRange(g, s.nextId, s.contents, k);
    LtLeTransitive(m.maxKey, g.minKey, k);
  }

  lemma KeyLeftOf(s: Shelf, n: nat, m: Meta, k: Bytes)
    requires ShelfInv(s) && Stored(s, n) && Level(s.levels, n) != [] && k in Keys(Kept(s, n))
    requires m in Metas(s.levels) && m.level == n + 1 && m !in Listed(s.levels, n)
    requires Lt(GreatestMax(Level(s.levels, n)), m.minKey)
    ensures Lt(k, m.minKey)
  {
    var g := KeptKey(s, n, k);
    RightOfAll(s, n, m, g);
    KeyInRange(g, s.nextId, s.contents, k);
    LtLeTransitive(k, g.maxKey, m.minKey);
  }

  /** The merged table is apart from every table of its level that stays. */
  lemma NewIsApart(s: Shelf, n: nat, m: Meta)
    requires ShelfInv(s) && Stored(s, n) && Level(s.levels, n) != [] && Kept(s, n) != []
    requires m in Metas(s.levels) && m.level == n + 1 && m !in Listed(s.levels, n)
    ensures Apart(m, NewMeta(s.nextId, n + 1, Kept(s, n)))
  {
    hide Kept, ShelfInv, Listed, Lt, Level, Metas, LeastMin, GreatestMax, Stored;
    var kept := Kept(s, n);
    OnOneSide(s, n, m);
    assert kept[0].key in Keys(kept) && kept[|kept| - 1].key in Keys(kept);
    if Lt(m.maxKey, LeastMin(Level(s.levels, n))) {
      KeyRightOf(s, n, m, kept[0].key);
    } else {
      KeyLeftOf(s, n, m, kept[|kept| - 1].key);
    }
  }

  ghost function Added(s: Shelf, n: nat): set<Meta>
    requires Stored(s, n)
  {
    if Kept(s, n) == [] then {} else {NewMeta(s.nextId, n + 1, Kept(s, n))}
  }

  lemma ListingNotEmpty(s: Shelf, n: nat)
    requires ShelfInv(s) && Stored(s, n) && Level(s.levels, n) != []
    ensures Listing(s.contents, Listed(s.levels, n)) != []
  {
    var m := Listed(s.levels, n)[0];
    ListedMetas(s, n, m);
    assert MetaOk(m, s.nextId, s.contents);
  }

  lemma CompactMetas(s: Shelf, n: nat)
    requires ShelfInv(s) && Stored(s, n) && Level(s.levels, n) != []
    ensures Placed(Compact(s, n).levels)
    ensures Metas(Compact(s, n).levels) == Metas(s.levels) - SeqSet(Listed(s.levels, n)) + Added(s, n)
  {
    ListingNotEmpty(s, n);
    RemovedMetas(s, n);
    if Kept(s, n) != [] {
      AddMetas(RemoveTables(s.levels, IdsOf(Listed(s.levels, n))), NewMeta(s.nextId, n + 1, Kept(s, n)));
    }
  }

  lemma IdStays(s: Shelf, n: nat, m: Meta)
    requires ShelfInv(s) && m in Metas(s.levels) && m !in Listed(s.levels, n)
    ensures m.id !in IdsOf(Listed(s.levels, n)) && m.id < s.nextId && m.id in s.contents
  {
    assert MetaOk(m, s.nextId, s.contents);
    if m.id in IdsOf(Listed(s.levels, n)) {
      var x :| x in Listed(s.levels, n) && x.id == m.id;
      ListedMetas(s, n, x);
    }
  }

  lemma CompactContents(s: Shelf, n: nat)
    requires Stored(s, n)
    ensures var c := Compact(s, n).contents;
            c == s.contents || c == (s.contents - IdsOf(Listed(s.levels, n)))[s.nextId := Kept(s, n)]
  {
  }

  lemma StaysStored(s: Shelf, n: nat, m: Meta)
    requires ShelfInv(s) && Stored(s, n) && m in Metas(s.levels) && m !in Listed(s.levels, n)
    ensures m.id in s.contents && m.id in Compact(s, n).contents && Compact(s, n).contents[m.id] == s.contents[m.id]
  {
    IdStays(s, n, m);
    CompactContents(s, n);
  }

  lemma AddedIsApart(s: Shelf, n: nat, x: Meta, m: Meta)
    requires ShelfInv(s) && Stored(s, n) && Level(s.levels, n) != [] && x in Added(s, n)
    requires m in Metas(s.levels) && m !in Listed(s.levels, n)
    ensures m.level == n + 1 ==> Apart(m, x)
  {
    if m.level == n + 1 { NewIsApart(s, n, m); }
  }

  lemma AddedIsNew(s: Shelf, n: nat, x: Meta)
    requires ShelfInv(s) && Stored(s, n) && x in Added(s, n)
    ensures x !in Metas(s.levels) && x.level == n + 1
  {
    assert x in Metas(s.levels) ==> MetaOk(x, s.nextId, s.contents);
  }

  lemma CompactMerged(s: Shelf, n: nat)
    requires ShelfInv(s) && Stored(s, n) && Level(s.levels, n) != []
    ensures Merged(Metas(s.levels), s.contents, n, SeqSet(Listed(s.levels, n)), Added(s, n), Compact(s, n).contents)
  {
    var ms, gone, added, c' := Metas(s.levels), SeqSet(Listed(s.levels, n)), Added(s, n), Compact(s, n).contents;
    forall m | m in ms - gone
      ensures m.id in s.contents && m.id in c' && c'[m.id] == s.contents[m.id]
    {
      StaysStored(s, n, m);
    }
    forall x, m | x in added && m in ms - gone
      ensures m.level == n + 1 ==> Apart(m, x)
    {
      AddedIsApart(s, n, x, m);
    }
    forall x | x in added ensures x !in ms && x.level == n + 1 { AddedIsNew(s, n, x); }
  }

  lemma CompactMetaOk(s: Shelf, n: nat, m: Meta)
    requires ShelfInv(s) && Stored(s, n) && Level(s.levels, n) != []
    requires m in Metas(s.levels) - SeqSet(Listed(s.levels, n)) + Added(s, n)
    ensures MetaOk(m, s.nextId + 1, Compact(s, n).contents)
  {
    ListingNotEmpty(s, n);
    if m in Added(s, n) {
      KeptAnswers(s, n, m.minKey);
    } else {
      assert MetaOk(m, s.nextId, s.contents);
      StaysStored(s, n, m);
    }
  }

  lemma CompactDistinct(s: Shelf, n: nat)
    requires ShelfInv(s) && Stored(s, n)
    ensures DistinctTables(Metas(s.levels) - SeqSet(Listed(s.levels, n)) + Added(s, n))
  {
    forall m | m in Metas(s.levels) ensures m.id < s.nextId { assert MetaOk(m, s.nextId, s.contents); }
  }

  // ------------------------------------------------------------------ theorems

  lemma {:induction false} RetainNoRepeats(ms: seq<Meta>, ids: set<nat>)
    requires NoRepeats(ms)
    ensures NoRepeats(Retain(ms, ids))
  {
    if ms != [] {
      RetainNoRepeats(ms[1..], ids);
      RetainKeeps(ms[1..], ids, ms[0]);
      assert ms[0] !in ms[1..];
    }
  }

  lemma {:induction false} OverlappingNoRepeats(ms: seq<Meta>, lo: Bytes, hi: Bytes)
    requires NoRepeats(ms)
    ensures NoRepeats(Overlapping(ms, lo, hi))
  {
    if ms != [] {
      OverlappingNoRepeats(ms[1..], lo, hi);
      OverlappingKeeps(ms[1..], lo, hi, ms[0]);
      assert ms[0] !in ms[1..];
    }
  }

  lemma CompactNoRepeats(s: Shelf, n: nat, l: nat)
    requires ShelfInv(s) && Stored(s, n) && Level(s.levels, n) != [] && l < |Compact(s, n).levels|
    ensures NoRepeats(Compact(s, n).levels[l])
  {
    hide Kept, Listed, Listing, IdsOf;
    var removed := RemoveTables(s.levels, IdsOf(Listed(s.levels, n)));
    ListingNotEmpty(s, n);
    if l < |s.levels| { RetainNoRepeats(s.levels[l], IdsOf(Listed(s.levels, n))); }
    if Kept(s, n) != [] && l == n + 1 {
      var x := NewMeta(s.nextId, n + 1, Kept(s, n));
      RemovedMetas(s, n);
      LevelMetas(removed, l, x);
      assert x in Metas(s.levels) ==> MetaOk(x, s.nextId, s.contents);
    }
  }

  lemma CompactDisjoint(s: Shelf, n: nat)
    requires ShelfInv(s) && Stored(s, n) && Level(s.levels, n) != []
    ensures DisjointLevels(Metas(s.levels) - SeqSet(Listed(s.levels, n)) + Added(s, n))
  {
    CompactMerged(s, n);
  }

  /** Compaction keeps the shape: ids stay distinct, ranges right, levels 1 and up pairwise disjoint. */
  lemma CompactInv(s: Shelf, n: nat)
    requires ShelfInv(s) && Stored(s, n)
    ensures ShelfInv(Compact(s, n))
  {
    if Level(s.levels, n) != [] {
      CompactMetas(s, n);
      CompactDistinct(s, n);
      CompactDisjoint(s, n);
      ListingNotEmpty(s, n);
      forall m | m in Metas(Compact(s, n).levels) ensures MetaOk(m, s.nextId + 1, Compact(s, n).contents) {
        CompactMetaOk(s, n, m);
      }
      forall l | 0 <= l < |Compact(s, n).levels| ensures NoRepeats(Compact(s, n).levels[l]) {
        CompactNoRepeats(s, n, l);
      }
    }
  }

  lemma AddedAnswers(s: Shelf, n: nat, k: Bytes)
    requires ShelfInv(s) && Stored(s, n) && Level(s.levels, n) != []
    ensures AddedSlot(Added(s, n), Compact(s, n).contents, k) == Find(Kept(s, n), k)
  {
    ListingNotEmpty(s, n);
    if k in Keys(Kept(s, n)) {
      var x := NewMeta(s.nextId, n + 1, Kept(s, n));
      assert x in Added(s, n) && Has(Compact(s, n).contents, x, k);
    }
  }

  /** The deepest levels: nothing lies below the target of the merge. */
  ghost predicate NothingBelow(s: Shelf, n: nat)
  {
    Deepest(s.levels, n) ==> forall m :: m in Metas(s.levels) ==> m.level <= n + 1
  }

  lemma DeepestIsDeepest(s: Shelf, n: nat)
    requires ShelfInv(s)
    ensures NothingBelow(s, n)
  {
  }

  /**
   Compaction, exactly: a key reads the same after the merge if and only if a level above hides it
   or the first listed table that holds it reads like the one a lookup would have found first.
   */
  lemma CompactExactly(s: Shelf, n: nat, k: Bytes)
    requires ShelfInv(s) && Stored(s, n) && Level(s.levels, n) != []
    ensures Visible(ShelfSlot(Compact(s, n), k)) == Visible(ShelfSlot(s, k))
            <==> (Shadowed(Metas(s.levels), s.contents, n, k)
                  || Visible(Find(Listing(s.contents, Listed(s.levels, n)), k))
                     == Visible(TableSlot(SeqSet(Listed(s.levels, n)), s.contents, k)))
  {
    var ms, gone, added := Metas(s.levels), SeqSet(Listed(s.levels, n)), Added(s, n);
    ReplacedByMerge(s, n);
    CompactMetas(s, n);
    CompactMerged(s, n);
    CompactDistinct(s, n);
    DeepestIsDeepest(s, n);
    forall m | m in ms - gone + added ensures MetaOk(m, s.nextId + 1, Compact(s, n).contents)
        { CompactMetaOk(s, n, m); }
    AddedAnswers(s, n, k);
    KeptAnswers(s, n, k);
    ListedHolds(s.contents, Listed(s.levels, n), k);
    CompactionExactly(ms, s.contents, n, s.nextId, k, gone, added, Compact(s, n).contents,
                      Find(Listing(s.contents, Listed(s.levels, n)), k), Deepest(s.levels, n));
  }

  lemma SharedTargets(s: Shelf, n: nat, i: nat, j: nat, k: Bytes)
    requires ShelfInv(s) && Level(s.levels, n) != [] && i < j < |Targets(s.levels, n)|
    ensures var t := Targets(s.levels, n); !(Has(s.contents, t[i], k) && Has(s.contents, t[j], k))
  {
    var src, t := Level(s.levels, n), Targets(s.levels, n);
    OverlappingNoRepeats(Level(s.levels, n + 1), LeastMin(src), GreatestMax(src));
    OverlappingKeeps(Level(s.levels, n + 1), LeastMin(src), GreatestMax(src), t[i]);
    OverlappingKeeps(Level(s.levels, n + 1), LeastMin(src), GreatestMax(src), t[j]);
    LevelMetas(s.levels, n + 1, t[i]);
    LevelMetas(s.levels, n + 1, t[j]);
    if Has(s.contents, t[i], k) { ApartShareNothing(t[i], t[j], s.nextId, s.contents, k); }
  }

  lemma SourceBeforeTarget(s: Shelf, n: nat, a: Meta, b: Meta)
    requires ShelfInv(s) && Level(s.levels, n) != [] && a in Level(s.levels, n) && b in Targets(s.levels, n)
    ensures Before(a, b)
  {
    var src := Level(s.levels, n);
    OverlappingKeeps(Level(s.levels, n + 1), LeastMin(src), GreatestMax(src), b);
    LevelMetas(s.levels, n, a);
    LevelMetas(s.levels, n + 1, b);
  }

  lemma ListedOrder(s: Shelf, n: nat)
    requires ShelfInv(s) && ListedInSearchOrder(s.contents, Level(s.levels, n)) && Level(s.levels, n) != []
    ensures ListedInSearchOrder(s.contents, Listed(s.levels, n))
  {
    var src, t, all := Level(s.levels, n), Targets(s.levels, n), Listed(s.levels, n);
    forall i, j, k | 0 <= i < j < |all|
      ensures Has(s.contents, all[i], k) && Has(s.contents, all[j], k) ==> Before(all[i], all[j])
    {
      if i >= |src| {
        SharedTargets(s, n, i - |src|, j - |src|, k);
      } else if j >= |src| {
        SourceBeforeTarget(s, n, src[i], t[j - |src|]);
      }
    }
  }

  /** With overlapping sources listed newest first, no lookup changes, tombstones dropped or not. */
  lemma CompactPreserves(s: Shelf, n: nat, k: Bytes)
    requires ShelfInv(s) && Stored(s, n) && ListedInSearchOrder(s.contents, Level(s.levels, n))
    ensures Visible(ShelfSlot(Compact(s, n), k)) == Visible(ShelfSlot(s, k))
  {
    if Level(s.levels, n) != [] {
      CompactExactly(s, n, k);
      ListedOrder(s, n);
      MergeIsLookup(s.contents, Listed(s.levels, n), k);
    }
  }

  /** From level 1 on the sources are disjoint, so any listing order will do. */
  lemma DeepLevelsNeedNoOrder(s: Shelf, n: nat)
    requires ShelfInv(s) && n >= 1
    ensures ListedInSearchOrder(s.contents, Level(s.levels, n))
  {
    var src := Level(s.levels, n);
    forall i, j, k | 0 <= i < j < |src|
      ensures !(Has(s.contents, src[i], k) && Has(s.contents, src[j], k))
    {
      LevelMetas(s.levels, n, src[i]);
      LevelMetas(s.levels, n, src[j]);
      if Has(s.contents, src[i], k) { ApartShareNothing(src[i], src[j], s.nextId, s.contents, k); }
    }
  }

  // ---------------------------------------------------------- the order of level 0

  /** A flush appends, so level 0 is listed from the oldest table to the newest. */
  predicate OldestFirst(ms: seq<Meta>)
  {
    forall i, j :: 0 <= i < j < |ms| ==> ms[i].id < ms[j].id
  }

  /** In that order the merge keeps the oldest entry of each key, where a lookup finds the newest. */
  lemma OldestFirstIsWrongWay(s: Shelf, i: nat, j: nat, k: Bytes)
    requires ShelfInv(s) && OldestFirst(Level(s.levels, 0)) && i < j < |Level(s.levels, 0)|
    requires Has(s.contents, Level(s.levels, 0)[i], k) && Has(s.contents, Level(s.levels, 0)[j], k)
    ensures !ListedInSearchOrder(s.contents, Level(s.levels, 0))
  {
    var src := Level(s.levels, 0);
    LevelMetas(s.levels, 0, src[i]);
    LevelMetas(s.levels, 0, src[j]);
    assert Has(s.contents, src[i], k) && Has(s.contents, src[j], k);
  }

  function Flushed(k: Bytes, id: nat): Meta
  {
    Meta(id, 0, k, k)
  }

  /** Two flushed tables of one key: the older says `v`, the newer says `w`. */
  function TwoFlushes(k: Bytes, v: Bytes, w: Bytes): Shelf
  {
    Shelf([[Flushed(k, 0), Flushed(k, 1)], [], [], [], [], [], []], 2,
          map[0 := [Entry(k, Some(v))], 1 := [Entry(k, Some(w))]])
  }

  lemma TwoFlushesTables(k: Bytes, v: Bytes, w: Bytes)
    ensures var c := TwoFlushes(k, v, w).contents;
            && MetaOk(Flushed(k, 0), 2, c) && MetaOk(Flushed(k, 1), 2, c)
            && Has(c, Flushed(k, 0), k) && Has(c, Flushed(k, 1), k)
            && Find(c[0], k) == Some(Some(v)) && Find(c[1], k) == Some(Some(w))
  {
    var c: Contents := TwoFlushes(k, v, w).contents;
    assert c[0][0].key == k && c[1][0].key == k;
  }

  lemma TwoFlushesMetas(k: Bytes, v: Bytes, w: Bytes)
    ensures Metas(TwoFlushes(k, v, w).levels) == {Flushed(k, 0), Flushed(k, 1)}
  {
    var levels := TwoFlushes(k, v, w).levels;
    assert Flushed(k, 0) in levels[0] && Flushed(k, 1) in levels[0];
    assert forall l :: 1 <= l < |levels| ==> levels[l] == [];
  }

  lemma TwoFlushesShape(k: Bytes, v: Bytes, w: Bytes)
    ensures var s := TwoFlushes(k, v, w);
            && ShelfInv(s) && OldestFirst(Level(s.levels, 0)) && Listed(s.levels, 0) == [Flushed(k, 0), Flushed(k, 1)]
  {
    hide MetaOk;
    TwoFlushesTables(k, v, w);
    TwoFlushesMetas(k, v, w);
    var levels := TwoFlushes(k, v, w).levels;
    assert levels[0] == [Flushed(k, 0), Flushed(k, 1)] && levels[1] == [];
  }

  lemma TwoFlushesMerge(k: Bytes, v: Bytes, w: Bytes)
    ensures Stored(TwoFlushes(k, v, w), 0) && Find(Kept(TwoFlushes(k, v, w), 0), k) == Some(Some(v))
  {
    hide ShelfInv, Kept, Listed;
    TwoFlushesTables(k, v, w);
    TwoFlushesShape(k, v, w);
    var s := TwoFlushes(k, v, w);
    FirstListed(s.contents, [Flushed(k, 0), Flushed(k, 1)], 0, k);
    KeptAnswers(s, 0, k);
  }

  /** Merging them brings the overwritten value back. */
  lemma OlderWins(k: Bytes, v: Bytes, w: Bytes)
    ensures var s := TwoFlushes(k, v, w); Stored(s, 0) && Visible(ShelfSlot(Compact(s, 0), k)) == Some(v)
  {
    hide ShelfInv, Kept, Compact, ShelfSlot;
    TwoFlushesShape(k, v, w);
    TwoFlushesMerge(k, v, w);
    CompactedFirst(TwoFlushes(k, v, w), k, v);
  }

  lemma CompactedFirst(s: Shelf, k: Bytes, v: Bytes)
    requires ShelfInv(s) && Stored(s, 0) && Level(s.levels, 0) != [] && Find(Kept(s, 0), k) == Some(Some(v))
    ensures Visible(ShelfSlot(Compact(s, 0), k)) == Some(v)
  {
    var ms, gone, added := Metas(s.levels), SeqSet(Listed(s.levels, 0)), Added(s, 0);
    ReplacedByMerge(s, 0);
    CompactMetas(s, 0);
    CompactMerged(s, 0);
    forall m | m in ms - gone + added ensures MetaOk(m, s.nextId + 1, Compact(s, 0).contents)
        { CompactMetaOk(s, 0, m); }
    AddedAnswers(s, 0, k);
    var x :| x in added && Has(Compact(s, 0).contents, x, k);
    WinnerIsAdded(ms, s.contents, 0, s.nextId + 1, k, gone, added, Compact(s, 0).contents, x);
  }
}
