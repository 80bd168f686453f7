/** Reading through the cache of open tables: point lookups and range scans. */
module LsmCache {
  import opened Common
  import opened Bytes
  import opened Entries
  import opened Blooms
  import opened SSTables
  import opened MemTables
  import opened Levels
  import opened Manifests
  import opened Compactions
  import opened LevelCompaction
  import opened Lsm
  import opened LsmDisk

  type Cached = (Meta, Reader)

  // ------------------------------------------------------------ the reader cache

  /** Levels first; inside a level newest first, or everything the other way round. */
  predicate Ordered(newestFirst: bool, a: Meta, b: Meta)
  {
    if newestFirst then Before(a, b) else Before(b, a)
  }

  predicate DistinctIds(cache: seq<Cached>)
  {
    forall i, j :: 0 <= i < j < |cache| ==> cache[i].0.id != cache[j].0.id
  }

  predicate InOrderBy(newestFirst: bool, cache: seq<Cached>)
  {
    forall i, j :: 0 <= i < j < |cache| ==> Ordered(newestFirst, cache[i].0, cache[j].0)
  }

  lemma InsertedMembers(cache: seq<Cached>, p: nat, e: Cached)
    requires p <= |cache|
    ensures forall x :: x in cache[..p] + [e] + cache[p..] <==> x == e || x in cache
  {
    assert cache == cache[..p] + cache[p..];
  }

  method InsertCached(newestFirst: bool, cache: seq<Cached>, e: Cached) returns (r: seq<Cached>)
    requires InOrderBy(newestFirst, cache) && forall i :: 0 <= i < |cache| ==> cache[i].0.id != e.0.id
    ensures InOrderBy(newestFirst, r) && forall x :: x in r <==> x == e || x in cache
  {
    var p := |cache|;
    while p > 0 && Ordered(newestFirst, e.0, cache[p - 1].0)
      invariant 0 <= p <= |cache| && forall i :: p <= i < |cache| ==> Ordered(newestFirst, e.0, cache[i].0)
    {
      p := p - 1;
    }
    r := cache[..p] + [e] + cache[p..];
    InsertedMembers(cache, p, e);
  }

  method SortCache(newestFirst: bool, cache: seq<Cached>) returns (r: seq<Cached>)
    requires DistinctIds(cache)
    ensures InOrderBy(newestFirst, r) && forall x :: x in r <==> x in cache
  {
    r := [];
    for i := 0 to |cache|
      invariant InOrderBy(newestFirst, r) && forall x :: x in r <==> x in cache[..i]
    {
      forall j | 0 <= j < |r| ensures r[j].0.id != cache[i].0.id {
        assert r[j] in cache[..i];
      }
      r := InsertCached(newestFirst, r, cache[i]);
      assert cache[..i + 1] == cache[..i] + [cache[i]];
    }
    assert cache[..|cache|] == cache;
  }

  /** One open reader for each listed table, each serving the entries of its file. */
  ghost predicate CacheOk(hash: Hasher, cache: seq<Cached>, levels: LevelList, tables: map<nat, Bytes>)
  {
    && DistinctIds(cache)
    && (forall i :: 0 <= i < |cache| ==> ServesTable(hash, cache[i], levels, tables))
    && (forall m :: m in Metas(levels) ==> exists e :: e in cache && e.0 == m)
  }

  ghost predicate ServesTable(hash: Hasher, e: Cached, levels: LevelList, tables: map<nat, Bytes>)
  {
    e.0 in Metas(levels) && e.0.id in tables && Holds(hash, e.1, DecodedFile(tables[e.0.id]))
  }

  lemma CachedServes(hash: Hasher, cache: seq<Cached>, levels: LevelList, tables: map<nat, Bytes>, e: Cached)
    requires CacheOk(hash, cache, levels, tables) && e in cache
    ensures ServesTable(hash, e, levels, tables)
  {
    var i :| 0 <= i < |cache| && cache[i] == e;
  }

  method ProbeTable(hash: Hasher, e: Cached, key: Bytes, ghost levels: LevelList, ghost tables: map<nat, Bytes>)
    returns (r: Option<Slot>)
    requires ServesTable(hash, e, levels, tables)
    ensures r.Some? <==> Has(ContentsOf(tables), e.0, key)
    ensures r.Some? ==> r.value == SlotIn(ContentsOf(tables), e.0, key)
  {
    var hit := SSTables.Get(hash, e.1, key, DecodedFile(tables[e.0.id]));
    r := hit.value;
  }

  /** The first hit in search order is the answer of the levels. */
  method LookupTables(hash: Hasher, cache: seq<Cached>, key: Bytes, ghost levels: LevelList,
                      ghost tables: map<nat, Bytes>)
    returns (r: Option<Slot>)
    requires CacheOk(hash, cache, levels, tables)
    ensures r == TableSlot(Metas(levels), ContentsOf(tables), key)
  {
    var order := SortCache(true, cache);
    ghost var c := ContentsOf(tables);
    for i := 0 to |order|
      invariant forall j :: 0 <= j < i ==> !Has(c, order[j].0, key)
    {
      CachedServes(hash, cache, levels, tables, order[i]);
      var hit := ProbeTable(hash, order[i], key, levels, tables);
      if hit.Some? {
        FirstHitWins(cache, order, i, key, levels, c);
        return hit;
      }
    }
    NoHit(cache, order, key, levels, c);
    r := None;
  }

  ghost predicate Covered(cache: seq<Cached>, order: seq<Cached>, levels: LevelList)
  {
    && (forall x :: x in order <==> x in cache)
    && (forall m :: m in Metas(levels) ==> exists e :: e in cache && e.0 == m)
  }

  lemma FirstHitWins(cache: seq<Cached>, order: seq<Cached>, i: nat, key: Bytes, levels: LevelList, c: Contents)
    requires Covered(cache, order, levels) && InOrderBy(true, order) && i < |order|
    requires order[i].0 in Metas(levels) && Has(c, order[i].0, key)
    requires forall j :: 0 <= j < i ==> !Has(c, order[j].0, key)
    ensures TableSlot(Metas(levels), c, key) == Some(SlotIn(c, order[i].0, key))
  {
    var w := order[i].0;
    forall m | m in Metas(levels) && Has(c, m, key) && m != w ensures Before(w, m) {
      var e :| e in cache && e.0 == m;
      assert e in order;
      var j :| 0 <= j < |order| && order[j] == e;
    }
    WinnerDecides(Metas(levels), c, key, w);
  }

  lemma NoHit(cache: seq<Cached>, order: seq<Cached>, key: Bytes, levels: LevelList, c: Contents)
    requires Covered(cache, order, levels) && forall j :: 0 <= j < |order| ==> !Has(c, order[j].0, key)
    ensures TableSlot(Metas(levels), c, key) == None
  {
    forall m | m in Metas(levels) ensures !Has(c, m, key) {
      var e :| e in cache && e.0 == m;
      assert e in order;
      var j :| 0 <= j < |order| && order[j] == e;
    }
    NoWinner(Metas(levels), c, key);
  }

  // ------------------------------------------------------------------- scanning

  lemma {:induction false} BetweenFind(es: seq<Entry>, start: Bytes, end: Bytes, k: Bytes)
    ensures Find(Between(es, start, end), k) == if InRange(k, start, end) then Find(es, k) else None
  {
    if es != [] {
      BetweenFind(es[1..], start, end, k);
      if InRange(es[0].key, start, end) {
        assert Between(es, start, end)[1..] == Between(es[1..], start, end);
      } else {
        assert Between(es, start, end) == Between(es[1..], start, end);
      }
    }
  }

  lemma {:induction false} BetweenSorted(es: seq<Entry>, start: Bytes, end: Bytes)
    requires Sorted(es)
    ensures Sorted(Between(es, start, end))
  {
    if es != [] {
      var rest := Between(es[1..], start, end);
      BetweenSorted(es[1..], start, end);
      forall i | 0 <= i < |rest| ensures Lt(es[0].key, rest[i].key) {
        assert rest[i].key in Keys(rest);
        BetweenFind(es[1..], start, end, rest[i].key);
        FirstBelow(es, rest[i].key);
      }
    }
  }

  lemma InsertStep(m: Run, es: seq<Entry>, i: nat)
    requires Sorted(es) && i < |es|
    ensures m + ToMap(es[..i + 1]) == (m + ToMap(es[..i]))[es[i].key := es[i].value]
  {
    assert es[..i + 1] == es[..i] + [es[i]];
    AppendGreater(es[..i], es[i]);
  }

  /** Insert every entry; later insertions overwrite. */
  method InsertAll(m: Run, es: seq<Entry>) returns (r: Run)
    requires Sorted(es)
    ensures r == m + ToMap(es)
  {
    r := m;
    assert es[..0] == [] && ToMap(es[..0]) == map[];
    for i := 0 to |es|
      invariant r == m + ToMap(es[..i])
    {
      InsertStep(m, es, i);
      r := r[es[i].key := es[i].value];
    }
    assert es[..|es|] == es;
  }

  /** `m` holds, for the keys in range, the answers of the tables listed so far; later ones overwrite. */
  ghost predicate Accumulated(order: seq<Cached>, n: nat, c: Contents, start: Bytes, end: Bytes, m: Run)
    requires n <= |order|
  {
    && (forall k :: k in m ==> InRange(k, start, end) && exists i ::
         Latest(order, n, c, k, i) && m[k] == SlotIn(c, order[i].0, k))
    && (forall i, k :: 0 <= i < n && Has(c, order[i].0, k) && InRange(k, start, end) ==> k in m)
  }

  /** Of the first `n` tables, the last one that holds the key. */
  ghost predicate Latest(order: seq<Cached>, n: nat, c: Contents, k: Bytes, i: int)
    requires n <= |order|
  {
    0 <= i < n && Has(c, order[i].0, k) && forall j :: i < j < n ==> !Has(c, order[j].0, k)
  }

  lemma AccumulateStep(order: seq<Cached>, n: nat, c: Contents, start: Bytes, end: Bytes, m: Run, es: seq<Entry>)
    requires n < |order| && Accumulated(order, n, c, start, end, m) && order[n].0.id in c && es == c[order[n].0.id]
    ensures Accumulated(order, n + 1, c, start, end, m + ToMap(Between(es, start, end)))
  {
    var found := ToMap(Between(es, start, end));
    var m' := m + found;
    forall k ensures k in found <==> InRange(k, start, end) && Has(c, order[n].0, k) { BetweenFind(es, start, end, k); }
    forall k | k in m'
      ensures InRange(k, start, end) && exists i :: Latest(order, n + 1, c, k, i) && m'[k] == SlotIn(c, order[i].0, k)
    {
      BetweenFind(es, start, end, k);
      if k in found {
        assert Latest(order, n + 1, c, k, n);
      } else {
        var i :| Latest(order, n, c, k, i) && m[k] == SlotIn(c, order[i].0, k);
        assert Latest(order, n + 1, c, k, i);
      }
    }
  }

  lemma AccumulatedNothing(order: seq<Cached>, c: Contents, start: Bytes, end: Bytes)
    ensures Accumulated(order, 0, c, start, end, map[])
  {
  }

  /** With the oldest tables first, the last one that holds a key is the one a lookup finds first. */
  lemma AccumulatedAll(cache: seq<Cached>, order: seq<Cached>, levels: LevelList, c: Contents, start: Bytes,
                       end: Bytes, m: Run, k: Bytes)
    requires Covered(cache, order, levels) && InOrderBy(false, order) && Accumulated(order, |order|, c, start, end, m)
    requires forall i :: 0 <= i < |order| ==> order[i].0 in Metas(levels)
    ensures k in m ==> InRange(k, start, end) && TableSlot(Metas(levels), c, k) == Some(m[k])
    ensures InRange(k, start, end) && k !in m ==> TableSlot(Metas(levels), c, k) == None
  {
    if k in m {
      var i :| Latest(order, |order|, c, k, i) && m[k] == SlotIn(c, order[i].0, k);
      LatestWins(cache, order, levels, c, k, i);
    } else if InRange(k, start, end) {
      NoHit(cache, order, k, levels, c);
    }
  }

  lemma LatestWins(cache: seq<Cached>, order: seq<Cached>, levels: LevelList, c: Contents, k: Bytes, i: nat)
    requires Covered(cache, order, levels) && InOrderBy(false, order) && i < |order| && order[i].0 in Metas(levels)
    requires Latest(order, |order|, c, k, i)
    ensures TableSlot(Metas(levels), c, k) == Some(SlotIn(c, order[i].0, k))
  {
    var w := order[i].0;
    forall x | x in Metas(levels) && Has(c, x, k) && x != w ensures Before(w, x) {
      var e :| e in cache && e.0 == x;
      assert e in order;
      var j :| 0 <= j < |order| && order[j] == e;
    }
    WinnerDecides(Metas(levels), c, k, w);
  }

  method ScanTable(hash: Hasher, e: Cached, start: Bytes, end: Bytes, ghost levels: LevelList,
                   ghost tables: map<nat, Bytes>)
    returns (es: seq<Entry>)
    requires ServesTable(hash, e, levels, tables)
    ensures Sorted(es) && es == Between(DecodedFile(tables[e.0.id]), start, end)
  {
    ghost var all := DecodedFile(tables[e.0.id]);
    IterIsAll(hash, e.1, all);
    var found := SSTables.Scan(e.1, start, end);
    TakeRangeIsBetween(all, start, end);
    BetweenSorted(all, start, end);
    es := found.value;
  }

  lemma ServedMeta(hash: Hasher, e: Cached, levels: LevelList, tables: map<nat, Bytes>)
    requires ServesTable(hash, e, levels, tables)
    ensures e.0 in Metas(levels) && e.0.id in tables && e.0.id in ContentsOf(tables)
            && ContentsOf(tables)[e.0.id] == DecodedFile(tables[e.0.id])
  {
    hide DecodedFile, Holds;
  }

  /** What the tables answer for every key in range. */
  method ScanTables(hash: Hasher, cache: seq<Cached>, start: Bytes, end: Bytes, ghost levels: LevelList,
                    ghost tables: map<nat, Bytes>)
    returns (m: Run)
    requires CacheOk(hash, cache, levels, tables)
    ensures forall k :: k in m ==>
            InRange(k, start, end) && TableSlot(Metas(levels), ContentsOf(tables), k) == Some(m[k])
    ensures forall k :: InRange(k, start, end) && k !in m ==> TableSlot(Metas(levels), ContentsOf(tables), k) == None
  {
    hide ServesTable, DecodedFile, Between, Accumulated, InRange, TableSlot;
    var order := SortCache(false, cache);
    ghost var c := ContentsOf(tables);
    m := map[];
    AccumulatedNothing(order, c, start, end);
    for i := 0 to |order|
      invariant Accumulated(order, i, c, start, end, m)
      invariant forall j :: 0 <= j < i ==> order[j].0 in Metas(levels)
    {
      CachedServes(hash, cache, levels, tables, order[i]);
      ServedMeta(hash, order[i], levels, tables);
      var es := ScanTable(hash, order[i], start, end, levels, tables);
      AccumulateStep(order, i, c, start, end, m, DecodedFile(tables[order[i].0.id]));
      m := InsertAll(m, es);
    }
    forall k
      ensures k in m ==> InRange(k, start, end) && TableSlot(Metas(levels), c, k) == Some(m[k])
      ensures InRange(k, start, end) && k !in m ==> TableSlot(Metas(levels), c, k) == None
    {
      AccumulatedAll(cache, order, levels, c, start, end, m, k);
    }
  }

  method DropDeleted(es: seq<Entry>) returns (ps: Pairs)
    ensures ps == LivePairs(es)
  {
    ps := [];
    assert es[0..] == es;
    for i := 0 to |es|
      invariant ps + LivePairs(es[i..]) == LivePairs(es)
    {
      assert es[i..][1..] == es[i + 1..];
      if es[i].value.Some? { ps := ps + [(es[i].key, es[i].value.value)]; }
    }
  }

  /** A merged map that answers like the tree for every key in range lists, in order, exactly its scan. */
  lemma ScanOf(t: Tree, start: Bytes, end: Bytes, m: Run)
    requires forall k :: k in m ==> InRange(k, start, end) && TreeSlot(t, k) == Some(m[k])
    requires forall k :: InRange(k, start, end) && k !in m ==> TreeSlot(t, k) == None
    ensures IsScan(t, start, end, LivePairs(InOrder(m)))
  {
    var es := InOrder(m);
    LivePairsSorted(es);
    forall k, v
      ensures (k, v) in LivePairs(es) <==> InRange(k, start, end) && Reads(t, k) == Some(v)
    {
      LivePairsExactly(es, k, v);
      FindInOrder(m, k);
    }
  }
}
