/**
 Leveled compaction: concatenate the listed tables, sort stably by key, keep the first entry of
 each key. The first listed table that holds a key therefore wins the merge, whatever its age.
 */
module Compactions {
  import opened Common
  import opened Bytes
  import opened Entries
  import opened Levels
  import opened Manifests

  // ------------------------------------------------------- stable sort, dedup

  /** The entries with one key, in their order. */
  function WithKey(es: seq<Entry>, k: Bytes): seq<Entry>
  {
    if es == [] then []
    else (if es[0].key == k then [es[0]] else []) + WithKey(es[1..], k)
  }

  predicate Ascending(es: seq<Entry>)
  {
    forall i, j :: 0 <= i < j < |es| ==> Le(es[i].key, es[j].key)
  }

  /** A stable reordering: the entries of each key keep their number and their order. */
  ghost predicate Reordered(a: seq<Entry>, b: seq<Entry>)
  {
    forall k :: WithKey(a, k) == WithKey(b, k)
  }

  lemma {:induction false} WithKeyConcat(a: seq<Entry>, b: seq<Entry>, k: Bytes)
    ensures WithKey(a + b, k) == WithKey(a, k) + WithKey(b, k)
  {
    if a == [] {
      assert a + b == b;
    } else {
      assert (a + b)[1..] == a[1..] + b;
      WithKeyConcat(a[1..], b, k);
    }
  }

  lemma {:induction false} NoneWithKey(es: seq<Entry>, k: Bytes)
    requires forall i :: 0 <= i < |es| ==> es[i].key != k
    ensures WithKey(es, k) == []
  {
    if es != [] { NoneWithKey(es[1..], k); }
  }

  lemma {:induction false} FindIsFirst(es: seq<Entry>, k: Bytes)
    ensures Find(es, k) == if WithKey(es, k) == [] then None else Some(WithKey(es, k)[0].value)
  {
    if es != [] { FindIsFirst(es[1..], k); }
  }

  lemma WithKeyThree(a: seq<Entry>, b: seq<Entry>, c: seq<Entry>, k: Bytes)
    ensures WithKey(a + b + c, k) == WithKey(a, k) + WithKey(b, k) + WithKey(c, k)
  {
    WithKeyConcat(a + b, c, k);
    WithKeyConcat(a, b, k);
  }

  lemma SwapEmpty(a: seq<Entry>, b: seq<Entry>, c: seq<Entry>)
    requires b == [] || c == []
    ensures a + b + c == a + c + b
  {
  }

  /** Moving an entry in front of strictly greater ones does not change the order inside any key. */
  lemma InsertReorders(low: seq<Entry>, high: seq<Entry>, x: Entry, k: Bytes)
    requires forall i :: 0 <= i < |high| ==> Lt(x.key, high[i].key)
    ensures WithKey(low + [x] + high, k) == WithKey(low + high + [x], k)
  {
    WithKeyThree(low, [x], high, k);
    WithKeyThree(low, high, [x], k);
    if x.key == k {
      forall i | 0 <= i < |high| ensures high[i].key != k { LtIrreflexive(x.key); }
      NoneWithKey(high, k);
    } else {
      NoneWithKey([x], k);
    }
    SwapEmpty(WithKey(low, k), WithKey([x], k), WithKey(high, k));
  }

  lemma InsertAscends(low: seq<Entry>, high: seq<Entry>, x: Entry)
    requires Ascending(low + high)
    requires forall i :: 0 <= i < |low| ==> Le(low[i].key, x.key)
    requires forall i :: 0 <= i < |high| ==> Lt(x.key, high[i].key)
    ensures Ascending(low + [x] + high)
  {
    var r, s := low + [x] + high, low + high;
    forall i, j | 0 <= i < j < |r|
      ensures Le(r[i].key, r[j].key)
    {
      var i', j' := if i < |low| then i else i - 1, if j < |low| then j else j - 1;
      if i != |low| && j != |low| { assert r[i] == s[i'] && r[j] == s[j']; }
    }
  }

  method InsertStable(es: seq<Entry>, x: Entry) returns (r: seq<Entry>)
    requires Ascending(es)
    ensures Ascending(r) && Reordered(r, es + [x])
  {
    var p := |es|;
    while p > 0 && Lt(x.key, es[p - 1].key)
      invariant 0 <= p <= |es| && forall i :: p <= i < |es| ==> Lt(x.key, es[i].key)
    {
      p := p - 1;
    }
    forall i | 0 <= i < p ensures Le(es[i].key, x.key) {
      LtTotal(x.key, es[p - 1].key);
      LeTransitive(es[i].key, es[p - 1].key, x.key);
    }
    r := es[..p] + [x] + es[p..];
    assert es == es[..p] + es[p..];
    InsertAscends(es[..p], es[p..], x);
    forall k ensures WithKey(r, k) == WithKey(es + [x], k) {
      InsertReorders(es[..p], es[p..], x, k);
    }
  }

  /** `sort_by` on keys: sorted, and stable. */
  method SortByKey(es: seq<Entry>) returns (r: seq<Entry>)
    ensures Ascending(r) && Reordered(r, es)
  {
    r := [];
    assert es[..0] == [];
    for i := 0 to |es|
      invariant Ascending(r) && Reordered(r, es[..i])
    {
      var next := InsertStable(r, es[i]);
      assert es[..i + 1] == es[..i] + [es[i]];
      forall k ensures WithKey(next, k) == WithKey(es[..i + 1], k) {
        WithKeyConcat(r, [es[i]], k);
        WithKeyConcat(es[..i], [es[i]], k);
      }
      r := next;
    }
    assert es[..|es|] == es;
  }

  /** `dedup_by` on equal keys keeps the first of each run. */
  method Dedup(es: seq<Entry>) returns (r: seq<Entry>)
    requires Ascending(es)
    ensures Sorted(r) && forall k :: Find(r, k) == Find(es, k)
  {
    r := [];
    assert es[..0] == [];
    for i := 0 to |es|
      invariant Sorted(r) && (r == [] <==> i == 0)
      invariant r != [] ==> r[|r| - 1].key == es[i - 1].key
      invariant forall k :: Find(r, k) == Find(es[..i], k)
    {
      var e := es[i];
      assert es[..i + 1] == es[..i] + [e];
      forall k ensures Find(es[..i + 1], k) == if Find(r, k).Some? then Find(r, k) else Find([e], k) {
        FindConcat(es[..i], [e], k);
      }
      if r == [] || r[|r| - 1].key != e.key {
        forall j | 0 <= j < |r| ensures Lt(r[j].key, e.key) {
          assert Le(es[i - 1].key, e.key);
          if j < |r| - 1 { LtTransitive(r[j].key, r[|r| - 1].key, e.key); }
        }
        forall k ensures Find(r + [e], k) == if Find(r, k).Some? then Find(r, k) else Find([e], k) {
          FindConcat(r, [e], k);
        }
        r := r + [e];
      } else {
        assert r[|r| - 1].key in Keys(r);
      }
    }
    assert es[..|es|] == es;
  }

  lemma ReorderedFind(a: seq<Entry>, b: seq<Entry>, k: Bytes)
    requires Reordered(a, b)
    ensures Find(a, k) == Find(b, k)
  {
    FindIsFirst(a, k);
    FindIsFirst(b, k);
  }

  /** A sorted run that answers like `all` is the ordered form of `all`. */
  lemma SameAnswers(r: seq<Entry>, all: seq<Entry>)
    requires Sorted(r) && forall k :: Find(r, k) == Find(all, k)
    ensures r == InOrder(ToMap(all))
  {
    assert ToMap(r) == ToMap(all) by {
      forall k ensures k in Keys(r) <==> k in Keys(all) { assert Find(r, k) == Find(all, k); }
    }
    SortedUnique(r, InOrder(ToMap(all)));
  }

  /** The merge: sort stably, drop repeated keys. */
  method MergeEntries(all: seq<Entry>) returns (r: seq<Entry>)
    ensures r == InOrder(ToMap(all))
  {
    var sorted := SortByKey(all);
    r := Dedup(sorted);
    forall k ensures Find(r, k) == Find(all, k) { ReorderedFind(sorted, all, k); }
    SameAnswers(r, all);
  }

  // ------------------------------------------------------------- tombstones

  function LiveOnly(es: seq<Entry>): seq<Entry>
  {
    if es == [] then []
    else (if es[0].value.Some? then [es[0]] else []) + LiveOnly(es[1..])
  }

  lemma TailKeys(es: seq<Entry>)
    requires es != []
    ensures Keys(es) == Keys(es[1..]) + {es[0].key}
  {
    KeysConcat([es[0]], es[1..]);
    assert es == [es[0]] + es[1..];
    assert Keys([es[0]]) == {es[0].key} by { assert [es[0]][0].key == es[0].key; }
  }

  lemma {:induction false} LiveOnlyKeys(es: seq<Entry>)
    ensures Keys(LiveOnly(es)) <= Keys(es)
  {
    if es != [] {
      LiveOnlyKeys(es[1..]);
      TailKeys(es);
      if es[0].value.Some? {
        assert LiveOnly(es)[1..] == LiveOnly(es[1..]);
        TailKeys(LiveOnly(es));
      }
    }
  }

  lemma FirstBelow(es: seq<Entry>, k: Bytes)
    requires Sorted(es) && es != [] && k in Keys(es[1..])
    ensures Lt(es[0].key, k)
  {
    var i :| 0 <= i < |es[1..]| && es[1..][i].key == k;
    assert es[i + 1].key == k;
  }

  lemma {:induction false} LiveOnlySorted(es: seq<Entry>)
    requires Sorted(es)
    ensures Sorted(LiveOnly(es))
  {
    if es != [] {
      LiveOnlySorted(es[1..]);
      LiveOnlyKeys(es[1..]);
      var rest := LiveOnly(es[1..]);
      forall i | 0 <= i < |rest| ensures Lt(es[0].key, rest[i].key) {
        assert rest[i].key in Keys(rest);
        FirstBelow(es, rest[i].key);
      }
    }
  }

  /** Dropping tombstones from a sorted run removes exactly the deleted keys. */
  lemma {:induction false} LiveOnlyFind(es: seq<Entry>, k: Bytes)
    requires Sorted(es)
    ensures Find(LiveOnly(es), k) == if Find(es, k) == Some(None) then None else Find(es, k)
  {
    if es != [] {
      LiveOnlyFind(es[1..], k);
      if es[0].value.Some? {
        assert LiveOnly(es)[1..] == LiveOnly(es[1..]);
      } else {
        assert LiveOnly(es) == LiveOnly(es[1..]);
        LtIrreflexive(k);
        if es[0].key == k && k in Keys(es[1..]) { FirstBelow(es, k); }
      }
    }
  }

  method DropTombstones(es: seq<Entry>) returns (r: seq<Entry>)
    ensures r == LiveOnly(es)
  {
    r := [];
    assert es[0..] == es;
    for i := 0 to |es|
      invariant r + LiveOnly(es[i..]) == LiveOnly(es)
    {
      assert es[i..][1..] == es[i + 1..];
      if es[i].value.Some? { r := r + [es[i]]; }
    }
  }

  // ---------------------------------------------------- what is merged with what

  function Listing(c: Contents, ms: seq<Meta>): seq<Entry>
    requires forall m :: m in ms ==> m.id in c
  {
    if ms == [] then [] else c[ms[0].id] + Listing(c, ms[1..])
  }

  function LeastMin(ms: seq<Meta>): Bytes
    requires ms != []
  {
    if |ms| == 1 then ms[0].minKey
    else
      var k := LeastMin(ms[1..]);
      if Lt(k, ms[0].minKey) then k else ms[0].minKey
  }

  function GreatestMax(ms: seq<Meta>): Bytes
    requires ms != []
  {
    if |ms| == 1 then ms[0].maxKey
    else
      var k := GreatestMax(ms[1..]);
      if Lt(ms[0].maxKey, k) then k else ms[0].maxKey
  }

  lemma {:induction false} LeastMinBelow(ms: seq<Meta>, m: Meta)
    requires m in ms
    ensures Le(LeastMin(ms), m.minKey)
  {
    if |ms| > 1 {
      var k := LeastMin(ms[1..]);
      LtTotal(k, ms[0].minKey);
      if m in ms[1..] {
        LeastMinBelow(ms[1..], m);
        if !Lt(k, ms[0].minKey) { LeTransitive(ms[0].minKey, k, m.minKey); }
      }
    }
  }

  lemma {:induction false} GreatestMaxAbove(ms: seq<Meta>, m: Meta)
    requires m in ms
    ensures Le(m.maxKey, GreatestMax(ms))
  {
    if |ms| > 1 {
      var k := GreatestMax(ms[1..]);
      LtTotal(ms[0].maxKey, k);
      if m in ms[1..] {
        GreatestMaxAbove(ms[1..], m);
        if !Lt(ms[0].maxKey, k) { LeTransitive(m.maxKey, k, ms[0].maxKey); }
      }
    }
  }

  predicate Overlaps(m: Meta, lo: Bytes, hi: Bytes)
  {
    Le(m.minKey, hi) && Le(lo, m.maxKey)
  }

  function Overlapping(ms: seq<Meta>, lo: Bytes, hi: Bytes): seq<Meta>
  {
    if ms == [] then []
    else (if Overlaps(ms[0], lo, hi) then [ms[0]] else []) + Overlapping(ms[1..], lo, hi)
  }

  lemma {:induction false} OverlappingKeeps(ms: seq<Meta>, lo: Bytes, hi: Bytes, m: Meta)
    ensures m in Overlapping(ms, lo, hi) <==> m in ms && Overlaps(m, lo, hi)
  {
    if ms != [] {
      OverlappingKeeps(ms[1..], lo, hi, m);
      assert m in ms <==> m == ms[0] || m in ms[1..];
    }
  }

  // --------------------------------------------------------- the merge, by key

  /** What the first listed table that holds the key says. */
  lemma {:induction false} FirstListed(c: Contents, ms: seq<Meta>, i: nat, k: Bytes)
    requires (forall m :: m in ms ==> m.id in c) && i < |ms| && Has(c, ms[i], k)
    requires forall j :: 0 <= j < i ==> !Has(c, ms[j], k)
    ensures Find(Listing(c, ms), k) == Some(SlotIn(c, ms[i], k))
    decreases i
  {
    FindConcat(c[ms[0].id], Listing(c, ms[1..]), k);
    if i > 0 { FirstListed(c, ms[1..], i - 1, k); }
  }

  lemma {:induction false} NotListed(c: Contents, ms: seq<Meta>, k: Bytes)
    requires (forall m :: m in ms ==> m.id in c) && forall m :: m in ms ==> !Has(c, m, k)
    ensures Find(Listing(c, ms), k) == None
  {
    if ms != [] {
      FindConcat(c[ms[0].id], Listing(c, ms[1..]), k);
      NotListed(c, ms[1..], k);
    }
  }

  /** Tables that share a key are listed in search order. */
  ghost predicate ListedInSearchOrder(c: Contents, ms: seq<Meta>)
  {
    forall i, j, k :: 0 <= i < j < |ms| && Has(c, ms[i], k) && Has(c, ms[j], k) ==> Before(ms[i], ms[j])
  }

  lemma {:induction false} FirstIndex(c: Contents, ms: seq<Meta>, k: Bytes) returns (i: nat)
    ensures i <= |ms| && (i < |ms| ==> Has(c, ms[i], k)) && forall j :: 0 <= j < i ==> !Has(c, ms[j], k)
  {
    if ms == [] || Has(c, ms[0], k) {
      i := 0;
    } else {
      var j := FirstIndex(c, ms[1..], k);
      i := j + 1;
    }
  }

  /** Listed in search order, the merge picks for every key what a lookup would have found. */
  lemma MergeIsLookup(c: Contents, ms: seq<Meta>, k: Bytes)
    requires (forall m :: m in ms ==> m.id in c) && ListedInSearchOrder(c, ms)
    ensures Find(Listing(c, ms), k) == TableSlot(SeqSet(ms), c, k)
  {
    var i := FirstIndex(c, ms, k);
    if i < |ms| {
      FirstListed(c, ms, i, k);
      forall m | m in SeqSet(ms) && Has(c, m, k) && m != ms[i] ensures Before(ms[i], m) {
        var j :| 0 <= j < |ms| && ms[j] == m;
      }
      WinnerDecides(SeqSet(ms), c, k, ms[i]);
    } else {
      forall m | m in ms ensures !Has(c, m, k) {
        var j :| 0 <= j < |ms| && ms[j] == m;
      }
      NotListed(c, ms, k);
      NoWinner(SeqSet(ms), c, k);
    }
  }
}
