/**
 Sorted runs of entries. A missing value is a tombstone. Runs are what memtables iterate over,
 tables store and merges produce.
 */
module Entries {
  import opened Common
  import opened Bytes

  /** `None` is a tombstone. */
  type Slot = Option<Bytes>

  datatype Entry = Entry(key: Bytes, value: Slot)

  predicate Sorted(es: seq<Entry>)
  {
    forall i, j :: 0 <= i < j < |es| ==> Lt(es[i].key, es[j].key)
  }

  function Keys(es: seq<Entry>): set<Bytes>
  {
    set i | 0 <= i < |es| :: es[i].key
  }

  /** The first entry with the key decides. */
  function Find(es: seq<Entry>, key: Bytes): (r: Option<Slot>)
    ensures r.Some? <==> key in Keys(es)
  {
    if es == [] then None
    else if es[0].key == key then Some(es[0].value)
    else
      assert Keys(es) == Keys(es[1..]) + {es[0].key} by {
        assert forall k :: k in Keys(es) ==> k in Keys(es[1..]) + {es[0].key} by {
          forall k | k in Keys(es) ensures k in Keys(es[1..]) + {es[0].key} {
            var i :| 0 <= i < |es| && es[i].key == k;
            if i > 0 { assert es[1..][i - 1].key == k; }
          }
        }
      }
      Find(es[1..], key)
  }

  lemma {:induction false} FindAt(es: seq<Entry>, i: nat)
    requires Sorted(es) && i < |es|
    ensures Find(es, es[i].key) == Some(es[i].value)
  {
    if i > 0 {
      LtAsymmetric(es[0].key, es[i].key);
      assert es[1..][i - 1] == es[i];
      FindAt(es[1..], i - 1);
    }
  }

  lemma {:induction false} FindConcat(a: seq<Entry>, b: seq<Entry>, key: Bytes)
    ensures Find(a + b, key) == if Find(a, key).Some? then Find(a, key) else Find(b, key)
  {
    if a == [] {
      assert a + b == b;
    } else {
      assert (a + b)[1..] == a[1..] + b;
      FindConcat(a[1..], b, key);
    }
  }

  lemma KeysConcat(a: seq<Entry>, b: seq<Entry>)
    ensures Keys(a + b) == Keys(a) + Keys(b)
  {
    forall k | k in Keys(a) + Keys(b)
      ensures k in Keys(a + b)
    {
      if k in Keys(a) {
        var i :| 0 <= i < |a| && a[i].key == k;
        assert (a + b)[i].key == k;
      } else {
        var i :| 0 <= i < |b| && b[i].key == k;
        assert (a + b)[|a| + i].key == k;
      }
    }
  }

  /** A key between two neighbours is nowhere in a sorted run. */
  lemma FindNone(es: seq<Entry>, key: Bytes, n: nat)
    requires n <= |es|
    requires forall i :: 0 <= i < n ==> Lt(es[i].key, key)
    requires forall i :: n <= i < |es| ==> Lt(key, es[i].key)
    ensures Find(es, key) == None
  {
    if key in Keys(es) {
      var i :| 0 <= i < |es| && es[i].key == key;
      LtIrreflexive(key);
    }
  }

  // ------------------------------------------------------------------- maps

  type Run = map<Bytes, Slot>

  ghost function ToMap(es: seq<Entry>): (m: Run)
    ensures m.Keys == Keys(es)
  {
    map k | k in Keys(es) :: Find(es, k).value
  }

  lemma NoKeys(es: seq<Entry>)
    ensures Keys(es) == {} <==> es == []
  {
    if es != [] { assert es[0].key in Keys(es); }
  }

  /** A sorted run is determined by the map it stands for. */
  lemma {:induction false} SortedUnique(a: seq<Entry>, b: seq<Entry>)
    requires Sorted(a) && Sorted(b) && ToMap(a) == ToMap(b)
    ensures a == b
  {
    NoKeys(a);
    NoKeys(b);
    if a != [] && b != [] {
      FirstSame(a, b);
      TailMap(a);
      TailMap(b);
      SortedUnique(a[1..], b[1..]);
      assert a == [a[0]] + a[1..] && b == [b[0]] + b[1..];
    }
  }

  lemma FirstSame(a: seq<Entry>, b: seq<Entry>)
    requires Sorted(a) && Sorted(b) && a != [] && b != [] && ToMap(a) == ToMap(b)
    ensures a[0] == b[0]
  {
    FirstKeySame(a, b);
    FindAt(a, 0);
    FindAt(b, 0);
    assert ToMap(a)[a[0].key] == a[0].value && ToMap(b)[b[0].key] == b[0].value;
  }

  lemma FirstKeySame(a: seq<Entry>, b: seq<Entry>)
    requires Sorted(a) && Sorted(b) && a != [] && b != [] && Keys(a) == Keys(b)
    ensures a[0].key == b[0].key
  {
    assert a[0].key in Keys(b) && b[0].key in Keys(a);
    var i :| 0 <= i < |b| && b[i].key == a[0].key;
    var j :| 0 <= j < |a| && a[j].key == b[0].key;
    if i > 0 && j > 0 { LtAsymmetric(b[0].key, b[i].key); }
  }

  lemma TailMap(es: seq<Entry>)
    requires Sorted(es) && es != []
    ensures ToMap(es[1..]) == ToMap(es) - {es[0].key}
  {
    var rest := es[1..];
    forall k | k in Keys(rest)
      ensures k in Keys(es) && k != es[0].key && Find(es, k) == Find(rest, k)
    {
      var i :| 0 <= i < |rest| && rest[i].key == k;
      assert es[i + 1].key == k;
      LtAsymmetric(es[0].key, k);
    }
    forall k | k in Keys(es) && k != es[0].key
      ensures k in Keys(rest)
    {
      assert Find(es, k) == Find(rest, k);
    }
  }

  // ---------------------------------------------------------- least key, sorted iteration

  lemma {:induction false} LeastKey(keys: set<Bytes>) returns (low: Bytes)
    requires keys != {}
    ensures low in keys && forall k :: k in keys ==> Le(low, k)
    decreases keys
  {
    var x :| x in keys;
    if keys == {x} {
      low := x;
    } else {
      var y := LeastKey(keys - {x});
      LtTotal(x, y);
      low := if Lt(x, y) then x else y;
      forall k | k in keys
        ensures Le(low, k)
      {
        if k != x {
          assert Le(y, k);
          if Lt(x, y) && y != k { LtTransitive(x, y, k); }
        }
      }
    }
  }

  /** The order in which an ordered map is iterated. */
  ghost function InOrder(m: Run): (es: seq<Entry>)
    ensures Sorted(es) && ToMap(es) == m
    decreases |m|
  {
    if m == map[] then []
    else
      assert exists low :: low in m && forall k :: k in m ==> Le(low, k) by { var low := LeastKey(m.Keys); }
      var low :| low in m && forall k :: k in m ==> Le(low, k);
      var rest := InOrder(m - {low});
      PrependLeast(m, low, rest);
      [Entry(low, m[low])] + rest
  }

  lemma PrependLeast(m: Run, low: Bytes, rest: seq<Entry>)
    requires low in m && (forall k :: k in m ==> Le(low, k)) && Sorted(rest) && ToMap(rest) == m - {low}
    ensures Sorted([Entry(low, m[low])] + rest) && ToMap([Entry(low, m[low])] + rest) == m
  {
    var es := [Entry(low, m[low])] + rest;
    assert es[1..] == rest;
    forall i | 0 <= i < |rest|
      ensures Lt(low, rest[i].key)
    {
      assert rest[i].key in ToMap(rest);
    }
    TailMap(es);
    FindAt(es, 0);
    assert low in Keys(es) by { assert es[0].key == low; }
    forall k | k in m
      ensures k in Keys(es) && Find(es, k).value == m[k]
    {
      if k != low {
        assert k in ToMap(rest);
        assert k in ToMap(es) - {low};
        assert ToMap(rest)[k] == m[k];
      }
    }
  }
}
