/** The memtable: an ordered map with tombstones and an exact account of its size. */
module MemTables {
  import opened Common
  import opened Bytes
  import opened Entries
  import opened SSTables

  function SlotSize(v: Slot): nat
  {
    match v
    case Some(b) => |b|
    case None => 0
  }

  /** Key and value bytes of the whole run. */
  ghost function RunSize(m: Run): nat
    decreases |m|
  {
    if m == map[] then 0
    else
      var k :| k in m;
      |k| + SlotSize(m[k]) + RunSize(m - {k})
  }

  /** Any key may be counted first. */
  lemma {:induction false} RunSizeWithout(m: Run, k: Bytes)
    requires k in m
    ensures RunSize(m) == |k| + SlotSize(m[k]) + RunSize(m - {k})
    decreases |m|
  {
    var j :| j in m && RunSize(m) == |j| + SlotSize(m[j]) + RunSize(m - {j});
    if j != k {
      RunSizeWithout(m - {j}, k);
      RunSizeWithout(m - {k}, j);
      assert m - {j} - {k} == m - {k} - {j};
    }
  }

  /** How the size changes when one key is written. */
  lemma RunSizeUpdate(m: Run, k: Bytes, v: Slot)
    ensures RunSize(m[k := v]) + (if k in m then |k| + SlotSize(m[k]) else 0) == RunSize(m) + |k| + SlotSize(v)
  {
    RunSizeWithout(m[k := v], k);
    assert m[k := v] - {k} == m - {k};
    if k in m {
      RunSizeWithout(m, k);
    } else {
      assert m - {k} == m;
    }
  }

  method MeasureRun(m: Run) returns (size: nat)
    ensures size == RunSize(m)
  {
    size := 0;
    var rest := m;
    while rest != map[]
      invariant size + RunSize(rest) == RunSize(m)
      decreases |rest|
    {
      var k :| k in rest;
      RunSizeWithout(rest, k);
      size := size + |k| + SlotSize(rest[k]);
      rest := rest - {k};
    }
  }

  // -------------------------------------------------------- ordered iteration

  method Least(keys: set<Bytes>) returns (low: Bytes)
    requires keys != {}
    ensures low in keys && forall k :: k in keys ==> Le(low, k)
  {
    low :| low in keys;
    var todo := keys - {low};
    while todo != {}
      invariant todo <= keys && low in keys && low !in todo
      invariant forall k :: k in keys - todo ==> Le(low, k)
      decreases todo
    {
      var k :| k in todo;
      LtTotal(k, low);
      if Lt(k, low) {
        forall j | j in keys - todo ensures Le(k, j) {
          if low != j { LtTransitive(k, low, j); }
        }
        low := k;
      }
      todo := todo - {k};
    }
  }

  lemma AppendGreater(es: seq<Entry>, e: Entry)
    requires Sorted(es) && forall i :: 0 <= i < |es| ==> Lt(es[i].key, e.key)
    ensures Sorted(es + [e]) && ToMap(es + [e]) == ToMap(es)[e.key := e.value]
  {
    var more := es + [e];
    KeysConcat(es, [e]);
    assert Keys([e]) == {e.key} by { assert [e][0].key == e.key; }
    assert e.key !in Keys(es) by { LtIrreflexive(e.key); }
    forall k | k in Keys(more)
      ensures Find(more, k).value == if k == e.key then e.value else Find(es, k).value
    {
      FindConcat(es, [e], k);
    }
  }

  /** `es` lists, in order, the keys of `m` below those in `rest`. */
  ghost predicate Partway(m: Run, es: seq<Entry>, rest: Run)
  {
    && Sorted(es) && rest.Keys <= m.Keys && (forall k :: k in rest ==> rest[k] == m[k])
    && ToMap(es) == m - rest.Keys
    && forall i, k :: 0 <= i < |es| && k in rest ==> Lt(es[i].key, k)
  }

  lemma PartwayStep(m: Run, es: seq<Entry>, rest: Run, low: Bytes)
    requires Partway(m, es, rest) && low in rest && forall k :: k in rest ==> Le(low, k)
    ensures Partway(m, es + [Entry(low, rest[low])], rest - {low})
  {
    AppendGreater(es, Entry(low, rest[low]));
    assert ToMap(es)[low := rest[low]] == m - (rest - {low}).Keys;
  }

  lemma PartwayDone(m: Run, es: seq<Entry>)
    requires Partway(m, es, map[])
    ensures es == InOrder(m)
  {
    assert ToMap(es) == m;
    SortedUnique(es, InOrder(m));
  }

  /** In-order traversal of an ordered map. */
  method Traverse(m: Run) returns (es: seq<Entry>)
    ensures es == InOrder(m)
  {
    es := [];
    var rest := m;
    while rest != map[]
      invariant Partway(m, es, rest)
      decreases |rest|
    {
      var low := Least(rest.Keys);
      PartwayStep(m, es, rest, low);
      es := es + [Entry(low, rest[low])];
      rest := rest - {low};
    }
    PartwayDone(m, es);
  }

  function SaturatingSub(a: nat, b: nat): nat
  {
    if a < b then 0 else a - b
  }

  class MemTable {
    var data: Run
    var sizeBytes: nat
    const maxSize: nat

    /** The size account is exact, for puts and deletes alike. */
    ghost predicate Valid()
      reads this
    {
      sizeBytes == RunSize(data)
    }

    constructor (maxSize: nat)
      ensures Valid() && data == map[] && this.maxSize == maxSize
    {
      data, sizeBytes := map[], 0;
      this.maxSize := maxSize;
    }

    method Get(key: Bytes) returns (r: Option<Slot>)
      ensures r == if key in data then Some(data[key]) else None
    {
      r := if key in data then Some(data[key]) else None;
    }

    method Put(key: Bytes, value: Bytes)
      requires Valid()
      modifies this
      ensures Valid() && data == old(data)[key := Some(value)]
    {
      var entrySize := |key| + |value|;
      RunSizeUpdate(data, key, Some(value));
      if key in data {
        RunSizeWithout(data, key);
        var oldSize := SlotSize(data[key]);
        sizeBytes := sizeBytes - oldSize + entrySize - (entrySize - if oldSize < entrySize then oldSize else entrySize);
      } else {
        sizeBytes := sizeBytes + entrySize;
      }
      data := data[key := Some(value)];
      sizeBytes := MeasureRun(data);
    }

    method Delete(key: Bytes)
      requires Valid()
      modifies this
      ensures Valid() && data == old(data)[key := None]
    {
      RunSizeUpdate(data, key, None);
      if key in data {
        RunSizeWithout(data, key);
        var oldSize := SlotSize(data[key]);
        sizeBytes := SaturatingSub(sizeBytes, oldSize);
      } else {
        sizeBytes := sizeBytes + |key|;
      }
      data := data[key := None];
    }

    method Iter() returns (es: seq<Entry>)
      ensures es == InOrder(data)
    {
      es := Traverse(data);
    }

    /** The ordered map refuses a range whose start lies after its end. */
    method Scan(start: Bytes, end: Bytes) returns (es: seq<Entry>)
      requires Le(start, end)
      ensures es == Between(InOrder(data), start, end)
    {
      var all := Traverse(data);
      es := ScanEntries(all, start, end);
      TakeRangeIsBetween(all, start, end);
    }

    predicate IsFull()
      reads this
    {
      sizeBytes >= maxSize
    }
  }
}
