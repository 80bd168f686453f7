/**
 The storage engine that the versioned store is written against: a plain sorted map. The tree of
 the storage crate serves exactly this contract.
 */
module Engines {
  import opened Common
  import opened Bytes
  import opened MemTables
  import opened Lsm

  /** Exactly the pairs with `start <= key < end`, in key order. */
  ghost predicate IsRange(data: map<Bytes, Bytes>, start: Bytes, end: Bytes, ps: Pairs)
  {
    && SortedPairs(ps)
    && forall k, v :: (k, v) in ps <==> InRange(k, start, end) && k in data && data[k] == v
  }

  /** A scan of a tree that refines the map is a scan of the map. */
  lemma TreeServesEngine(t: Tree, m: map<Bytes, Bytes>, start: Bytes, end: Bytes, ps: Pairs)
    requires Refines(t, m) && IsScan(t, start, end, ps)
    ensures IsRange(m, start, end, ps)
  {
    forall k, v
      ensures (k, v) in ps <==> InRange(k, start, end) && k in m && m[k] == v
    {
      assert Reads(t, k) == if k in m then Some(m[k]) else None;
    }
  }

  class Engine {
    var data: map<Bytes, Bytes>

    constructor ()
      ensures data == map[]
    {
      data := map[];
    }

    method Put(key: Bytes, value: Bytes)
      modifies this
      ensures data == old(data)[key := value]
    {
      data := data[key := value];
    }

    method Delete(key: Bytes)
      modifies this
      ensures data == old(data) - {key}
    {
      data := data - {key};
    }

    /** An inverted range is refused. */
    method Scan(start: Bytes, end: Bytes) returns (ps: Pairs)
      requires Le(start, end)
      ensures IsRange(data, start, end, ps)
    {
      ps := [];
      var rest := set k | k in data && InRange(k, start, end);
      while rest != {}
        invariant SortedPairs(ps) && forall k :: k in rest ==> k in data && InRange(k, start, end)
        invariant forall k, v :: (k, v) in ps <==> InRange(k, start, end) && k in data && data[k] == v && k !in rest
        invariant forall i, k :: 0 <= i < |ps| && k in rest ==> Lt(ps[i].0, k)
        decreases rest
      {
        var low := Least(rest);
        ps := ps + [(low, data[low])];
        rest := rest - {low};
      }
    }
  }
}
