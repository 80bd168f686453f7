/** The manifest: which tables exist at each level, and the counter for new table ids. */
module Manifests {
  import opened Common
  import opened Bytes
  import opened Levels

  type LevelList = seq<seq<Meta>>

  function Level(levels: LevelList, n: nat): seq<Meta>
  {
    if n < |levels| then levels[n] else []
  }

  function Grown(levels: LevelList, n: nat): (r: LevelList)
    ensures |r| >= n && |r| >= |levels|
    ensures forall l :: 0 <= l < |r| ==> r[l] == Level(levels, l)
  {
    if n <= |levels| then levels else levels + seq(n - |levels|, _ => [])
  }

  function AddTable(levels: LevelList, m: Meta): LevelList
  {
    var ls := Grown(levels, m.level + 1);
    ls[m.level := ls[m.level] + [m]]
  }

  function Retain(ms: seq<Meta>, ids: set<nat>): seq<Meta>
  {
    if ms == [] then []
    else (if ms[0].id in ids then [] else [ms[0]]) + Retain(ms[1..], ids)
  }

  function RemoveTables(levels: LevelList, ids: set<nat>): (r: LevelList)
    ensures |r| == |levels|
  {
    seq(|levels|, (l: int) requires 0 <= l < |levels| => Retain(levels[l], ids))
  }

  ghost function SeqSet(ms: seq<Meta>): set<Meta>
  {
    set m | m in ms
  }

  /** All tables of all levels. */
  ghost function Metas(levels: LevelList): set<Meta>
  {
    set l, m | 0 <= l < |levels| && m in levels[l] :: m
  }

  /** Every table stands at its own level. */
  ghost predicate Placed(levels: LevelList)
  {
    forall l, m :: 0 <= l < |levels| && m in levels[l] ==> m.level == l
  }

  lemma {:induction false} RetainKeeps(ms: seq<Meta>, ids: set<nat>, m: Meta)
    ensures m in Retain(ms, ids) <==> m in ms && m.id !in ids
  {
    if ms != [] {
      RetainKeeps(ms[1..], ids, m);
      assert m in ms <==> m == ms[0] || m in ms[1..];
    }
  }

  lemma RemoveMetas(levels: LevelList, ids: set<nat>)
    requires Placed(levels)
    ensures Placed(RemoveTables(levels, ids))
    ensures forall m :: m in Metas(RemoveTables(levels, ids)) <==> m in Metas(levels) && m.id !in ids
  {
    var kept := RemoveTables(levels, ids);
    forall l, m | 0 <= l < |kept| && m in kept[l]
      ensures m in levels[l] && m.id !in ids
    {
      RetainKeeps(levels[l], ids, m);
    }
    assert Placed(kept);
    forall m | m in Metas(levels) && m.id !in ids
      ensures m in Metas(kept)
    {
      var l :| 0 <= l < |levels| && m in levels[l];
      RetainKeeps(levels[l], ids, m);
      assert m in kept[l];
    }
    forall m | m in Metas(kept)
      ensures m in Metas(levels) && m.id !in ids
    {
      var l :| 0 <= l < |kept| && m in kept[l];
      assert m in levels[l];
    }
  }

  lemma AddMetas(levels: LevelList, m: Meta)
    requires Placed(levels)
    ensures Placed(AddTable(levels, m)) && Metas(AddTable(levels, m)) == Metas(levels) + {m}
  {
    var ls := Grown(levels, m.level + 1);
    var ls' := AddTable(levels, m);
    assert m in ls'[m.level];
    forall x | x in Metas(levels)
      ensures x in Metas(ls')
    {
      var l :| 0 <= l < |levels| && x in levels[l];
      assert x in ls'[l];
    }
  }

  lemma LevelMetas(levels: LevelList, n: nat, m: Meta)
    requires Placed(levels)
    ensures m in Level(levels, n) <==> m in Metas(levels) && m.level == n
  {
  }

  function Pow(b: nat, e: nat): nat
  {
    if e == 0 then 1 else b * Pow(b, e - 1)
  }

  /** More tables at level `l` than its target. */
  predicate TooMany(levels: LevelList, trigger: nat, ratio: nat, l: nat)
  {
    |Level(levels, l)| > trigger * Pow(ratio, l)
  }

  function FirstOver(levels: LevelList, trigger: nat, ratio: nat, l: nat): Option<nat>
    decreases |levels| - l
  {
    if l + 1 >= |levels| then None
    else if TooMany(levels, trigger, ratio, l) then Some(l)
    else FirstOver(levels, trigger, ratio, l + 1)
  }

  function NeedsLevel(levels: LevelList, trigger: nat, ratio: nat): Option<nat>
  {
    if |Level(levels, 0)| >= trigger then Some(0) else FirstOver(levels, trigger, ratio, 1)
  }

  /** Level 0 goes first, then the first level over its target; the last level is never chosen. */
  lemma {:induction false} FirstOverIsFirst(levels: LevelList, trigger: nat, ratio: nat, from: nat)
    ensures match FirstOver(levels, trigger, ratio, from)
            case Some(l) =>
              && from <= l < |levels| - 1 && TooMany(levels, trigger, ratio, l)
              && forall j :: from <= j < l ==> !TooMany(levels, trigger, ratio, j)
            case None => forall j :: from <= j < |levels| - 1 ==> !TooMany(levels, trigger, ratio, j)
    decreases |levels| - from
  {
    if from + 1 < |levels| && !TooMany(levels, trigger, ratio, from) {
      FirstOverIsFirst(levels, trigger, ratio, from + 1);
    }
  }

  // ------------------------------------------------------------------ table ids

  /** The ids of the listed tables lie below the counter. */
  ghost predicate IdsBelow(levels: LevelList, nextId: nat)
  {
    forall m :: m in Metas(levels) ==> m.id < nextId
  }

  /**
   When nothing needs compaction level 0 holds fewer tables than the trigger, and each further level
   but the last at most the trigger times its power of the ratio; else the level named is the first
   one that breaks this.
   */
  lemma NeedsLevelExactly(levels: LevelList, trigger: nat, ratio: nat)
    ensures match NeedsLevel(levels, trigger, ratio)
            case None =>
              && |Level(levels, 0)| < trigger
              && forall l :: 1 <= l < |levels| - 1 ==> |levels[l]| <= trigger * Pow(ratio, l)
            case Some(n) =>
              if n == 0 then |Level(levels, 0)| >= trigger
              else
                && |Level(levels, 0)| < trigger && n < |levels| - 1 && |levels[n]| > trigger * Pow(ratio, n)
                && forall l :: 1 <= l < n ==> |levels[l]| <= trigger * Pow(ratio, l)
  {
    hide Pow;
    FirstOverIsFirst(levels, trigger, ratio, 1);
    assert forall l :: 1 <= l < |levels| - 1 && !TooMany(levels, trigger, ratio, l) ==>
             |levels[l]| <= trigger * Pow(ratio, l);
  }

  /** Level by level, what adding a table does. */
  lemma AddedLevels(levels: LevelList, m: Meta)
    ensures forall l: nat :: Level(AddTable(levels, m), l) == Level(levels, l) + if l == m.level then [m] else []
    ensures Metas(AddTable(levels, m)) == Metas(levels) + {m}
  {
    var ls' := AddTable(levels, m);
    assert m in ls'[m.level];
    forall x | x in Metas(levels) ensures x in Metas(ls') {
      var l :| 0 <= l < |levels| && x in levels[l];
      assert x in ls'[l];
    }
  }

  /** A new table takes the next id; tables are removed by id. */
  datatype ManifestOp = AddNew(level: nat, minKey: Bytes, maxKey: Bytes) | RemoveIds(ids: set<nat>)

  function Applied(levels: LevelList, nextId: nat, op: ManifestOp): (LevelList, nat)
  {
    match op
    case AddNew(l, lo, hi) => (AddTable(levels, Meta(nextId, l, lo, hi)), nextId + 1)
    case RemoveIds(ids) => (RemoveTables(levels, ids), nextId)
  }

  function AppliedAll(levels: LevelList, nextId: nat, ops: seq<ManifestOp>): (LevelList, nat)
    decreases |ops|
  {
    if ops == [] then (levels, nextId)
    else
      var (ls, id) := Applied(levels, nextId, ops[0]);
      AppliedAll(ls, id, ops[1..])
  }

  /** Through any history ids stay distinct and below the counter, and an id that was retired never comes back. */
  lemma {:induction false} IdsNeverReturn(levels: LevelList, nextId: nat, ops: seq<ManifestOp>)
    requires Placed(levels) && IdsBelow(levels, nextId) && DistinctTables(Metas(levels))
    ensures var (ls, id) := AppliedAll(levels, nextId, ops);
            && Placed(ls) && IdsBelow(ls, id) && DistinctTables(Metas(ls)) && id >= nextId
            && forall m :: m in Metas(ls) ==> m in Metas(levels) || m.id >= nextId
    decreases |ops|
  {
    hide Placed, AddTable, RemoveTables, Metas;
    if ops != [] {
      match ops[0] {
        case AddNew(l, lo, hi) => AddMetas(levels, Meta(nextId, l, lo, hi));
        case RemoveIds(ids) => RemoveMetas(levels, ids);
      }
      var (ls, id) := Applied(levels, nextId, ops[0]);
      IdsNeverReturn(ls, id, ops[1..]);
    }
  }

  class Manifest {
    var levels: LevelList
    var nextSstId: nat

    constructor (numLevels: nat)
      ensures levels == seq(numLevels, _ => []) && nextSstId == 0
    {
      levels := seq(numLevels, _ => []);
      nextSstId := 0;
    }

    constructor Load(levels: LevelList, nextSstId: nat)
      ensures this.levels == levels && this.nextSstId == nextSstId
    {
      this.levels, this.nextSstId := levels, nextSstId;
    }

    /** An id that no listed table has and that is not handed out again. */
    method NextSstId() returns (id: nat)
      modifies this`nextSstId
      ensures id == old(nextSstId) && nextSstId == id + 1
      ensures IdsBelow(levels, old(nextSstId)) ==>
                IdsBelow(levels, nextSstId) && forall m :: m in Metas(levels) ==> m.id != id
    {
      id := nextSstId;
      nextSstId := nextSstId + 1;
    }

    /** The table becomes the last one of its level; every other level is as before. */
    method AddSSTable(m: Meta)
      modifies this`levels
      ensures levels == AddTable(old(levels), m)
      ensures forall l: nat :: Level(levels, l) == Level(old(levels), l) + if l == m.level then [m] else []
      ensures Metas(levels) == Metas(old(levels)) + {m}
    {
      AddedLevels(levels, m);
      levels := Grown(levels, m.level + 1);
      levels := levels[m.level := levels[m.level] + [m]];
    }

    method RemoveSSTables(ids: set<nat>)
      modifies this`levels
      ensures levels == RemoveTables(old(levels), ids)
    {
      ghost var before := levels;
      for l := 0 to |levels|
        invariant |levels| == |before|
        invariant forall j :: 0 <= j < |before| ==> levels[j] == if j < l then Retain(before[j], ids) else before[j]
      {
        var kept := RetainLoop(levels[l], ids);
        levels := levels[l := kept];
      }
    }

    static method RetainLoop(ms: seq<Meta>, ids: set<nat>) returns (kept: seq<Meta>)
      ensures kept == Retain(ms, ids)
    {
      kept := [];
      assert ms[0..] == ms;
      for i := 0 to |ms|
        invariant kept + Retain(ms[i..], ids) == Retain(ms, ids)
      {
        assert ms[i..][1..] == ms[i + 1..];
        if ms[i].id !in ids { kept := kept + [ms[i]]; }
      }
    }

    method NeedsCompaction(trigger: nat, ratio: nat) returns (r: Option<nat>)
      requires |levels| >= 1
      ensures r == NeedsLevel(levels, trigger, ratio)
    {
      if |levels[0]| >= trigger { return Some(0); }
      var l := 1;
      while l < |levels| - 1
        invariant 1 <= l && FirstOver(levels, trigger, ratio, 1) == FirstOver(levels, trigger, ratio, l)
      {
        if |levels[l]| > trigger * Pow(ratio, l) { return Some(l); }
        l := l + 1;
      }
      r := None;
    }
  }
}
