/**
 Which table answers a lookup. Tables are searched by level, and inside a level from the newest
 to the oldest; the first one that holds the key decides.
 */
module Levels {
  import opened Common
  import opened Bytes
  import opened Entries

  /** A table as the manifest lists it. */
  datatype Meta = Meta(id: nat, level: nat, minKey: Bytes, maxKey: Bytes)

  /** The entries of the table with a given id. */
  type Contents = map<nat, seq<Entry>>

  /** Search order. */
  predicate Before(a: Meta, b: Meta)
  {
    a.level < b.level || (a.level == b.level && a.id > b.id)
  }

  ghost predicate Has(c: Contents, m: Meta, k: Bytes)
  {
    m.id in c && k in Keys(c[m.id])
  }

  ghost function SlotIn(c: Contents, m: Meta, k: Bytes): Slot
    requires Has(c, m, k)
  {
    Find(c[m.id], k).value
  }

  /** Of all tables that hold the key, `w` is searched first. */
  ghost predicate Winner(ms: set<Meta>, c: Contents, k: Bytes, w: Meta)
  {
    w in ms && Has(c, w, k) && forall m :: m in ms && Has(c, m, k) && m != w ==> Before(w, m)
  }

  /** What the tables answer: nothing, a tombstone or a value. */
  ghost function TableSlot(ms: set<Meta>, c: Contents, k: Bytes): Option<Slot>
  {
    if exists w :: Winner(ms, c, k, w) then
      var w :| Winner(ms, c, k, w);
      Some(SlotIn(c, w, k))
    else None
  }

  /** What a reader sees: tombstones look like absence. */
  function Visible(s: Option<Slot>): Option<Bytes>
  {
    match s
    case Some(v) => v
    case None => None
  }

  lemma WinnerUnique(ms: set<Meta>, c: Contents, k: Bytes, a: Meta, b: Meta)
    requires Winner(ms, c, k, a) && Winner(ms, c, k, b)
    ensures a == b
  {
  }

  lemma WinnerDecides(ms: set<Meta>, c: Contents, k: Bytes, w: Meta)
    requires Winner(ms, c, k, w)
    ensures TableSlot(ms, c, k) == Some(SlotIn(c, w, k))
  {
    var x :| Winner(ms, c, k, x) && TableSlot(ms, c, k) == Some(SlotIn(c, x, k));
    WinnerUnique(ms, c, k, w, x);
  }

  ghost predicate DistinctTables(ms: set<Meta>)
  {
    forall a, b :: a in ms && b in ms && a.id == b.id ==> a == b
  }

  lemma {:induction false} WinnerExists(ms: set<Meta>, c: Contents, k: Bytes, m: Meta) returns (w: Meta)
    requires DistinctTables(ms) && m in ms && Has(c, m, k)
    ensures Winner(ms, c, k, w)
    decreases ms
  {
    var others := ms - {m};
    if exists x :: x in others && Has(c, x, k) {
      var x :| x in others && Has(c, x, k);
      var v := WinnerExists(others, c, k, x);
      w := if Before(m, v) then m else v;
      assert forall y :: y in ms ==> y == m || y in others;
    } else {
      w := m;
    }
  }

  /** No table holds the key exactly when the tables answer nothing. */
  lemma AbsentIffNone(ms: set<Meta>, c: Contents, k: Bytes)
    requires DistinctTables(ms)
    ensures TableSlot(ms, c, k) == None <==> forall m :: m in ms ==> !Has(c, m, k)
  {
    if m :| m in ms && Has(c, m, k) {
      var w := WinnerExists(ms, c, k, m);
      WinnerDecides(ms, c, k, w);
    }
  }

  // -------------------------------------------------------------- invariant

  ghost predicate MetaOk(m: Meta, nextId: nat, c: Contents)
  {
    && m.id < nextId && m.id in c
    && Sorted(c[m.id]) && c[m.id] != []
    && m.minKey == c[m.id][0].key && m.maxKey == c[m.id][|c[m.id]| - 1].key
  }

  /** The key ranges of the two tables do not touch. */
  predicate Apart(a: Meta, b: Meta)
  {
    Lt(a.maxKey, b.minKey) || Lt(b.maxKey, a.minKey)
  }

  ghost predicate DisjointLevels(ms: set<Meta>)
  {
    forall a, b :: a in ms && b in ms && a != b && a.level == b.level && a.level >= 1 ==> Apart(a, b)
  }

  ghost predicate ShelfOk(ms: set<Meta>, nextId: nat, c: Contents)
  {
    && (forall m :: m in ms ==> MetaOk(m, nextId, c))
    && DistinctTables(ms) && DisjointLevels(ms)
  }

  lemma KeyInRange(m: Meta, nextId: nat, c: Contents, k: Bytes)
    requires MetaOk(m, nextId, c) && Has(c, m, k)
    ensures Le(m.minKey, k) && Le(k, m.maxKey)
  {
    var es := c[m.id];
    var i :| 0 <= i < |es| && es[i].key == k;
    if i > 0 { assert Lt(es[0].key, es[i].key); }
    if i < |es| - 1 { assert Lt(es[i].key, es[|es| - 1].key); }
  }

  lemma LeTransitive(a: Bytes, b: Bytes, c: Bytes)
    requires Le(a, b) && Le(b, c)
    ensures Le(a, c)
  {
    if a != b && b != c { LtTransitive(a, b, c); }
  }

  lemma LtNotLe(a: Bytes, b: Bytes)
    ensures Lt(a, b) <==> !Le(b, a)
  {
    LtTotal(a, b);
    LtIrreflexive(a);
    if Lt(a, b) { LtAsymmetric(a, b); }
  }

  /** Tables whose ranges are apart share no key. */
  lemma ApartShareNothing(a: Meta, b: Meta, nextId: nat, c: Contents, k: Bytes)
    requires MetaOk(a, nextId, c) && MetaOk(b, nextId, c) && Apart(a, b) && Has(c, a, k)
    ensures !Has(c, b, k)
  {
    if Has(c, b, k) {
      KeyInRange(a, nextId, c, k);
      KeyInRange(b, nextId, c, k);
      LeTransitive(a.minKey, k, b.maxKey);
      LeTransitive(b.minKey, k, a.maxKey);
      LtNotLe(a.maxKey, b.minKey);
      LtNotLe(b.maxKey, a.minKey);
    }
  }

  // ------------------------------------------------------------- compaction

  /** The tables that a merge of level `n` into the next one replaces. */
  ghost predicate Replaced(ms: set<Meta>, n: nat, gone: set<Meta>)
  {
    && gone <= ms
    && (forall m :: m in ms && m.level == n ==> m in gone)
    && (forall m :: m in gone ==> m.level == n || m.level == n + 1)
    && (forall m, g :: m in ms - gone && g in gone && m.level == n + 1 ==> Apart(m, g))
  }

  /** A table of a level above `n` holds the key, so the merge cannot matter to it. */
  ghost predicate Shadowed(ms: set<Meta>, c: Contents, n: nat, k: Bytes)
  {
    exists m :: m in ms && m.level < n && Has(c, m, k)
  }

  /** The merged table, if anything is left to write. */
  ghost predicate Merged(ms: set<Meta>, c: Contents, n: nat, gone: set<Meta>, added: set<Meta>, c': Contents)
  {
    && (forall m :: m in ms - gone ==> m.id in c && m.id in c' && c'[m.id] == c[m.id])
    && (forall x, y :: x in added && y in added ==> x == y)
    && (forall x :: x in added ==> x.level == n + 1 && x !in ms && forall m :: m in ms - gone && m.level == n + 1 ==>
         Apart(m, x))
  }

  /** What the merged table answers. */
  ghost function AddedSlot(added: set<Meta>, c': Contents, k: Bytes): Option<Slot>
  {
    if exists x :: x in added && Has(c', x, k) then
      var x :| x in added && Has(c', x, k);
      Some(SlotIn(c', x, k))
    else None
  }

  lemma WinnerAbove(ms: set<Meta>, c: Contents, n: nat, k: Bytes, gone: set<Meta>, added: set<Meta>, c': Contents,
                    w: Meta)
    requires Replaced(ms, n, gone) && Merged(ms, c, n, gone, added, c') && Winner(ms, c, k, w) && w.level < n
    ensures TableSlot(ms - gone + added, c', k) == TableSlot(ms, c, k)
  {
    var ms' := ms - gone + added;
    assert Winner(ms', c', k, w) by {
      forall m | m in ms' && Has(c', m, k) && m != w ensures Before(w, m) {
        if m in ms - gone { assert Has(c, m, k); }
      }
    }
    WinnerDecides(ms', c', k, w);
    WinnerDecides(ms, c, k, w);
  }

  /** A key that only untouched tables hold is answered by the same table. */
  lemma WinnerUntouched(ms: set<Meta>, c: Contents, n: nat, k: Bytes, gone: set<Meta>, added: set<Meta>, c': Contents)
    requires Replaced(ms, n, gone) && Merged(ms, c, n, gone, added, c') && DistinctTables(ms)
             && DistinctTables(ms - gone + added)
    requires forall m :: (m in gone ==> !Has(c, m, k)) && (m in added ==> !Has(c', m, k))
    ensures TableSlot(ms - gone + added, c', k) == TableSlot(ms, c, k)
  {
    var ms' := ms - gone + added;
    AbsentIffNone(ms, c, k);
    AbsentIffNone(ms', c', k);
    if m :| m in ms && Has(c, m, k) {
      var w := WinnerExists(ms, c, k, m);
      assert Winner(ms', c', k, w) by {
        assert Has(c', w, k);
        forall y | y in ms' && Has(c', y, k) && y != w ensures Before(w, y) {
          if y in ms - gone { assert Has(c, y, k); }
        }
      }
      WinnerDecides(ms', c', k, w);
      WinnerDecides(ms, c, k, w);
    } else {
      forall y | y in ms' ensures !Has(c', y, k) {
        if y in ms - gone { assert !Has(c, y, k); }
      }
    }
  }

  /** An unshadowed key of the replaced tables was answered by one of them. */
  lemma WinnerAmongGone(ms: set<Meta>, c: Contents, n: nat, nextId: nat, k: Bytes, gone: set<Meta>, g: Meta)
    requires ShelfOk(ms, nextId, c) && Replaced(ms, n, gone) && !Shadowed(ms, c, n, k) && g in gone && Has(c, g, k)
    ensures TableSlot(ms, c, k) == TableSlot(gone, c, k) && TableSlot(gone, c, k).Some?
  {
    var w := WinnerExists(gone, c, k, g);
    forall m | m in ms && Has(c, m, k) && m != w ensures Before(w, m) {
      if m !in gone && m.level == n + 1 {
        ApartShareNothing(m, w, nextId, c, k);
        assert false;
      }
    }
    WinnerDecides(gone, c, k, w);
    WinnerDecides(ms, c, k, w);
  }

  /** After the merge an unshadowed key of the merged table is answered by it. */
  lemma WinnerIsAdded(ms: set<Meta>, c: Contents, n: nat, nextId: nat, k: Bytes, gone: set<Meta>, added: set<Meta>,
                      c': Contents, x: Meta)
    requires Replaced(ms, n, gone) && Merged(ms, c, n, gone, added, c') && !Shadowed(ms, c, n, k)
    requires x in added && Has(c', x, k)
    requires forall m :: m in ms - gone + added ==> MetaOk(m, nextId, c')
    ensures TableSlot(ms - gone + added, c', k) == AddedSlot(added, c', k)
  {
    var ms' := ms - gone + added;
    forall m | m in ms' && Has(c', m, k) && m != x ensures Before(x, m) {
      assert m in ms - gone && Has(c, m, k);
      if m.level == n + 1 {
        ApartShareNothing(m, x, nextId, c', k);
        assert false;
      }
    }
    WinnerDecides(ms', c', k, x);
  }

  /** Nothing but the replaced tables held the key and the merge dropped it: it is gone. */
  lemma NobodyLeft(ms: set<Meta>, c: Contents, n: nat, nextId: nat, k: Bytes, gone: set<Meta>, added: set<Meta>,
                   c': Contents, g: Meta)
    requires ShelfOk(ms, nextId, c) && Replaced(ms, n, gone) && Merged(ms, c, n, gone, added, c')
             && !Shadowed(ms, c, n, k)
    requires g in gone && Has(c, g, k) && (forall x :: x in added ==> !Has(c', x, k))
    requires DistinctTables(ms - gone + added)
    requires forall m :: m in ms ==> m.level <= n + 1
    ensures TableSlot(ms - gone + added, c', k) == None
  {
    var ms' := ms - gone + added;
    forall m | m in ms' ensures !Has(c', m, k) {
      if m in ms - gone && Has(c, m, k) {
        ApartShareNothing(m, g, nextId, c, k);
        assert false;
      }
    }
    AbsentIffNone(ms', c', k);
  }

  /**
   Compaction, exactly: a key reads the same after the merge as before if and only if a level above
   hides it, or what the merged table says of it reads the same as what the newest of the replaced
   tables said. `merged` is what the merge chose for the key before tombstones were dropped.
   */
  lemma CompactionExactly(ms: set<Meta>, c: Contents, n: nat, nextId: nat, k: Bytes, gone: set<Meta>, added: set<Meta>,
                          c': Contents, merged: Option<Slot>, deepest: bool)
    requires ShelfOk(ms, nextId, c) && Replaced(ms, n, gone) && Merged(ms, c, n, gone, added, c')
    requires (forall m :: m in ms - gone + added ==> MetaOk(m, nextId + 1, c')) && DistinctTables(ms - gone + added)
    requires deepest ==> forall m :: m in ms ==> m.level <= n + 1
    requires merged.Some? <==> exists g :: g in gone && Has(c, g, k)
    requires AddedSlot(added, c', k) == if deepest && merged == Some(None) then None else merged
    ensures Visible(TableSlot(ms - gone + added, c', k)) == Visible(TableSlot(ms, c, k))
            <==> Shadowed(ms, c, n, k) || Visible(merged) == Visible(TableSlot(gone, c, k))
  {
    var ms' := ms - gone + added;
    if m :| m in ms && m.level < n && Has(c, m, k) {
      var w := WinnerExists(ms, c, k, m);
      WinnerAbove(ms, c, n, k, gone, added, c', w);
    } else if g :| g in gone && Has(c, g, k) {
      WinnerAmongGone(ms, c, n, nextId, k, gone, g);
      if x :| x in added && Has(c', x, k) {
        WinnerIsAdded(ms, c, n, nextId + 1, k, gone, added, c', x);
      } else {
        NobodyLeft(ms, c, n, nextId, k, gone, added, c', g);
      }
    } else {
      NoWinner(gone, c, k);
      WinnerUntouched(ms, c, n, k, gone, added, c');
    }
  }

  lemma NoWinner(ms: set<Meta>, c: Contents, k: Bytes)
    requires forall m :: m in ms ==> !Has(c, m, k)
    ensures TableSlot(ms, c, k) == None
  {
  }
}
