/** Majorities of finite sets and their intersections. */
module Quorums {
  import opened RaftTypes

  /** More than half of the members: `size / 2 + 1` or more. */
  predicate IsMajority(q: set<NodeId>, members: set<NodeId>)
  {
    |q * members| >= |members| / 2 + 1
  }

  /** Two subsets whose sizes add up to more than the whole share an element. */
  lemma Pigeonhole(a: set<NodeId>, b: set<NodeId>, whole: set<NodeId>)
    requires a <= whole && b <= whole && |a| + |b| > |whole|
    ensures a * b != {}
  {
    SubsetSize(a + b, whole);
    assert |a + b| == |a| + |b| - |a * b|;
  }

  lemma {:induction false} SubsetSize(a: set<NodeId>, b: set<NodeId>)
    requires a <= b
    ensures |a| <= |b|
  {
    if a != {} {
      var x :| x in a;
      SubsetSize(a - {x}, b - {x});
    }
  }

  lemma MajoritiesMeet(a: set<NodeId>, b: set<NodeId>, members: set<NodeId>) returns (x: NodeId)
    requires IsMajority(a, members) && IsMajority(b, members)
    ensures x in a && x in b && x in members
  {
    Pigeonhole(a * members, b * members, members);
    x :| x in (a * members) * (b * members);
  }
}
