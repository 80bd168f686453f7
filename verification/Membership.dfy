/**
 Cluster membership with joint consensus (section 6 of the Raft paper): the quorum test, one
 change at a time, and the overlap of every two quorums accepted around a change.
 */
module MembershipStates {
  import opened Common
  import opened RaftTypes
  import opened Quorums

  datatype MemberInfo = MemberInfo(id: NodeId, address: string)

  type Config = seq<MemberInfo>

  datatype ConfigChange = AddNode(id: NodeId, address: string) | RemoveNode(id: NodeId)

  datatype JointConfig = JointConfig(old_: Config, new_: Config)

  datatype MembershipError =
    | ChangeInProgress
    | NodeAlreadyExists(id: NodeId)
    | NodeNotFound(id: NodeId)
    | CannotRemoveLastNode

  function Ids(c: Config): set<NodeId>
  {
    set i | 0 <= i < |c| :: c[i].id
  }

  predicate Contains(c: Config, id: NodeId)
  {
    exists i :: 0 <= i < |c| && c[i].id == id
  }

  /** `members.iter().filter(|m| voters.contains(&m.id)).count()` */
  function CountIn(c: Config, voters: set<NodeId>): nat
  {
    if c == [] then 0
    else CountIn(c[..|c| - 1], voters) + if c[|c| - 1].id in voters then 1 else 0
  }

  /** `members.retain(|m| m.id != id)` */
  function Without(c: Config, id: NodeId): (r: Config)
    ensures Ids(r) == Ids(c) - {id}
    ensures |r| <= |c|
  {
    if c == [] then []
    else
      var last := c[|c| - 1];
      var rest := Without(c[..|c| - 1], id);
      assert Ids(c) == Ids(c[..|c| - 1]) + {last.id};
      if last.id == id then rest
      else assert Ids(rest + [last]) == Ids(rest) + {last.id} by {
             assert forall i :: 0 <= i < |rest| ==> (rest + [last])[i] == rest[i];
             assert (rest + [last])[|rest|] == last;
           }
           rest + [last]
  }

  datatype Membership = Membership(current: Config, pending: Option<Config>, changeInProgress: bool) {

    predicate HasQuorum(voters: set<NodeId>)
    {
      && CountIn(current, voters) >= |current| / 2 + 1
      && (pending.Some? ==> CountIn(pending.value, voters) >= |pending.value| / 2 + 1)
    }

    predicate IsVoter(id: NodeId)
    {
      id in Ids(current) || (pending.Some? && id in Ids(pending.value))
    }

    function BeginChange(change: ConfigChange): Result<(Membership, JointConfig), MembershipError>
    {
      if changeInProgress then Err(ChangeInProgress)
      else match change
           case AddNode(id, address) =>
             if Contains(current, id) then Err(NodeAlreadyExists(id))
             else Ok(Joint(current + [MemberInfo(id, address)]))
           case RemoveNode(id) =>
             if !Contains(current, id) then Err(NodeNotFound(id))
             else if Without(current, id) == [] then Err(CannotRemoveLastNode)
             else Ok(Joint(Without(current, id)))
    }

    function Joint(next: Config): (Membership, JointConfig)
    {
      (Membership(current, Some(next), true), JointConfig(current, next))
    }

    function FinalizeJoint(): (Membership, Option<Config>)
    {
      match pending
      case Some(next) => (Membership(next, None, false), Some(next))
      case None => (this, None)
    }

    function AbortChange(): Membership
    {
      Membership(current, None, false)
    }

    function ApplyNewConfig(config: Config): Membership
    {
      Membership(config, None, false)
    }
  }

  function Initial(self: NodeId, peers: seq<NodeId>): Membership
  {
    Membership([MemberInfo(self, "")] + seq(|peers|, i requires 0 <= i < |peers| => MemberInfo(peers[i], "")), None,
        false)
  }

  // ------------------------------------------------------------ counting facts

  predicate DistinctIds(c: Config)
  {
    forall i, j :: 0 <= i < j < |c| ==> c[i].id != c[j].id
  }

  lemma LastIsNew(c: Config)
    requires DistinctIds(c) && c != []
    ensures DistinctIds(c[..|c| - 1]) && Ids(c) == Ids(c[..|c| - 1]) + {c[|c| - 1].id}
            && c[|c| - 1].id !in Ids(c[..|c| - 1])
  {
    var init, last := c[..|c| - 1], c[|c| - 1];
    forall x | x in Ids(c) ensures x in Ids(init) + {last.id} {
      var i :| 0 <= i < |c| && c[i].id == x;
      assert i < |init| ==> init[i] in init;
    }
  }

  /** One new element in a set, and whether it is in another. */
  lemma OneMore(s: set<NodeId>, x: NodeId, voters: set<NodeId>)
    requires x !in s
    ensures |s + {x}| == |s| + 1
    ensures |(s + {x}) * voters| == |s * voters| + if x in voters then 1 else 0
  {
    assert (s + {x}) * voters == s * voters + (if x in voters then {x} else {});
  }

  lemma NoIds(voters: set<NodeId>)
    ensures Ids([]) == {} && Ids([]) * voters == {}
  {
  }

  lemma {:induction false} CountIsIntersection(c: Config, voters: set<NodeId>)
    requires DistinctIds(c)
    ensures CountIn(c, voters) == |Ids(c) * voters|
    ensures |Ids(c)| == |c|
  {
    hide Ids, DistinctIds;
    if c == [] {
      NoIds(voters);
    } else {
      var init, last := c[..|c| - 1], c[|c| - 1];
      LastIsNew(c);
      CountIsIntersection(init, voters);
      OneMore(Ids(init), last.id, voters);
    }
  }

  lemma {:induction false} WithoutDistinct(c: Config, id: NodeId)
    requires DistinctIds(c)
    ensures DistinctIds(Without(c, id))
  {
    if c != [] {
      var init, last := c[..|c| - 1], c[|c| - 1];
      WithoutDistinct(init, id);
      var rest := Without(init, id);
      assert last.id !in Ids(init);
      forall i | 0 <= i < |rest|
        ensures rest[i].id != last.id
      {
        assert rest[i].id in Ids(rest);
      }
    }
  }

  // ---------------------------------------------------------------- invariant

  /** `next` has exactly one member more or one member less than `c`. */
  ghost predicate OneStep(c: Config, next: Config)
  {
    || (exists x :: x !in Ids(c) && Ids(next) == Ids(c) + {x})
    || (exists x :: x in Ids(c) && Ids(next) == Ids(c) - {x})
  }

  predicate GoodConfig(c: Config)
  {
    DistinctIds(c) && |c| > 0
  }

  ghost predicate Inv(m: Membership)
  {
    && GoodConfig(m.current)
    && (m.pending.Some? <==> m.changeInProgress)
    && (m.pending.Some? ==> GoodConfig(m.pending.value) && OneStep(m.current, m.pending.value))
  }

  datatype Op = Begin(change: ConfigChange) | Finalize | Abort

  function Apply(m: Membership, op: Op): Membership
  {
    match op
    case Begin(change) => (match m.BeginChange(change) case Ok(r) => r.0 case Err(_) => m)
    case Finalize => m.FinalizeJoint().0
    case Abort => m.AbortChange()
  }

  function ApplyAll(m: Membership, ops: seq<Op>): Membership
  {
    if ops == [] then m else Apply(ApplyAll(m, ops[..|ops| - 1]), ops[|ops| - 1])
  }

  lemma BeginKeepsInv(m: Membership, change: ConfigChange)
    requires Inv(m) && m.BeginChange(change).Ok?
    ensures Inv(m.BeginChange(change).value.0)
  {
    var next := m.BeginChange(change).value.1.new_;
    match change {
      case AddNode(id, address) =>
        assert next == m.current + [MemberInfo(id, address)];
        assert forall i :: 0 <= i < |m.current| ==> next[i] == m.current[i];
        assert next[|m.current|].id == id;
        assert Ids(next) == Ids(m.current) + {id};
      case RemoveNode(id) =>
        WithoutDistinct(m.current, id);
        assert id in Ids(m.current);
    }
  }

  // ------------------------------------------------------- what a change changes

  lemma {:induction false} WithoutMembers(c: Config, id: NodeId, x: MemberInfo)
    ensures x in Without(c, id) <==> x in c && x.id != id
  {
    if c != [] {
      WithoutMembers(c[..|c| - 1], id, x);
      assert c == c[..|c| - 1] + [c[|c| - 1]];
    }
  }

  lemma {:induction false} WithoutOthers(c: Config, id: NodeId)
    requires !Contains(c, id)
    ensures Without(c, id) == c
  {
    if c != [] {
      var init := c[..|c| - 1];
      assert c[|c| - 1].id != id;
      assert forall i :: 0 <= i < |init| ==> init[i] == c[i];
      WithoutOthers(init, id);
      assert c == init + [c[|c| - 1]];
    }
  }

  /** Of distinct members one leaves, and the others close up in their order. */
  lemma {:induction false} WithoutCutsOne(c: Config, id: NodeId, j: nat)
    requires DistinctIds(c) && j < |c| && c[j].id == id
    ensures Without(c, id) == c[..j] + c[j + 1..]
  {
    var n := |c| - 1;
    if j == n {
      assert !Contains(c[..n], id);
      WithoutOthers(c[..n], id);
    } else {
      assert c[n].id != id;
      WithoutCutsOne(c[..n], id, j);
      assert c[..n][..j] + c[..n][j + 1..] + [c[n]] == c[..j] + c[j + 1..];
    }
  }

  /** What adding a node does: every error under exactly its condition, and else the node at the end. */
  lemma AddNodeExactly(m: Membership, id: NodeId, address: string)
    ensures match m.BeginChange(AddNode(id, address))
            case Err(e) =>
              || (e == ChangeInProgress && m.changeInProgress)
              || (e == NodeAlreadyExists(id) && !m.changeInProgress && id in Ids(m.current))
            case Ok((m', joint)) =>
              && !m.changeInProgress && id !in Ids(m.current)
              && joint == JointConfig(m.current, m.current + [MemberInfo(id, address)])
              && m'.current == m.current && m'.pending == Some(joint.new_) && m'.changeInProgress
              && m'.FinalizeJoint() == (Membership(joint.new_, None, false), Some(joint.new_))
              && m.ApplyNewConfig(joint.new_) == m'.FinalizeJoint().0
              && m'.AbortChange() == Membership(m.current, None, false)
  {
  }

  /**
   What removing a node does: every error under exactly its condition, and else a configuration of
   exactly the other members, in their order, which takes over when the change is finalized.
   */
  lemma RemoveNodeExactly(m: Membership, id: NodeId)
    ensures match m.BeginChange(RemoveNode(id))
            case Err(e) =>
              || (e == ChangeInProgress && m.changeInProgress)
              || (e == NodeNotFound(id) && !m.changeInProgress && id !in Ids(m.current))
              || (e == CannotRemoveLastNode && !m.changeInProgress && Ids(m.current) == {id})
            case Ok((m', joint)) =>
              && !m.changeInProgress && id in Ids(m.current) && Ids(m.current) != {id}
              && joint.old_ == m.current == m'.current && m'.pending == Some(joint.new_) && m'.changeInProgress
              && (forall x :: x in joint.new_ <==> x in m.current && x.id != id)
              && (DistinctIds(m.current) ==>
                    exists j :: 0 <= j < |m.current| && m.current[j].id == id
                                && joint.new_ == m.current[..j] + m.current[j + 1..])
              && m'.FinalizeJoint() == (Membership(joint.new_, None, false), Some(joint.new_))
              && m.ApplyNewConfig(joint.new_) == m'.FinalizeJoint().0
              && m'.AbortChange() == Membership(m.current, None, false)
  {
    var rest := Without(m.current, id);
    forall x ensures x in rest <==> x in m.current && x.id != id { WithoutMembers(m.current, id, x); }
    if rest != [] { assert rest[0].id in Ids(rest); }
    if DistinctIds(m.current) && Contains(m.current, id) {
      var j :| 0 <= j < |m.current| && m.current[j].id == id;
      WithoutCutsOne(m.current, id, j);
    }
  }

  /** Who votes after a finished change: the others as before, the added node, not the removed one. */
  lemma VotersAfterChange(m: Membership, change: ConfigChange, x: NodeId)
    requires m.BeginChange(change).Ok?
    ensures var joint := m.BeginChange(change).value.0;
            && (joint.IsVoter(x) <==> x in Ids(m.current) || x == change.id)
            && (joint.FinalizeJoint().0.IsVoter(x) <==> if x == change.id then change.AddNode? else x in Ids(m.current))
  {
    match change {
      case AddNode(id, address) =>
        var next := m.current + [MemberInfo(id, address)];
        assert forall i :: 0 <= i < |m.current| ==> next[i] == m.current[i];
        assert next[|m.current|].id == id;
        assert Ids(next) == Ids(m.current) + {id};
      case RemoveNode(id) =>
    }
  }

  lemma ApplyKeepsInv(m: Membership, op: Op)
    requires Inv(m)
    ensures Inv(Apply(m, op))
  {
    if op.Begin? && m.BeginChange(op.change).Ok? {
      BeginKeepsInv(m, op.change);
    }
  }

  lemma InitialInv(self: NodeId, peers: seq<NodeId>)
    requires self !in peers
    requires forall i, j :: 0 <= i < j < |peers| ==> peers[i] != peers[j]
    ensures Inv(Initial(self, peers))
    ensures Ids(Initial(self, peers).current) == {self} + set p | p in peers
  {
    var c := Initial(self, peers).current;
    assert forall i :: 1 <= i < |c| ==> c[i].id == peers[i - 1];
    forall p | p in {self} + set p | p in peers
      ensures p in Ids(c)
    {
      if p == self {
        assert c[0].id == p;
      } else {
        var i :| 0 <= i < |peers| && peers[i] == p;
        assert c[i + 1].id == p;
      }
    }
  }

  /** Member ids stay distinct and non-empty through every sequence of begin, finalize and abort. */
  lemma {:induction false} InvThroughAnySequence(m: Membership, ops: seq<Op>)
    requires Inv(m)
    ensures Inv(ApplyAll(m, ops))
  {
    if ops != [] {
      InvThroughAnySequence(m, ops[..|ops| - 1]);
      ApplyKeepsInv(ApplyAll(m, ops[..|ops| - 1]), ops[|ops| - 1]);
    }
  }

  // ------------------------------------------------------------ quorum overlap

  lemma SameConfigOverlap(c: Config, a: set<NodeId>, b: set<NodeId>)
    requires GoodConfig(c)
    requires CountIn(c, a) >= |c| / 2 + 1 && CountIn(c, b) >= |c| / 2 + 1
    ensures a * b != {}
  {
    CountIsIntersection(c, a);
    CountIsIntersection(c, b);
    Pigeonhole(Ids(c) * a, Ids(c) * b, Ids(c));
    var x :| x in (Ids(c) * a) * (Ids(c) * b);
    assert x in a * b;
  }

  lemma OneStepSizes(c: set<NodeId>, d: set<NodeId>)
    requires || (exists x :: x !in c && d == c + {x})
             || (exists x :: x in c && d == c - {x})
    ensures |c| / 2 + 1 + |d| / 2 + 1 > |c + d|
  {
    if x :| x !in c && d == c + {x} {
      assert c + d == d;
      assert |d| == |c| + 1;
    } else {
      var x :| x in c && d == c - {x};
      assert c + d == c;
      assert |d| == |c| - 1;
    }
  }

  /** Old against new directly: one added or removed node cannot split two majorities. */
  lemma OneStepOverlap(c: Config, d: Config, a: set<NodeId>, b: set<NodeId>)
    requires GoodConfig(c) && GoodConfig(d) && OneStep(c, d)
    requires CountIn(c, a) >= |c| / 2 + 1 && CountIn(d, b) >= |d| / 2 + 1
    ensures a * b != {}
  {
    CountIsIntersection(c, a);
    CountIsIntersection(d, b);
    OneStepSizes(Ids(c), Ids(d));
    var whole := Ids(c) + Ids(d);
    Pigeonhole(Ids(c) * a, Ids(d) * b, whole);
    var y :| y in (Ids(c) * a) * (Ids(d) * b);
    assert y in a * b;
  }

  /** The membership states around one change: before it, in the joint phase, finished, abandoned. */
  predicate AroundChange(m: Membership, change: ConfigChange, phase: Membership)
  {
    m.BeginChange(change).Ok? &&
    var joint := m.BeginChange(change).value.0;
    phase == m || phase == joint || phase == joint.FinalizeJoint().0 || phase == joint.AbortChange()
  }

  /**
   For every history of membership operations and every change begun after it, any two quorums
   accepted in any two phases of that change have a node in common.
   */
  lemma QuorumsOverlapThroughChange(start: Membership, ops: seq<Op>, change: ConfigChange,
                                    p: Membership, q: Membership, a: set<NodeId>, b: set<NodeId>)
    requires Inv(start)
    requires var m := ApplyAll(start, ops); AroundChange(m, change, p) && AroundChange(m, change, q)
    requires p.HasQuorum(a) && q.HasQuorum(b)
    ensures a * b != {}
  {
    InvThroughAnySequence(start, ops);
    var m := ApplyAll(start, ops);
    BeginKeepsInv(m, change);
    var next := m.BeginChange(change).value.1.new_;
    // Each phase counts the old configuration, the new one, or both.
    if CountIn(m.current, a) >= |m.current| / 2 + 1 && CountIn(m.current, b) >= |m.current| / 2 + 1 {
      SameConfigOverlap(m.current, a, b);
    } else if CountIn(next, a) >= |next| / 2 + 1 && CountIn(next, b) >= |next| / 2 + 1 {
      SameConfigOverlap(next, a, b);
    } else if CountIn(m.current, a) >= |m.current| / 2 + 1 {
      OneStepOverlap(m.current, next, a, b);
    } else {
      OneStepOverlap(m.current, next, b, a);
    }
  }

  /** The quorum test is a majority of the member ids, and during a change of the new ones as well. */
  lemma QuorumIsMajority(m: Membership, voters: set<NodeId>)
    requires Inv(m)
    ensures m.HasQuorum(voters) <==>
              IsMajority(voters, Ids(m.current)) && (m.pending.Some? ==> IsMajority(voters, Ids(m.pending.value)))
  {
    CountIsIntersection(m.current, voters);
    assert voters * Ids(m.current) == Ids(m.current) * voters;
    if m.pending.Some? {
      CountIsIntersection(m.pending.value, voters);
      assert voters * Ids(m.pending.value) == Ids(m.pending.value) * voters;
    }
  }

  // ------------------------------------------------------------------- class

  class MembershipState {
    var current: Config
    var pending: Option<Config>
    var changeInProgress: bool

    function Value(): Membership
      reads this
    {
      Membership(current, pending, changeInProgress)
    }

    constructor (self: NodeId, peers: seq<NodeId>)
      ensures Value() == Initial(self, peers)
    {
      var members := [MemberInfo(self, "")];
      for i := 0 to |peers|
        invariant members == Initial(self, peers).current[..i + 1]
      {
        members := members + [MemberInfo(peers[i], "")];
      }
      current, pending, changeInProgress := members, None, false;
    }

    method BeginChange(change: ConfigChange) returns (r: Result<JointConfig, MembershipError>)
      modifies this
      ensures match old(Value()).BeginChange(change)
              case Ok(v) => Value() == v.0 && r == Ok(v.1)
              case Err(e) => Value() == old(Value()) && r == Err(e)
    {
      if changeInProgress { return Err(ChangeInProgress); }
      var members := current;
      match change {
        case AddNode(id, address) =>
          if Contains(current, id) { return Err(NodeAlreadyExists(id)); }
          members := members + [MemberInfo(id, address)];
        case RemoveNode(id) =>
          if !Contains(current, id) { return Err(NodeNotFound(id)); }
          members := Without(members, id);
          if members == [] { return Err(CannotRemoveLastNode); }
      }
      pending := Some(members);
      changeInProgress := true;
      r := Ok(JointConfig(current, members));
    }

    method FinalizeJoint() returns (r: Option<Config>)
      modifies this
      ensures (Value(), r) == old(Value()).FinalizeJoint()
    {
      match pending {
        case Some(next) =>
          pending := None;
          current := next;
          changeInProgress := false;
          r := Some(next);
        case None =>
          r := None;
      }
    }

    method ApplyNewConfig(config: Config)
      modifies this
      ensures Value() == old(Value()).ApplyNewConfig(config)
    {
      current, pending, changeInProgress := config, None, false;
    }

    method AbortChange()
      modifies this
      ensures Value() == old(Value()).AbortChange()
    {
      pending, changeInProgress := None, false;
    }
  }
}
