/**
 Commits that are not one step. `commit` holds no lock: other clients may write between its
 validation and the allocation of its revision. Exactly which runs are still serial.
 */
module TxnSplit {
  import opened Common
  import opened Bytes
  import opened Version
  import opened MvccModel
  import opened TxnModel
  import opened TxnRuns

  /** `validated` holds the transactions between their validation and their writes. */
  datatype SplitWorld = SplitWorld(w: World, validated: set<nat>)

  datatype SplitEvent = Plain(e: Event) | Validate(id: nat) | Publish(id: nat)

  /** The transaction of an event that is neither a direct write nor a beginning. */
  function Client(e: Event): Option<nat>
  {
    match e
    case DirectPut(_, _, _, _) => None
    case DirectDelete(_) => None
    case Begin(_) => None
    case Read(id, _) => Some(id)
    case BufferPut(id, _, _) => Some(id)
    case BufferDelete(id, _) => Some(id)
    case TryCommit(id) => Some(id)
  }

  /** A commit consumes the transaction, so a validated one does nothing but publish. */
  predicate SplitEnabled(s: SplitWorld, e: SplitEvent)
  {
    match e
    case Plain(x) => Enabled(s.w, x) && !x.TryCommit? && (Client(x).Some? ==> Client(x).value !in s.validated)
    case Validate(id) => id in s.w.live && id !in s.validated && s.w.store.rev + 1 < U64_MAX
    case Publish(id) => id in s.w.live && id in s.validated && s.w.store.rev + 1 < U64_MAX
  }

  ghost predicate Passes(w: World, id: nat)
    requires id in w.live
  {
    w.live[id].txn.writeSet != [] && Validates(w.store.vs, w.live[id].txn.readSet)
  }

  /** Revision and writes, without looking at the read set again. */
  ghost function PublishWorld(w: World, id: nat): World
    requires id in w.live && w.store.rev < U64_MAX
  {
    var t, rev := w.live[id], w.store.rev + 1;
    World(Store(rev, CommitWrites(w.store.vs, t.txn.writeSet, rev)), w.live - {id},
        w.log + [TxnAction(t.ops, t.outs)], w.readers)
  }

  ghost function SplitStep(s: SplitWorld, e: SplitEvent): SplitWorld
    requires SplitEnabled(s, e)
  {
    match e
    case Plain(x) => s.(w := Step(s.w, x))
    case Validate(id) => if Passes(s.w, id) then s.(validated := s.validated + {id}) else s.(w := DoCommit(s.w, id))
    case Publish(id) => SplitWorld(PublishWorld(s.w, id), s.validated - {id})
  }

  // --------------------------------------------------------------- one publication

  /** No key that the transaction read from the store has another value now than in its snapshot. */
  ghost predicate UnchangedReads(w: World, id: nat)
    requires id in w.live && w.live[id].txn.start <= U64_MAX && w.store.rev <= U64_MAX
  {
    var t := w.live[id];
    forall i, k :: ReadsFromStore(t.ops, i, k) ==>
        ValueAt(w.store.vs, k, t.txn.start) == ValueAt(w.store.vs, k, w.store.rev)
  }

  function ReadCount(ops: seq<TxnOp>): nat
  {
    if ops == [] then 0 else ReadCount(ops[..|ops| - 1]) + if ops[|ops| - 1].TxnRead? then 1 else 0
  }

  lemma {:induction false} OutsLength(m: map<Bytes, Bytes>, ops: seq<TxnOp>)
    ensures |SerialOuts(m, ops)| == ReadCount(ops)
  {
    if ops != [] { OutsLength(m, ops[..|ops| - 1]); }
  }

  /** Equal answers to all reads mean that the two maps agree on every key read from the store. */
  lemma {:induction false} SameOutsSameReads(m: map<Bytes, Bytes>, m': map<Bytes, Bytes>, ops: seq<TxnOp>, i: int,
                                             k: Bytes)
    requires SerialOuts(m, ops) == SerialOuts(m', ops) && ReadsFromStore(ops, i, k)
    ensures Lookup(m, k) == Lookup(m', k)
    decreases |ops|
  {
    var n := |ops| - 1;
    var init := ops[..n];
    OutsLength(m, init);
    OutsLength(m', init);
    var p, p' := SerialOuts(m, init), SerialOuts(m', init);
    assert SerialOuts(m, ops)[..|p|] == p && SerialOuts(m', ops)[..|p|] == p';
    if i < n {
      assert init[..i] == ops[..i];
      SameOutsSameReads(m, m', init, i, k);
    } else {
      SerialReadsBuffer(m, init, k);
      SerialReadsBuffer(m', init, k);
      assert SerialOuts(m, ops)[|p|] == SerialOuts(m', ops)[|p|];
    }
  }

  lemma ReadsAgreeWithLog(w: World, id: nat, k: Bytes)
    requires WorldInv(w) && id in w.live
    ensures w.live[id].txn.start <= w.store.rev
    ensures ValueAt(w.store.vs, k, w.live[id].txn.start) == Lookup(SerialMap(w.log[..w.live[id].txn.start]), k)
    ensures ValueAt(w.store.vs, k, w.store.rev) == Lookup(SerialMap(w.log), k)
  {
    hide SerialMap, ValueAt, StoreInv, OutsOk, ReadsRecorded, SerialOuts, ReaderOk;
    assert LiveOk(w.store, w.log, w.live[id]);
    assert Agrees(w.store.vs, w.live[id].txn.start, SerialMap(w.log[..w.live[id].txn.start]));
    CurrentMap(w, k);
  }

  /** What the transaction was told is what it reads at the end of the log, exactly when its reads are unchanged. */
  lemma AnswersStillRight(w: World, id: nat)
    requires WorldInv(w) && id in w.live
    ensures w.live[id].txn.start <= w.store.rev <= U64_MAX
    ensures UnchangedReads(w, id) <==> w.live[id].outs == SerialOuts(SerialMap(w.log), w.live[id].ops)
  {
    hide SerialMap, ValueAt, StoreInv, OutsOk, LogOk, ReadsRecorded, SerialOuts, ReaderOk, ReadsFromStore;
    var t := w.live[id];
    assert LiveOk(w.store, w.log, t);
    var m, m' := SerialMap(w.log[..t.txn.start]), SerialMap(w.log);
    forall k
      ensures ValueAt(w.store.vs, k, t.txn.start) == Lookup(m, k)
              && ValueAt(w.store.vs, k, w.store.rev) == Lookup(m', k)
    {
      ReadsAgreeWithLog(w, id, k);
    }
    if UnchangedReads(w, id) { SameReadsSameOuts(m, m', t.ops); }
    if t.outs == SerialOuts(m', t.ops) {
      forall i, k | ReadsFromStore(t.ops, i, k)
        ensures ValueAt(w.store.vs, k, t.txn.start) == ValueAt(w.store.vs, k, w.store.rev)
      {
        SameOutsSameReads(m, m', t.ops, i, k);
      }
    }
  }

  lemma PublishKeeps(w: World, id: nat)
    requires WorldInv(w) && id in w.live && w.store.rev + 1 < U64_MAX && w.live[id].txn.start <= U64_MAX
             && UnchangedReads(w, id)
    ensures WorldInv(PublishWorld(w, id))
  {
    hide SerialMap, SerialOuts, CommitWrites, ValueAt, LogOk, OutsOk, ReadsRecorded, WritesOf, UnchangedReads;
    var t, rev := w.live[id], w.store.rev + 1;
    assert LiveOk(w.store, w.log, t);
    var s' := Store(rev, CommitWrites(w.store.vs, t.txn.writeSet, rev));
    AnswersStillRight(w, id);
    CommitExtends(w.store, t.txn.writeSet);
    CommitKeepsInv(w.store, t.txn.writeSet);
    forall k ensures ValueAt(s'.vs, k, rev) == Lookup(ApplyAction(SerialMap(w.log), TxnAction(t.ops, t.outs)), k) {
      CommitIsSerial(w, t, k);
    }
    WorldGrows(w, s', TxnAction(t.ops, t.outs), w.live - {id});
  }

  lemma PublishBreaks(w: World, id: nat)
    requires WorldInv(w) && id in w.live && w.store.rev + 1 < U64_MAX && w.live[id].txn.start <= U64_MAX
             && !UnchangedReads(w, id)
    ensures !OutsOk(PublishWorld(w, id).log)
  {
    hide SerialMap, SerialOuts, CommitWrites, ValueAt, WorldInv, UnchangedReads;
    AnswersStillRight(w, id);
    var log' := PublishWorld(w, id).log;
    assert log'[..|w.log|] == w.log && log'[|w.log|].TxnAction?;
  }

  // --------------------------------------------------------------------- whole runs

  ghost predicate IsSplitRun(run: seq<SplitWorld>, events: seq<SplitEvent>)
  {
    && |run| == |events| + 1 && run[0] == SplitWorld(EMPTY_WORLD, {})
    && forall i {:trigger events[i]} :: 0 <= i < |events| ==>
         SplitEnabled(run[i], events[i]) && run[i + 1] == SplitStep(run[i], events[i])
  }

  /** At this point of the run no publication finds a read of its transaction changed. */
  ghost predicate PublishesInTime(s: SplitWorld, e: SplitEvent)
  {
    e.Publish? && e.id in s.w.live && s.w.live[e.id].txn.start <= U64_MAX && s.w.store.rev <= U64_MAX ==>
        UnchangedReads(s.w, e.id)
  }

  lemma SplitStepKeeps(s: SplitWorld, e: SplitEvent)
    requires WorldInv(s.w) && SplitEnabled(s, e) && PublishesInTime(s, e)
    ensures WorldInv(SplitStep(s, e).w)
  {
    hide LogOk, OutsOk, Step, DoCommit, PublishWorld, UnchangedReads, ReaderOk, ReadsRecorded;
    match e {
      case Plain(x) => StepKeepsInv(s.w, x);
      case Validate(id) => CommitStep(s.w, id);
      case Publish(id) =>
        assert LiveOk(s.w.store, s.w.log, s.w.live[id]);
        PublishKeeps(s.w, id);
    }
  }

  lemma LogOnlyGrows(s: SplitWorld, e: SplitEvent)
    requires SplitEnabled(s, e)
    ensures s.w.log <= SplitStep(s, e).w.log
  {
    hide CommitWrites, Validates, PutVersion, TxnGet;
  }

  lemma PrefixOutsOk(log: seq<Action>, longer: seq<Action>)
    requires log <= longer && OutsOk(longer)
    ensures OutsOk(log)
  {
    hide SerialMap, SerialOuts;
    forall i | 0 <= i < |log| && log[i].TxnAction? ensures log[i].outs == SerialOuts(SerialMap(log[..i]), log[i].ops) {
      assert longer[i] == log[i] && longer[..i] == log[..i];
    }
  }

  /**
   Runs with split commits, exactly: the log of a run explains every answer that its committed
   transactions were given if and only if no transaction published its writes after a key that it
   had read changed its value. Then the store is serial as well, as in runs with atomic commits.
   */
  lemma {:induction false} SplitRunsExactly(run: seq<SplitWorld>, events: seq<SplitEvent>, i: nat)
    requires IsSplitRun(run, events) && i < |run|
    ensures OutsOk(run[i].w.log) <==> forall j :: 0 <= j < i ==> PublishesInTime(run[j], events[j])
    ensures OutsOk(run[i].w.log) ==> WorldInv(run[i].w)
    decreases i
  {
    hide WorldInv, SplitStep, PublishesInTime, OutsOk, SplitEnabled;
    if i == 0 {
      EmptyWorld();
      InvOuts(run[0].w);
    } else {
      SplitRunsExactly(run, events, i - 1);
      var s, e := run[i - 1], events[i - 1];
      LogOnlyGrows(s, e);
      if OutsOk(run[i].w.log) { PrefixOutsOk(s.w.log, run[i].w.log); }
      if OutsOk(s.w.log) { SplitStepExactly(s, e); }
    }
  }

  lemma InvOuts(w: World)
    requires WorldInv(w)
    ensures OutsOk(w.log)
  {
  }

  lemma SplitStepExactly(s: SplitWorld, e: SplitEvent)
    requires WorldInv(s.w) && SplitEnabled(s, e)
    ensures OutsOk(SplitStep(s, e).w.log) <==> PublishesInTime(s, e)
    ensures OutsOk(SplitStep(s, e).w.log) ==> WorldInv(SplitStep(s, e).w)
  {
    hide OutsOk, Step, DoCommit, PublishWorld, UnchangedReads, WorldInv;
    if PublishesInTime(s, e) {
      SplitStepKeeps(s, e);
      InvOuts(SplitStep(s, e).w);
    } else {
      PublishBreaks(s.w, e.id);
    }
  }

  // -------------------------------------------------------------------- a lost update

  function Rewrite(k: Bytes, v: Bytes): seq<TxnOp>
  {
    [TxnRead(k), TxnPut(k, v)]
  }

  /** Both clients have read the absent key and buffered a value for it. */
  function Buffering(k: Bytes, v: Bytes): Live
  {
    Live(Txn(0, [(k, 0)], [(k, Some(v))]), Rewrite(k, v), [None])
  }

  /** One client has read the absent key. */
  function Looked(k: Bytes): Live
  {
    Live(Txn(0, [(k, 0)], []), [TxnRead(k)], [None])
  }

  const FRESH := Live(Txn(0, [], []), [], [])

  const NOTHING: Store := Store(0, map[])

  function Clients(a: Live, b: Live): World
  {
    World(NOTHING, map[1 := a, 2 := b], [], [])
  }

  lemma EmptyReads(k: Bytes, r: Revision)
    ensures ReadAt(map[], k, r) == None
  {
    LatestAtExactly(map[], k, r);
  }

  lemma BothBegin()
    ensures Step(Step(EMPTY_WORLD, Begin(1)), Begin(2)) == Clients(FRESH, FRESH)
  {
  }

  lemma LookStep(w: World, id: nat, k: Bytes)
    requires w.store == NOTHING && id in w.live && w.live[id] == FRESH
    ensures Step(w, Read(id, k)) == w.(live := w.live[id := Looked(k)])
  {
    EmptyReads(k, 0);
    assert [] + [(k, 0)] == [(k, 0)] && [] + [TxnRead(k)] == [TxnRead(k)];
    var none: Outs := [];
    assert none + [None] == [None];
  }

  lemma WriteStep(w: World, id: nat, k: Bytes, v: Bytes)
    requires w.store == NOTHING && id in w.live && w.live[id] == Looked(k) && |v| <= U32_MAX
    ensures Step(w, BufferPut(id, k, v)) == w.(live := w.live[id := Buffering(k, v)])
  {
    assert [] + [(k, Some(v))] == [(k, Some(v))] && [TxnRead(k)] + [TxnPut(k, v)] == Rewrite(k, v);
  }

  lemma BothPass(k: Bytes, v: Bytes, w: Bytes)
    ensures Passes(Clients(Buffering(k, v), Buffering(k, w)), 1) && Passes(Clients(Buffering(k, v), Buffering(k, w)), 2)
  {
    EmptyReads(k, U64_MAX);
  }

  /** The log that both publications leave. */
  function BothCommitted(k: Bytes, v: Bytes, w: Bytes): seq<Action>
  {
    [TxnAction(Rewrite(k, v), [None]), TxnAction(Rewrite(k, w), [None])]
  }

  lemma BothPublish(k: Bytes, v: Bytes, w: Bytes)
    ensures var c := PublishWorld(Clients(Buffering(k, v), Buffering(k, w)), 1);
            2 in c.live && c.store.rev == 1 && PublishWorld(c, 2).log == BothCommitted(k, v, w)
  {
    hide CommitWrites;
  }

  lemma SecondRead(k: Bytes, v: Bytes, x: Bytes)
    ensures SerialOuts(SerialMap([TxnAction(Rewrite(k, v), [None])]), Rewrite(k, x)) == [Some(v)]
  {
    var log := [TxnAction(Rewrite(k, v), [None])];
    assert log[..0] == [];
    var ops := Rewrite(k, v);
    assert ops[..1] == [TxnRead(k)] && ops[..1][..0] == [];
    assert SerialMap(log) == SerialResult(map[], ops) == SerialResult(map[], ops[..1])[k := v];
    var m := SerialMap(log);
    var later := Rewrite(k, x);
    assert later[..1] == [TxnRead(k)] && later[..1][..0] == [];
    assert SerialOuts(m, later[..1]) == [] + [Lookup(SerialResult(m, []), k)];
  }

  /** Whichever of the two came second should have read the value of the first. */
  lemma NoOrderExplains(k: Bytes, v: Bytes, w: Bytes)
    ensures !OutsOk(BothCommitted(k, v, w))
  {
    hide SerialMap, SerialOuts, Rewrite;
    SecondRead(k, v, w);
    var log := BothCommitted(k, v, w);
    assert log[..1] == [TxnAction(Rewrite(k, v), [None])];
    assert log[1].outs == [None];
  }

  /**
   A lost update: two clients read the same absent key, both validate, both publish. Both commits
   succeed, and neither order of the two explains what they read.
   */
  lemma LostUpdate(k: Bytes, v: Bytes, w: Bytes) returns (run: seq<SplitWorld>, events: seq<SplitEvent>)
    requires |v| <= U32_MAX && |w| <= U32_MAX
    ensures IsSplitRun(run, events) && |run| == 11 && run[10].w.log == BothCommitted(k, v, w)
    ensures !OutsOk(BothCommitted(k, v, w)) && !OutsOk(BothCommitted(k, w, v))
  {
    hide Step, PublishWorld, Passes, OutsOk, SerialMap, CommitWrites;
    NoOrderExplains(k, v, w);
    NoOrderExplains(k, w, v);
    BothBegin();
    var w1 := Step(EMPTY_WORLD, Begin(1));
    BeginsFresh();
    var w2 := Clients(FRESH, FRESH);
    LookStep(w2, 1, k);
    var w3 := w2.(live := w2.live[1 := Looked(k)]);
    LookStep(w3, 2, k);
    var w4 := w3.(live := w3.live[2 := Looked(k)]);
    WriteStep(w4, 1, k, v);
    var w5 := w4.(live := w4.live[1 := Buffering(k, v)]);
    WriteStep(w5, 2, k, w);
    var w6 := Clients(Buffering(k, v), Buffering(k, w));
    assert w5.live[2 := Buffering(k, w)] == w6.live;
    BothPass(k, v, w);
    BothPublish(k, v, w);
    var w9 := PublishWorld(w6, 1);
    run := [SplitWorld(EMPTY_WORLD, {}), SplitWorld(w1, {}), SplitWorld(w2, {}), SplitWorld(w3, {}), SplitWorld(w4, {}),
            SplitWorld(w5, {}), SplitWorld(w6, {}), SplitWorld(w6, {} + {1}), SplitWorld(w6, {} + {1} + {2}),
            SplitWorld(w9, {} + {1} + {2} - {1}), SplitWorld(PublishWorld(w9, 2), {} + {1} + {2} - {1} - {2})];
    events := [Plain(Begin(1)), Plain(Begin(2)), Plain(Read(1, k)), Plain(Read(2, k)), Plain(BufferPut(1, k, v)),
               Plain(BufferPut(2, k, w)), Validate(1), Validate(2), Publish(1), Publish(2)];
  }

  lemma BeginsFresh()
    ensures var w := Step(EMPTY_WORLD, Begin(1)); w.store == NOTHING && w.live == map[1 := FRESH]
  {
  }
}
