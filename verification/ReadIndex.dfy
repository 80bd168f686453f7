/** Pending read-index requests and the heartbeat acknowledgements that confirm them. */
module ReadIndexes {
  import opened Common
  import opened RaftTypes

  datatype ReadRequest = ReadRequest(readIndex: LogIndex, acks: set<NodeId>, clusterSize: nat) {

    function Ack(from: NodeId): ReadRequest
    {
      this.(acks := acks + {from})
    }

    predicate HasQuorum()
    {
      |acks| >= clusterSize / 2 + 1
    }
  }

  datatype Reads = Reads(nextId: nat, pending: map<nat, ReadRequest>) {

    /** The leader's own id is the first acknowledgement. */
    function Register(readIndex: LogIndex, self: NodeId, clusterSize: nat): (Reads, nat)
    {
      (Reads(nextId + 1, pending[nextId := ReadRequest(readIndex, {self}, clusterSize)]), nextId)
    }

    function RecordAck(from: NodeId): Reads
    {
      this.(pending := map id | id in pending :: pending[id].Ack(from))
    }

    predicate IsConfirmed(id: nat)
    {
      id in pending && pending[id].HasQuorum()
    }

    /** The request leaves the table whether or not it was confirmed. */
    function Take(id: nat): (Reads, Option<LogIndex>)
    {
      if id in pending then (this.(pending := pending - {id}), Some(pending[id].readIndex))
      else (this, None)
    }

    function Clear(): Reads
    {
      this.(pending := map[])
    }

    /** Identifiers are never reused: everything pending is below the counter. */
    predicate Fresh()
    {
      forall id :: id in pending ==> id < nextId
    }

    /** A confirmation is never withdrawn by later traffic, and an unrelated registration changes no other request. */
    lemma ConfirmationIsStable(id: nat, from: NodeId, readIndex: LogIndex, self: NodeId, size: nat)
      requires Fresh() && IsConfirmed(id)
      ensures RecordAck(from).IsConfirmed(id) && RecordAck(from).pending[id].readIndex == pending[id].readIndex
      ensures Register(readIndex, self, size).0.IsConfirmed(id)
      ensures Register(readIndex, self, size).0.pending[id] == pending[id]
    {
      var a := pending[id].acks;
      if from in a {
        assert a + {from} == a;
      } else {
        assert |a + {from}| == |a| + 1;
      }
    }
  }

  const NO_READS := Reads(1, map[])

  /** The acknowledgements of several nodes, one after the other. */
  function AckAll(r: Reads, from: seq<NodeId>): Reads
  {
    if from == [] then r else AckAll(r, from[..|from| - 1]).RecordAck(from[|from| - 1])
  }

  /**
   The life of a request: it is confirmed exactly when the nodes that acknowledged it, the leader
   included, are more than half of the cluster, and it hands out the index it was registered with,
   once.
   */
  lemma {:induction false} ConfirmedExactly(r: Reads, readIndex: LogIndex, self: NodeId, size: nat, from: seq<NodeId>)
    ensures var (registered, id) := r.Register(readIndex, self, size);
            var acked, nodes := AckAll(registered, from), {self} + set x | x in from;
            && (acked.IsConfirmed(id) <==> |nodes| >= size / 2 + 1)
            && id in acked.pending && acked.pending[id] == ReadRequest(readIndex, nodes, size)
            && acked.Take(id).1 == Some(readIndex) && acked.Take(id).0.Take(id).1 == None
  {
    var (registered, id) := r.Register(readIndex, self, size);
    if from == [] {
      assert {self} + (set x | x in from) == {self};
    } else {
      var init, last := from[..|from| - 1], from[|from| - 1];
      ConfirmedExactly(r, readIndex, self, size, init);
      assert {self} + (set x | x in from) == {self} + (set x | x in init) + {last};
    }
  }

  class ReadIndexState {
    var nextId: nat
    var pending: map<nat, ReadRequest>

    function Value(): Reads
      reads this
    {
      Reads(nextId, pending)
    }

    constructor ()
      ensures Value() == NO_READS
    {
      nextId, pending := 1, map[];
    }

    method Register(readIndex: LogIndex, self: NodeId, clusterSize: nat) returns (id: nat)
      modifies this
      ensures (Value(), id) == old(Value()).Register(readIndex, self, clusterSize)
    {
      id := nextId;
      nextId := nextId + 1;
      pending := pending[id := ReadRequest(readIndex, {self}, clusterSize)];
    }

    /** Acknowledge every pending request; `confirmed` lists, once each, those that now have a quorum. */
    method RecordAck(from: NodeId) returns (confirmed: seq<nat>)
      modifies this
      ensures Value() == old(Value()).RecordAck(from)
      ensures forall id :: id in confirmed <==> Value().IsConfirmed(id)
      ensures forall i, j :: 0 <= i < j < |confirmed| ==> confirmed[i] != confirmed[j]
    {
      confirmed := [];
      var todo := pending.Keys;
      while todo != {}
        invariant todo <= pending.Keys == old(pending).Keys
        invariant nextId == old(nextId)
        invariant forall id :: id in pending ==>
                  pending[id] == if id in todo then old(pending)[id] else old(pending)[id].Ack(from)
        invariant forall id :: id in confirmed <==> id in pending && id !in todo && pending[id].HasQuorum()
        invariant forall i, j :: 0 <= i < j < |confirmed| ==> confirmed[i] != confirmed[j]
        decreases todo
      {
        var id :| id in todo;
        pending := pending[id := pending[id].Ack(from)];
        if pending[id].HasQuorum() {
          confirmed := confirmed + [id];
        }
        todo := todo - {id};
      }
      assert pending == old(Value()).RecordAck(from).pending;
    }

    method Take(id: nat) returns (r: Option<LogIndex>)
      modifies this
      ensures (Value(), r) == old(Value()).Take(id)
    {
      if id in pending {
        r := Some(pending[id].readIndex);
        pending := pending - {id};
      } else {
        r := None;
      }
    }

    method Clear()
      modifies this
      ensures Value() == old(Value()).Clear()
    {
      pending := map[];
    }
  }
}
