/** The operations that the tree logs before it applies them. */
module WalOps {
  import opened Common
  import opened Bytes
  import opened Entries
  import opened Wals

  datatype WalOp = LogPut(key: Bytes, value: Bytes) | LogDelete(key: Bytes)

  /** `OutOfBounds` stands for the slice that would panic. */
  datatype OpError = EmptyOp | UnknownTag(tag: Byte) | OutOfBounds

  function EncodeOp(op: WalOp): Bytes
  {
    match op
    case LogPut(k, v) => [0x01] + ToLE(|k|, 4) + k + ToLE(|v|, 4) + v
    case LogDelete(k) => [0x02] + ToLE(|k|, 4) + k
  }

  /** A length-prefixed string at `at`, and where it ends. */
  function ReadBytes(data: Bytes, at: nat): Option<(Bytes, nat)>
  {
    if at + 4 > |data| then None
    else
      var len := U32At(data, at);
      if at + 4 + len > |data| then None else Some((data[at + 4..at + 4 + len], at + 4 + len))
  }

  function DecodeOp(data: Bytes): Result<WalOp, OpError>
  {
    if data == [] then Err(EmptyOp)
    else if data[0] != 0x01 && data[0] != 0x02 then Err(UnknownTag(data[0]))
    else
      match ReadBytes(data, 1)
      case None => Err(OutOfBounds)
      case Some(k) =>
        if data[0] == 0x02 then Ok(LogDelete(k.0))
        else
          match ReadBytes(data, k.1)
          case None => Err(OutOfBounds)
          case Some(v) => Ok(LogPut(k.0, v.0))
  }

  predicate OpFits(op: WalOp)
  {
    |op.key| <= U32_MAX && (op.LogPut? ==> |op.value| <= U32_MAX)
  }

  lemma ReadBytesBack(data: Bytes, at: nat, s: Bytes)
    requires |s| <= U32_MAX && at + 4 + |s| <= |data| && data[at..at + 4 + |s|] == ToLE(|s|, 4) + s
    ensures ReadBytes(data, at) == Some((s, at + 4 + |s|))
  {
    SliceSplit(data, at, ToLE(|s|, 4), s);
    U32AtToLE(data, at, |s|);
  }

  /** The log stores an operation faithfully when its lengths fit 32 bits. */
  lemma OpRoundTrip(op: WalOp)
    requires OpFits(op)
    ensures DecodeOp(EncodeOp(op)) == Ok(op)
  {
    var data := EncodeOp(op);
    match op {
      case LogPut(k, v) =>
        assert data[1..1 + 4 + |k|] == ToLE(|k|, 4) + k;
        assert data[5 + |k|..5 + |k| + 4 + |v|] == ToLE(|v|, 4) + v;
        ReadBytesBack(data, 1, k);
        ReadBytesBack(data, 5 + |k|, v);
      case LogDelete(k) =>
        assert data[1..1 + 4 + |k|] == ToLE(|k|, 4) + k;
        ReadBytesBack(data, 1, k);
    }
  }

  function ApplyOp(m: Run, op: WalOp): Run
  {
    match op
    case LogPut(k, v) => m[k := Some(v)]
    case LogDelete(k) => m[k := None]
  }

  function ApplyOps(m: Run, ops: seq<WalOp>): Run
  {
    if ops == [] then m else ApplyOp(ApplyOps(m, ops[..|ops| - 1]), ops[|ops| - 1])
  }

  /** The replay loop of recovery. */
  function Replay(m: Run, records: seq<Bytes>): Result<Run, OpError>
    decreases |records|
  {
    if records == [] then Ok(m)
    else
      match DecodeOp(records[0])
      case Err(e) => Err(e)
      case Ok(op) => Replay(ApplyOp(m, op), records[1..])
  }

  function Records(ops: seq<WalOp>): (rs: seq<Bytes>)
    ensures |rs| == |ops|
  {
    seq(|ops|, (i: int) requires 0 <= i < |ops| => EncodeOp(ops[i]))
  }

  /** Small enough for one log record. */
  predicate Loggable(op: WalOp)
  {
    OpFits(op) && |EncodeOp(op)| <= MAX_RECORD
  }

  predicate AllLoggable(ops: seq<WalOp>)
  {
    forall i :: 0 <= i < |ops| ==> Loggable(ops[i])
  }

  lemma {:induction false} ApplyOpsFirst(m: Run, ops: seq<WalOp>)
    requires ops != []
    ensures ApplyOps(m, ops) == ApplyOps(ApplyOp(m, ops[0]), ops[1..])
  {
    if |ops| > 1 {
      var init := ops[..|ops| - 1];
      ApplyOpsFirst(m, init);
      assert init[1..] == ops[1..][..|ops| - 2];
    }
  }

  lemma {:induction false} ReplayRecords(m: Run, ops: seq<WalOp>)
    requires AllLoggable(ops)
    ensures Replay(m, Records(ops)) == Ok(ApplyOps(m, ops))
    decreases |ops|
  {
    if ops != [] {
      assert Loggable(ops[0]);
      OpRoundTrip(ops[0]);
      assert Records(ops)[1..] == Records(ops[1..]);
      ReplayRecords(ApplyOp(m, ops[0]), ops[1..]);
      ApplyOpsFirst(m, ops);
    }
  }

  /** Everything in the log file, replayed into an empty memtable. */
  function Recover(crc: Checksum, wal: Bytes): Result<Run, OpError>
  {
    Replay(map[], ReadAll(crc, wal))
  }

  function LogBytes(crc: Checksum, ops: seq<WalOp>): Bytes
  {
    EncodeRecords(crc, Records(ops))
  }

  /** Replaying a log written operation by operation gives the memtable those operations made. */
  lemma RecoverLog(crc: Checksum, ops: seq<WalOp>)
    requires AllLoggable(ops)
    ensures Recover(crc, LogBytes(crc, ops)) == Ok(ApplyOps(map[], ops))
  {
    assert WithinLimit(Records(ops)) by {
      forall r | r in Records(ops) ensures |r| <= MAX_RECORD {
        var i :| 0 <= i < |ops| && Records(ops)[i] == r;
        assert Loggable(ops[i]);
      }
    }
    ReadBack(crc, Records(ops));
    ReplayRecords(map[], ops);
  }

  lemma LogOneMore(crc: Checksum, ops: seq<WalOp>, op: WalOp)
    ensures LogBytes(crc, ops + [op]) == LogBytes(crc, ops) + EncodeRecord(crc, EncodeOp(op))
  {
    assert Records(ops + [op]) == Records(ops) + [EncodeOp(op)];
    EncodeRecordsConcat(crc, Records(ops), [EncodeOp(op)]);
    assert EncodeRecords(crc, [EncodeOp(op)]) == EncodeRecord(crc, EncodeOp(op)) + [];
  }
}
