/**
 Operations logged behind a torn record. A crash inside an append leaves a torn tail; opening
 recovers all operations before it, and the log then goes on behind the tail.
 */
module TornLogs {
  import opened Common
  import opened Bytes
  import opened Entries
  import opened Wals
  import opened WalOps

  // -------------------------------------------------------------- the crash itself

  lemma RecordsWithinLimit(ops: seq<WalOp>)
    requires AllLoggable(ops)
    ensures WithinLimit(Records(ops))
  {
    forall r | r in Records(ops) ensures |r| <= MAX_RECORD {
      var i :| 0 <= i < |ops| && Records(ops)[i] == r;
      assert Loggable(ops[i]);
    }
  }

  lemma {:induction false} ReplayAfter(m: Run, ops: seq<WalOp>, rest: seq<Bytes>)
    requires AllLoggable(ops)
    ensures Replay(m, Records(ops) + rest) == Replay(ApplyOps(m, ops), rest)
    decreases |ops|
  {
    if ops == [] {
      assert Records(ops) + rest == rest;
    } else {
      assert Loggable(ops[0]);
      OpRoundTrip(ops[0]);
      assert (Records(ops) + rest)[1..] == Records(ops[1..]) + rest;
      ReplayAfter(ApplyOp(m, ops[0]), ops[1..], rest);
      ApplyOpsFirst(m, ops);
    }
  }

  /** Recovery of a log that goes on with any bytes: first the operations, then what is read from the bytes. */
  lemma RecoverThen(crc: Checksum, ops: seq<WalOp>, tail: Bytes)
    requires AllLoggable(ops)
    ensures Recover(crc, LogBytes(crc, ops) + tail) == Replay(ApplyOps(map[], ops), ReadAll(crc, tail))
  {
    hide ReadAll, Replay;
    RecordsWithinLimit(ops);
    ReadAllAfter(crc, Records(ops), tail);
    ReplayAfter(map[], ops, ReadAll(crc, tail));
  }

  /** The log after a crash that let only the first `cut` bytes of a record reach the file. */
  function CutAppend(crc: Checksum, ops: seq<WalOp>, op: WalOp, cut: nat): Bytes
    requires cut <= |EncodeRecord(crc, EncodeOp(op))|
  {
    LogBytes(crc, ops) + EncodeRecord(crc, EncodeOp(op))[..cut]
  }

  /** An append is crash-atomic: recovery finds the operation if all its bytes are there, and else nothing of it. */
  lemma AppendIsCrashAtomic(crc: Checksum, ops: seq<WalOp>, op: WalOp, cut: nat)
    requires AllLoggable(ops) && Loggable(op) && cut <= |EncodeRecord(crc, EncodeOp(op))|
    ensures Recover(crc, CutAppend(crc, ops, op, cut)) ==
            Ok(ApplyOps(map[], if cut == |EncodeRecord(crc, EncodeOp(op))| then ops + [op] else ops))
  {
    hide ReadAll, EncodeRecord, ApplyOps, LogBytes, EncodeOp;
    var enc := EncodeRecord(crc, EncodeOp(op));
    if cut == |enc| {
      assert enc[..cut] == enc;
      LogOneMore(crc, ops, op);
      RecoverLog(crc, ops + [op]);
    } else {
      RecoverThen(crc, ops, enc[..cut]);
      DecodeTorn(crc, EncodeOp(op), cut);
    }
  }

  // --------------------------------------------------------- writing behind the tail

  predicate EmptyKeyHas(m: Run, v: Bytes)
  {
    [] in m && m[[]] == Some(v)
  }

  predicate NeverWrites(records: seq<Bytes>, v: Bytes)
  {
    forall i :: 0 <= i < |records| ==> DecodeOp(records[i]) != Ok(LogPut([], v))
  }

  lemma {:induction false} StillNotHeld(m: Run, records: seq<Bytes>, v: Bytes)
    requires !EmptyKeyHas(m, v) && NeverWrites(records, v)
    ensures Replay(m, records).Ok? ==> !EmptyKeyHas(Replay(m, records).value, v)
    decreases |records|
  {
    hide DecodeOp;
    if records != [] && DecodeOp(records[0]).Ok? {
      assert DecodeOp(records[0]) != Ok(LogPut([], v));
      StillNotHeld(ApplyOp(m, DecodeOp(records[0]).value), records[1..], v);
    }
  }

  lemma PutSize(data: Bytes, k: Bytes, v: Bytes)
    requires DecodeOp(data) == Ok(LogPut(k, v))
    ensures |data| >= 9 + |k| + |v|
  {
  }

  /** The first nine bytes of a put of the empty key. */
  lemma PutHead(data: Bytes, v: Bytes)
    requires DecodeOp(data) == Ok(LogPut([], v))
    ensures |data| >= 9 && data[0] == 0x01 && U32At(data, 1) == 0 && U32At(data, 5) == |v|
  {
  }

  lemma {:induction false} RecordsFitStream(crc: Checksum, s: Bytes, i: nat)
    requires i < |ReadAll(crc, s)|
    ensures HEADER_SIZE + |ReadAll(crc, s)[i]| <= |s|
    decreases |s|
  {
    if i > 0 { RecordsFitStream(crc, DecodeRecord(crc, s).rest, i - 1); }
  }

  /** If the first record read behind the tail does not write the value, the others are too short for it. */
  lemma OnlyTheFirst(crc: Checksum, head: Bytes, v: Bytes)
    requires |head| < HEADER_SIZE || (ReadAll(crc, head + Framed(crc, v)) != [] ==>
               |head| < HEADER_SIZE + |ReadAll(crc, head + Framed(crc, v))[0]|)
    requires ReadAll(crc, head + Framed(crc, v)) != [] ==>
               DecodeOp(ReadAll(crc, head + Framed(crc, v))[0]) != Ok(LogPut([], v))
    ensures NeverWrites(ReadAll(crc, head + Framed(crc, v)), v)
  {
    hide DecodeOp, DecodeRecord, EncodeRecord, EncodeOp;
    var s := head + Framed(crc, v);
    var rs := ReadAll(crc, s);
    FramedSize(crc, v);
    forall i | 1 <= i < |rs| ensures DecodeOp(rs[i]) != Ok(LogPut([], v)) {
      var rest := DecodeRecord(crc, s).rest;
      FirstRecord(crc, s, rs[0]);
      assert rs[i] == ReadAll(crc, rest)[i - 1];
      RecordsFitStream(crc, rest, i - 1);
      if DecodeOp(rs[i]) == Ok(LogPut([], v)) { PutSize(rs[i], [], v); }
    }
  }

  function Framed(crc: Checksum, v: Bytes): Bytes
  {
    EncodeRecord(crc, EncodeOp(LogPut([], v)))
  }

  lemma FramedSize(crc: Checksum, v: Bytes)
    ensures |EncodeOp(LogPut([], v))| == 9 + |v| && |Framed(crc, v)| == 17 + |v|
    ensures Framed(crc, v)[8] == 0x01
  {
    assert EncodeOp(LogPut([], v))[0] == 0x01;
  }

  /** A torn header: the bytes behind it are shifted, and the tag of the put falls into a length. */
  lemma BehindTornHeader(crc: Checksum, head: Bytes, v: Bytes)
    requires 0 < |head| < HEADER_SIZE && |v| == 2
    ensures NeverWrites(ReadAll(crc, head + Framed(crc, v)), v)
  {
    hide DecodeOp, DecodeRecord, Framed;
    var s := head + Framed(crc, v);
    var rs := ReadAll(crc, s);
    if rs != [] && DecodeOp(rs[0]) == Ok(LogPut([], v)) {
      FramedSize(crc, v);
      FirstRecord(crc, s, rs[0]);
      PutHead(rs[0], v);
      assert rs[0][|head|] == s[8..8 + |rs[0]|][|head|] == s[8 + |head|] == 0x01;
      TagInLength(rs[0], |head|);
    }
    OnlyTheFirst(crc, head, v);
  }

  lemma TagInLength(data: Bytes, i: nat)
    requires 1 <= i <= 7 && |data| >= 9 && U32At(data, 1) == 0 && U32At(data, 5) == 2
    ensures data[i] != 0x01
  {
  }

  /** A whole header: the first record has the torn length, too short for a value that long. */
  lemma BehindTornBody(crc: Checksum, torn: Bytes, cut: nat, v: Bytes)
    requires |torn| <= MAX_RECORD && HEADER_SIZE <= cut < |EncodeRecord(crc, torn)| && |v| >= |torn|
    ensures NeverWrites(ReadAll(crc, EncodeRecord(crc, torn)[..cut] + Framed(crc, v)), v)
  {
    hide DecodeOp, EncodeRecord, Framed;
    var head := EncodeRecord(crc, torn)[..cut];
    var rs := ReadAll(crc, head + Framed(crc, v));
    if rs != [] {
      HeaderDecides(crc, torn, cut, Framed(crc, v), rs[0]);
      if DecodeOp(rs[0]) == Ok(LogPut([], v)) { PutSize(rs[0], [], v); }
    }
    OnlyTheFirst(crc, head, v);
  }

  /** A torn operation near the size limit: what can be completed still has its own lengths. */
  lemma BehindHugeOp(crc: Checksum, op: WalOp, cut: nat, v: Bytes)
    requires Loggable(op) && |EncodeOp(op)| >= 100 && |v| == 2
    requires HEADER_SIZE <= cut < |EncodeRecord(crc, EncodeOp(op))|
    ensures NeverWrites(ReadAll(crc, EncodeRecord(crc, EncodeOp(op))[..cut] + Framed(crc, v)), v)
  {
    hide DecodeOp, EncodeRecord, Framed, EncodeOp, DecodeRecord;
    var torn := EncodeOp(op);
    var head := EncodeRecord(crc, torn)[..cut];
    var s := head + Framed(crc, v);
    var rs := ReadAll(crc, s);
    if rs != [] {
      HeaderDecides(crc, torn, cut, Framed(crc, v), rs[0]);
      if DecodeOp(rs[0]) == Ok(LogPut([], v)) {
        FramedSize(crc, v);
        FirstRecord(crc, s, rs[0]);
        PutHead(rs[0], v);
        EncodedData(crc, torn);
        SameHead(EncodeRecord(crc, torn), cut, Framed(crc, v), torn, rs[0]);
        LongOpHead(op);
      }
    }
    OnlyTheFirst(crc, head, v);
  }

  lemma SameHead(enc: Bytes, cut: nat, rest: Bytes, torn: Bytes, r: Bytes)
    requires 17 <= cut <= |enc| && enc[8..] == torn && |r| >= 9 && 8 + |r| <= cut + |rest|
    requires (enc[..cut] + rest)[8..8 + |r|] == r
    ensures U32At(r, 1) == U32At(torn, 1) && U32At(r, 5) == U32At(torn, 5) && r[0] == torn[0]
  {
    forall i | 0 <= i < 9 ensures r[i] == torn[i] {
      assert (enc[..cut] + rest)[8..8 + |r|][i] == enc[8 + i] == enc[8..][i];
    }
  }

  /** A long operation is not a put of two bytes under the empty key. */
  lemma LongOpHead(op: WalOp)
    requires OpFits(op) && |EncodeOp(op)| >= 100
    ensures var d := EncodeOp(op); !(d[0] == 0x01 && U32At(d, 1) == 0 && U32At(d, 5) == 2)
  {
    var d := EncodeOp(op);
    if op.LogPut? {
      assert d[1..5] == ToLE(|op.key|, 4);
      U32AtToLE(d, 1, |op.key|);
      if op.key == [] {
        assert d[5..9] == ToLE(|op.value|, 4);
        U32AtToLE(d, 5, |op.value|);
      }
    }
  }

  /** A value of the given length that the key does not have. */
  lemma OtherValue(m: Run, n: nat) returns (v: Bytes)
    requires n > 0
    ensures |v| == n && !EmptyKeyHas(m, v)
  {
    var a: Bytes, b: Bytes := seq(n, _ => 0), seq(n, _ => 1);
    assert a[0] != b[0];
    v := if EmptyKeyHas(m, a) then b else a;
  }

  lemma SomePutIsLost(crc: Checksum, ops: seq<WalOp>, op: WalOp, cut: nat) returns (v: Bytes)
    requires AllLoggable(ops) && Loggable(op) && 0 < cut < |EncodeRecord(crc, EncodeOp(op))|
    ensures Loggable(LogPut([], v)) && !EmptyKeyHas(ApplyOps(map[], ops), v)
    ensures NeverWrites(ReadAll(crc, EncodeRecord(crc, EncodeOp(op))[..cut] + Framed(crc, v)), v)
  {
    hide EncodeRecord, EncodeOp, ReadAll, ApplyOps, Framed;
    var torn := EncodeOp(op);
    var n := if cut < HEADER_SIZE || |torn| + 9 > MAX_RECORD then 2 else |torn|;
    v := OtherValue(ApplyOps(map[], ops), n);
    FramedSize(crc, v);
    if cut < HEADER_SIZE {
      BehindTornHeader(crc, EncodeRecord(crc, torn)[..cut], v);
    } else if |torn| + 9 > MAX_RECORD {
      BehindHugeOp(crc, op, cut, v);
    } else {
      BehindTornBody(crc, torn, cut, v);
    }
  }

  // ----------------------------------------------------------------- the result

  /** Recovery finds the operations before the torn tail and those logged behind it. */
  ghost predicate LaterOpsSurvive(crc: Checksum, ops: seq<WalOp>, tail: Bytes, more: seq<WalOp>)
  {
    Recover(crc, LogBytes(crc, ops) + (tail + LogBytes(crc, more))) == Ok(ApplyOps(map[], ops + more))
  }

  lemma LogOfOne(crc: Checksum, v: Bytes)
    ensures LogBytes(crc, [LogPut([], v)]) == Framed(crc, v)
  {
    hide EncodeRecord, EncodeOp;
    assert Records([LogPut([], v)]) == [EncodeOp(LogPut([], v))];
    OneRecord(crc, EncodeOp(LogPut([], v)));
  }

  lemma LostPut(crc: Checksum, ops: seq<WalOp>, tail: Bytes, v: Bytes)
    requires AllLoggable(ops) && !EmptyKeyHas(ApplyOps(map[], ops), v)
    requires NeverWrites(ReadAll(crc, tail + Framed(crc, v)), v)
    ensures !LaterOpsSurvive(crc, ops, tail, [LogPut([], v)])
  {
    hide ReadAll, NeverWrites, Framed, Replay, Recover, LogBytes;
    LogOfOne(crc, v);
    RecoverThen(crc, ops, tail + Framed(crc, v));
    StillNotHeld(ApplyOps(map[], ops), ReadAll(crc, tail + Framed(crc, v)), v);
    var all := ops + [LogPut([], v)];
    assert all[..|all| - 1] == ops;
  }

  lemma CleanLogGoesOn(crc: Checksum, ops: seq<WalOp>, more: seq<WalOp>)
    requires AllLoggable(ops) && AllLoggable(more)
    ensures LaterOpsSurvive(crc, ops, [], more)
  {
    hide ReadAll, Replay, ApplyOps;
    assert [] + LogBytes(crc, more) == LogBytes(crc, more);
    assert Records(ops + more) == Records(ops) + Records(more);
    EncodeRecordsConcat(crc, Records(ops), Records(more));
    RecoverLog(crc, ops + more);
  }

  /**
   What is logged after a crash can be relied on if and only if the crash left the log at a record
   boundary: for every checksum function, every log and every torn operation.
   */
  lemma TornLogExactly(crc: Checksum, ops: seq<WalOp>, op: WalOp, cut: nat)
    requires AllLoggable(ops) && Loggable(op) && cut < |EncodeRecord(crc, EncodeOp(op))|
    ensures (forall more :: AllLoggable(more) ==>
            LaterOpsSurvive(crc, ops, EncodeRecord(crc, EncodeOp(op))[..cut], more))
            <==> cut == 0
  {
    hide EncodeRecord, EncodeOp, LaterOpsSurvive;
    var tail := EncodeRecord(crc, EncodeOp(op))[..cut];
    if cut == 0 {
      forall more | AllLoggable(more) ensures LaterOpsSurvive(crc, ops, tail, more) { CleanLogGoesOn(crc, ops, more); }
    } else {
      var v := SomePutIsLost(crc, ops, op, cut);
      LostPut(crc, ops, tail, v);
      assert AllLoggable([LogPut([], v)]);
    }
  }

  // ----------------------------------------------------------------- damaged records

  /** Recovery stops in front of bytes that are no record, whatever follows them, and at nothing else. */
  lemma StopsAtDamageExactly(crc: Checksum, ops: seq<WalOp>, tail: Bytes)
    requires AllLoggable(ops)
    ensures ReadAll(crc, LogBytes(crc, ops) + tail) == Records(ops) <==> !StartsWithRecord(crc, tail)
    ensures !StartsWithRecord(crc, tail) ==> Recover(crc, LogBytes(crc, ops) + tail) == Ok(ApplyOps(map[], ops))
  {
    hide ReadAll, StartsWithRecord;
    RecordsWithinLimit(ops);
    ReadAllAfter(crc, Records(ops), tail);
    DecodesExactly(crc, tail);
    RecoverThen(crc, ops, tail);
    if ReadAll(crc, tail) != [] { assert |Records(ops) + ReadAll(crc, tail)| > |Records(ops)|; }
  }

  /**
   A log in which the data of one record were overwritten recovers exactly the operations before it
   if the checksum tells the two apart; if not, the damaged bytes are replayed.
   */
  lemma DamagedLogExactly(crc: Checksum, ops: seq<WalOp>, op: WalOp, other: Bytes, later: Bytes)
    requires AllLoggable(ops) && Loggable(op) && |other| == |EncodeOp(op)|
    ensures var tail := EncodeRecord(crc, EncodeOp(op))[..HEADER_SIZE] + other + later;
            Recover(crc, LogBytes(crc, ops) + tail) ==
            if RecordCrc(crc, other) == RecordCrc(crc, EncodeOp(op))
            then Replay(ApplyOps(map[], ops), [other] + ReadAll(crc, later))
            else Ok(ApplyOps(map[], ops))
  {
    hide EncodeRecord, EncodeOp, ReadAll, ApplyOps, RecordCrc;
    DamagedDataExactly(crc, EncodeOp(op), other, later);
    RecoverThen(crc, ops, EncodeRecord(crc, EncodeOp(op))[..HEADER_SIZE] + other + later);
  }

  /** A log in which the checksum of one record was overwritten recovers exactly the operations before it. */
  lemma DamagedChecksumStops(crc: Checksum, ops: seq<WalOp>, op: WalOp, sum: Bytes, later: Bytes)
    requires AllLoggable(ops) && Loggable(op) && |sum| == 4 && sum != EncodeRecord(crc, EncodeOp(op))[..4]
    ensures Recover(crc, LogBytes(crc, ops) + (sum + EncodeRecord(crc, EncodeOp(op))[4..] + later))
            == Ok(ApplyOps(map[], ops))
  {
    hide EncodeRecord, EncodeOp, ReadAll, ApplyOps;
    DamagedChecksum(crc, EncodeOp(op), sum, later);
    RecoverThen(crc, ops, sum + EncodeRecord(crc, EncodeOp(op))[4..] + later);
  }

  // ----------------------------------------------------------------- large operations

  /**
   An operation too long for one record is written all the same. Recovery stops in front of it, so
   it and everything logged later are lost.
   */
  lemma OversizedOpStopsRecovery(crc: Checksum, ops: seq<WalOp>, op: WalOp, later: Bytes)
    requires AllLoggable(ops) && MAX_RECORD < |EncodeOp(op)| <= U32_MAX
    ensures Recover(crc, LogBytes(crc, ops) + (EncodeRecord(crc, EncodeOp(op)) + later)) == Ok(ApplyOps(map[], ops))
  {
    var data := EncodeOp(op);
    var tail := EncodeRecord(crc, data) + later;
    RecoverThen(crc, ops, tail);
    TooLongToRead(crc, data, later);
  }

  lemma TooLongToRead(crc: Checksum, data: Bytes, later: Bytes)
    requires MAX_RECORD < |data| <= U32_MAX
    ensures ReadAll(crc, EncodeRecord(crc, data) + later) == []
  {
    var s := EncodeRecord(crc, data) + later;
    assert s[4..8] == ToLE(|data|, 4);
    U32AtToLE(s, 4, |data|);
  }
}
