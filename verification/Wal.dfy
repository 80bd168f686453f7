/**
 The write-ahead log: records framed by checksum and length, and the recovery loop that stops at
 the first incomplete or damaged record. The checksum is an arbitrary function of the bytes.
 */
module Wals {
  import opened Common
  import opened Bytes

  type U32 = x: nat | x <= U32_MAX
  type Checksum = Bytes -> U32

  const HEADER_SIZE: nat := 8
  const MAX_RECORD: nat := 64 * 1024 * 1024

  datatype WalError = Corruption

  /** What is left of a stream and what was read from it. */
  datatype Decoded = Decoded(record: Result<Option<Bytes>, WalError>, rest: Bytes)

  function RecordCrc(crc: Checksum, data: Bytes): U32
  {
    crc(ToLE(|data|, 4) + data)
  }

  function EncodeRecord(crc: Checksum, data: Bytes): (s: Bytes)
    ensures |s| == HEADER_SIZE + |data|
  {
    ToLE(RecordCrc(crc, data), 4) + ToLE(|data|, 4) + data
  }

  function DecodeRecord(crc: Checksum, s: Bytes): Decoded
  {
    if |s| < HEADER_SIZE then Decoded(Ok(None), [])
    else
      var stored, len := U32At(s, 0), U32At(s, 4);
      if len > MAX_RECORD then Decoded(Err(Corruption), s[8..])
      else if |s| < HEADER_SIZE + len then Decoded(Err(Corruption), [])
      else
        var data := s[8..8 + len];
        Decoded(if stored == RecordCrc(crc, data) then Ok(Some(data)) else Err(Corruption), s[8 + len..])
  }

  function EncodeRecords(crc: Checksum, records: seq<Bytes>): Bytes
  {
    if records == [] then [] else EncodeRecord(crc, records[0]) + EncodeRecords(crc, records[1..])
  }

  /** The records before the end of the stream or the first corruption. */
  function ReadAll(crc: Checksum, s: Bytes): seq<Bytes>
    decreases |s|
  {
    var d := DecodeRecord(crc, s);
    if d.record.Ok? && d.record.value.Some? then
      assert |d.rest| < |s|;
      [d.record.value.value] + ReadAll(crc, d.rest)
    else []
  }

  predicate WithinLimit(records: seq<Bytes>)
  {
    forall r :: r in records ==> |r| <= MAX_RECORD
  }

  // ------------------------------------------------------------ round trip

  lemma DecodeWhole(crc: Checksum, data: Bytes, rest: Bytes)
    requires |data| <= MAX_RECORD
    ensures DecodeRecord(crc, EncodeRecord(crc, data) + rest) == Decoded(Ok(Some(data)), rest)
  {
    var s := EncodeRecord(crc, data) + rest;
    assert s[0..4] == ToLE(RecordCrc(crc, data), 4);
    assert s[4..8] == ToLE(|data|, 4);
    assert s[8..8 + |data|] == data && s[8 + |data|..] == rest;
    U32AtToLE(s, 0, RecordCrc(crc, data));
    U32AtToLE(s, 4, |data|);
  }

  /** A stream that starts with a record's header but is shorter than the record yields nothing. */
  lemma ShortOfItsLength(crc: Checksum, data: Bytes, s: Bytes)
    requires |data| <= MAX_RECORD && HEADER_SIZE <= |s| < HEADER_SIZE + |data|
    requires s[..HEADER_SIZE] == EncodeRecord(crc, data)[..HEADER_SIZE]
    ensures ReadAll(crc, s) == []
  {
    assert s[4..8] == s[..8][4..8] == EncodeRecord(crc, data)[4..8] == ToLE(|data|, 4);
    U32AtToLE(s, 4, |data|);
  }

  /** A record cut anywhere before its last byte yields nothing, whatever the checksum function is. */
  lemma DecodeTorn(crc: Checksum, data: Bytes, cut: nat)
    requires |data| <= MAX_RECORD && cut < |EncodeRecord(crc, data)|
    ensures ReadAll(crc, EncodeRecord(crc, data)[..cut]) == []
  {
    if cut >= HEADER_SIZE {
      ShortOfItsLength(crc, data, EncodeRecord(crc, data)[..cut]);
    }
  }

  lemma {:induction false} EncodeRecordsConcat(crc: Checksum, a: seq<Bytes>, b: seq<Bytes>)
    ensures EncodeRecords(crc, a + b) == EncodeRecords(crc, a) + EncodeRecords(crc, b)
  {
    if a == [] {
      assert a + b == b;
    } else {
      EncodeRecordsConcat(crc, a[1..], b);
      assert (a + b)[1..] == a[1..] + b && (a + b)[0] == a[0];
      assert EncodeRecords(crc, a + b) ==
             EncodeRecord(crc, a[0]) + EncodeRecords(crc, a[1..]) + EncodeRecords(crc, b);
    }
  }

  /** Decoding `s` yields the records one after the other and leaves `rest`. */
  ghost predicate Yields(crc: Checksum, s: Bytes, records: seq<Bytes>, rest: Bytes)
    decreases |records|
  {
    if records == [] then s == rest
    else
      var d := DecodeRecord(crc, s);
      d.record == Ok(Some(records[0])) && Yields(crc, d.rest, records[1..], rest)
  }

  lemma {:induction false} ReadAllYields(crc: Checksum, s: Bytes, records: seq<Bytes>, rest: Bytes)
    requires Yields(crc, s, records, rest)
    ensures ReadAll(crc, s) == records + ReadAll(crc, rest)
    decreases |records|
  {
    if records != [] {
      ReadAllYields(crc, DecodeRecord(crc, s).rest, records[1..], rest);
      assert records == [records[0]] + records[1..];
    }
  }

  lemma {:induction false} EncodedYields(crc: Checksum, records: seq<Bytes>, rest: Bytes)
    requires WithinLimit(records)
    ensures Yields(crc, EncodeRecords(crc, records) + rest, records, rest)
  {
    if records == [] {
      assert EncodeRecords(crc, records) + rest == rest;
    } else {
      var tail := EncodeRecords(crc, records[1..]) + rest;
      assert EncodeRecords(crc, records) + rest == EncodeRecord(crc, records[0]) + tail;
      DecodeWhole(crc, records[0], tail);
      EncodedYields(crc, records[1..], rest);
    }
  }

  lemma ReadAllAfter(crc: Checksum, records: seq<Bytes>, rest: Bytes)
    requires WithinLimit(records)
    ensures ReadAll(crc, EncodeRecords(crc, records) + rest) == records + ReadAll(crc, rest)
  {
    EncodedYields(crc, records, rest);
    ReadAllYields(crc, EncodeRecords(crc, records) + rest, records, rest);
  }

  /** What was written is what is read. */
  lemma ReadBack(crc: Checksum, records: seq<Bytes>)
    requires WithinLimit(records)
    ensures ReadAll(crc, EncodeRecords(crc, records)) == records
  {
    ReadAllAfter(crc, records, []);
    assert EncodeRecords(crc, records) + [] == EncodeRecords(crc, records);
  }

  // ------------------------------------------------------- prefix recovery

  /** The first `k` records, and no more, are wholly contained in the first `cut` bytes. */
  predicate Survive(crc: Checksum, records: seq<Bytes>, cut: nat, k: nat)
  {
    && k <= |records|
    && |EncodeRecords(crc, records[..k])| <= cut
    && (k < |records| ==> cut < |EncodeRecords(crc, records[..k + 1])|)
  }

  lemma {:induction false} SomeSurvive(crc: Checksum, records: seq<Bytes>, cut: nat) returns (k: nat)
    ensures Survive(crc, records, cut, k)
  {
    if records == [] || cut < |EncodeRecord(crc, records[0])| {
      k := 0;
      if records != [] { assert records[..1][1..] == []; }
    } else {
      var first := |EncodeRecord(crc, records[0])|;
      var j := SomeSurvive(crc, records[1..], cut - first);
      k := j + 1;
      assert records[..k][1..] == records[1..][..j];
      if k < |records| { assert records[..k + 1][1..] == records[1..][..j + 1]; }
    }
  }

  lemma SplitAtCut(crc: Checksum, records: seq<Bytes>, cut: nat, k: nat)
    requires k <= |records| && |EncodeRecords(crc, records[..k])| <= cut <= |EncodeRecords(crc, records)|
    ensures var extra := cut - |EncodeRecords(crc, records[..k])|;
            && extra <= |EncodeRecords(crc, records[k..])|
            && EncodeRecords(crc, records)[..cut]
               == EncodeRecords(crc, records[..k]) + EncodeRecords(crc, records[k..])[..extra]
  {
    assert records == records[..k] + records[k..];
    EncodeRecordsConcat(crc, records[..k], records[k..]);
  }

  /**
   Prefix recovery: cut the log at any byte, and recovery returns exactly the records that are
   wholly contained in what remains, in order, for any checksum function.
   */
  lemma PrefixRecovery(crc: Checksum, records: seq<Bytes>, cut: nat, k: nat)
    requires WithinLimit(records) && cut <= |EncodeRecords(crc, records)| && Survive(crc, records, cut, k)
    ensures ReadAll(crc, EncodeRecords(crc, records)[..cut]) == records[..k]
  {
    hide EncodeRecords, ReadAll, Survive;
    CutAfter(crc, records, cut, k);
    SplitAtCut(crc, records, cut, k);
    var torn := EncodeRecords(crc, records[k..])[..cut - |EncodeRecords(crc, records[..k])|];
    ReadAllAfter(crc, records[..k], torn);
    if k < |records| { TornRecord(crc, records, cut, k); } else { NothingLeft(crc, records); }
    assert records[..k] + [] == records[..k];
  }

  lemma CutAfter(crc: Checksum, records: seq<Bytes>, cut: nat, k: nat)
    requires Survive(crc, records, cut, k)
    ensures k <= |records| && |EncodeRecords(crc, records[..k])| <= cut
  {
  }

  lemma NothingLeft(crc: Checksum, records: seq<Bytes>)
    ensures EncodeRecords(crc, records[|records|..]) == [] && ReadAll(crc, []) == []
  {
  }

  lemma TornRecord(crc: Checksum, records: seq<Bytes>, cut: nat, k: nat)
    requires WithinLimit(records) && Survive(crc, records, cut, k) && k < |records|
    requires cut - |EncodeRecords(crc, records[..k])| <= |EncodeRecords(crc, records[k..])|
    ensures ReadAll(crc, EncodeRecords(crc, records[k..])[..cut - |EncodeRecords(crc, records[..k])|]) == []
  {
    var extra := cut - |EncodeRecords(crc, records[..k])|;
    assert records[..k + 1] == records[..k] + [records[k]];
    EncodeRecordsConcat(crc, records[..k], [records[k]]);
    assert EncodeRecords(crc, [records[k]]) == EncodeRecord(crc, records[k]);
    assert EncodeRecords(crc, records[k..])[..extra] == EncodeRecord(crc, records[k])[..extra];
    DecodeTorn(crc, records[k], extra);
  }

  // ------------------------------------------------------- reading any bytes

  /** A record within the limit stands, with its checksum, at the front of the bytes. */
  ghost predicate StartsWithRecord(crc: Checksum, s: Bytes)
  {
    exists r :: |r| <= MAX_RECORD && EncodeRecord(crc, r) <= s
  }

  /** Only a correctly framed record is ever decoded. */
  lemma DecodedWasEncoded(crc: Checksum, s: Bytes, r: Bytes)
    requires DecodeRecord(crc, s).record == Ok(Some(r))
    ensures |r| <= MAX_RECORD && s == EncodeRecord(crc, r) + DecodeRecord(crc, s).rest
  {
    ToLEOfU32(s, 0);
    ToLEOfU32(s, 4);
    assert s == s[0..4] + s[4..8] + s[8..8 + |r|] + s[8 + |r|..];
  }

  /** A record is decoded exactly when one is there. */
  lemma DecodesExactly(crc: Checksum, s: Bytes)
    ensures ReadAll(crc, s) != [] <==> StartsWithRecord(crc, s)
  {
    hide EncodeRecord;
    var d := DecodeRecord(crc, s);
    if d.record.Ok? && d.record.value.Some? {
      DecodedWasEncoded(crc, s, d.record.value.value);
      assert EncodeRecord(crc, d.record.value.value) <= s;
    }
    if r :| |r| <= MAX_RECORD && EncodeRecord(crc, r) <= s {
      var rest := s[|EncodeRecord(crc, r)|..];
      assert s == EncodeRecord(crc, r) + rest;
      DecodeWhole(crc, r, rest);
    }
  }

  /** The first record read, what it was read from, and the rest. */
  lemma FirstRead(crc: Checksum, s: Bytes) returns (r: Bytes, rest: Bytes)
    requires ReadAll(crc, s) != []
    ensures |r| <= MAX_RECORD && s == EncodeRecord(crc, r) + rest && |rest| < |s|
    ensures ReadAll(crc, s) == [r] + ReadAll(crc, rest)
  {
    hide EncodeRecord, DecodeRecord;
    var d := DecodeRecord(crc, s);
    r, rest := d.record.value.value, d.rest;
    DecodedWasEncoded(crc, s, r);
  }

  lemma {:induction false} ReadWasWritten(crc: Checksum, s: Bytes) returns (rest: Bytes)
    ensures WithinLimit(ReadAll(crc, s)) && s == EncodeRecords(crc, ReadAll(crc, s)) + rest
    ensures !StartsWithRecord(crc, rest)
    decreases |s|
  {
    hide EncodeRecord, ReadAll, StartsWithRecord;
    if ReadAll(crc, s) == [] {
      rest := s;
      DecodesExactly(crc, s);
    } else {
      var r, tail := FirstRead(crc, s);
      rest := ReadWasWritten(crc, tail);
      assert ([r] + ReadAll(crc, tail))[1..] == ReadAll(crc, tail);
    }
  }

  /**
   What recovery makes of any bytes at all: the records it returns are written there one after the
   other, each with its length and checksum, and behind them stands no further record. This
   determines the answer, for every checksum function.
   */
  lemma ReadAllExactly(crc: Checksum, s: Bytes, records: seq<Bytes>)
    ensures records == ReadAll(crc, s) <==>
              && WithinLimit(records) && EncodeRecords(crc, records) <= s
              && !StartsWithRecord(crc, s[|EncodeRecords(crc, records)|..])
  {
    hide ReadAll, EncodeRecords, StartsWithRecord;
    var rest := ReadWasWritten(crc, s);
    var all := ReadAll(crc, s);
    assert s[|EncodeRecords(crc, all)|..] == rest;
    if WithinLimit(records) && EncodeRecords(crc, records) <= s
       && !StartsWithRecord(crc, s[|EncodeRecords(crc, records)|..])
    {
      var left := s[|EncodeRecords(crc, records)|..];
      assert s == EncodeRecords(crc, records) + left;
      DecodesExactly(crc, left);
      ReadAllAfter(crc, records, left);
    }
  }

  /** Other bytes in place of a record's data are read as data exactly when their checksum is the same. */
  lemma DamagedDataExactly(crc: Checksum, data: Bytes, other: Bytes, later: Bytes)
    requires |other| == |data| <= MAX_RECORD
    ensures var s := EncodeRecord(crc, data)[..HEADER_SIZE] + other + later;
            ReadAll(crc, s) ==
            if RecordCrc(crc, other) == RecordCrc(crc, data) then [other] + ReadAll(crc, later) else []
  {
    var s := EncodeRecord(crc, data)[..HEADER_SIZE] + other + later;
    assert s[0..4] == ToLE(RecordCrc(crc, data), 4);
    assert s[4..8] == ToLE(|data|, 4);
    assert s[8..8 + |data|] == other && s[8 + |data|..] == later;
    U32AtToLE(s, 0, RecordCrc(crc, data));
    U32AtToLE(s, 4, |data|);
  }

  /** Any other four bytes in place of the checksum are always noticed. */
  lemma DamagedChecksum(crc: Checksum, data: Bytes, sum: Bytes, later: Bytes)
    requires |data| <= MAX_RECORD && |sum| == 4 && sum != EncodeRecord(crc, data)[..4]
    ensures ReadAll(crc, sum + EncodeRecord(crc, data)[4..] + later) == []
  {
    var s := sum + EncodeRecord(crc, data)[4..] + later;
    assert EncodeRecord(crc, data)[..4] == ToLE(RecordCrc(crc, data), 4);
    assert s[0..4] == sum;
    assert s[4..8] == ToLE(|data|, 4);
    assert s[8..8 + |data|] == data;
    U32AtToLE(s, 4, |data|);
    ToLEOfU32(s, 0);
  }

  // ------------------------------------------------- appending behind a torn tail

  /** A record that is read from a stream has the length its header says, and its bytes follow. */
  lemma FirstRecord(crc: Checksum, s: Bytes, r: Bytes)
    requires DecodeRecord(crc, s).record == Ok(Some(r))
    ensures HEADER_SIZE + |r| <= |s| && U32At(s, 4) == |r| && s[8..8 + |r|] == r
    ensures DecodeRecord(crc, s).rest == s[8 + |r|..]
  {
  }

  /** A whole header keeps its length, whatever follows it. */
  lemma HeaderDecides(crc: Checksum, torn: Bytes, cut: nat, rest: Bytes, r: Bytes)
    requires |torn| <= MAX_RECORD && HEADER_SIZE <= cut <= |EncodeRecord(crc, torn)|
    requires DecodeRecord(crc, EncodeRecord(crc, torn)[..cut] + rest).record == Ok(Some(r))
    ensures |r| == |torn|
  {
    var s := EncodeRecord(crc, torn)[..cut] + rest;
    FirstRecord(crc, s, r);
    assert s[4..8] == EncodeRecord(crc, torn)[4..8] == ToLE(|torn|, 4);
    U32AtToLE(s, 4, |torn|);
  }

  lemma ReadsFirst(crc: Checksum, s: Bytes, r: Bytes)
    requires ReadAll(crc, s) == [r]
    ensures DecodeRecord(crc, s).record == Ok(Some(r))
  {
    assert ReadAll(crc, s)[0] == r;
  }

  const PATTERN: Bytes := [0, 1, 1, 1, 1, 1, 1, 1]

  /** A torn header shifts what follows; a record with one distinguished byte shows it. */
  lemma TornHeaderShifts(crc: Checksum, head: Bytes)
    requires 0 < |head| < HEADER_SIZE
    ensures DecodeRecord(crc, head + EncodeRecord(crc, PATTERN)).record != Ok(Some(PATTERN))
  {
    hide DecodeRecord, EncodeRecord;
    var s := head + EncodeRecord(crc, PATTERN);
    if DecodeRecord(crc, s).record == Ok(Some(PATTERN)) {
      FirstRecord(crc, s, PATTERN);
      EncodedData(crc, PATTERN);
      Shifted(head, EncodeRecord(crc, PATTERN));
    }
  }

  lemma EncodedData(crc: Checksum, data: Bytes)
    ensures EncodeRecord(crc, data)[8..] == data
  {
  }

  lemma Shifted(head: Bytes, enc: Bytes)
    requires 0 < |head| < HEADER_SIZE && |enc| >= 16 && enc[8..] == PATTERN
    ensures (head + enc)[8..16] != PATTERN
  {
    assert (head + enc)[8..16][|head|] == enc[8] == enc[8..][0];
  }

  /** Recovery returns the first records and whatever was appended later. */
  ghost predicate AppendsSurvive(crc: Checksum, records: seq<Bytes>, torn: Bytes, more: seq<Bytes>)
  {
    ReadAll(crc, EncodeRecords(crc, records) + (torn + EncodeRecords(crc, more))) == records + more
  }

  lemma OneRecord(crc: Checksum, r: Bytes)
    ensures EncodeRecords(crc, [r]) == EncodeRecord(crc, r)
  {
    assert [r][1..] == [] && EncodeRecord(crc, r) + [] == EncodeRecord(crc, r);
  }

  lemma SurvivingAppend(crc: Checksum, records: seq<Bytes>, torn: Bytes, r: Bytes)
    requires WithinLimit(records) && AppendsSurvive(crc, records, torn, [r])
    ensures ReadAll(crc, torn + EncodeRecord(crc, r)) == [r]
  {
    hide EncodeRecord, ReadAll;
    OneRecord(crc, r);
    var tail := torn + EncodeRecord(crc, r);
    ReadAllAfter(crc, records, tail);
    assert (records + [r])[|records|..] == [r] && (records + ReadAll(crc, tail))[|records|..] == ReadAll(crc, tail);
  }

  /** Behind a torn record some record within the limit is not read back, whatever the checksum function is. */
  lemma LostRecord(crc: Checksum, records: seq<Bytes>, torn: Bytes, cut: nat) returns (lost: Bytes)
    requires WithinLimit(records) && |torn| <= MAX_RECORD && 0 < cut < |EncodeRecord(crc, torn)|
    ensures |lost| <= MAX_RECORD && !AppendsSurvive(crc, records, EncodeRecord(crc, torn)[..cut], [lost])
  {
    hide EncodeRecord, AppendsSurvive;
    var head := EncodeRecord(crc, torn)[..cut];
    lost := if cut < HEADER_SIZE then PATTERN else [];
    if AppendsSurvive(crc, records, head, [lost]) {
      SurvivingAppend(crc, records, head, lost);
      ReadsFirst(crc, head + EncodeRecord(crc, lost), lost);
      if cut < HEADER_SIZE {
        TornHeaderShifts(crc, head);
      } else {
        HeaderDecides(crc, torn, cut, EncodeRecord(crc, lost), lost);
      }
    }
  }

  /**
   The writer reopens the file in append mode and never cuts a torn tail off. What is appended
   later can be relied on if and only if the file ended at a record boundary, for every checksum
   function.
   */
  lemma TornTailExactly(crc: Checksum, records: seq<Bytes>, torn: Bytes, cut: nat)
    requires WithinLimit(records) && |torn| <= MAX_RECORD && cut < |EncodeRecord(crc, torn)|
    ensures (forall more :: WithinLimit(more) ==> AppendsSurvive(crc, records, EncodeRecord(crc, torn)[..cut], more))
            <==> cut == 0
  {
    var head := EncodeRecord(crc, torn)[..cut];
    if cut == 0 {
      forall more | WithinLimit(more) ensures AppendsSurvive(crc, records, head, more) {
        assert head + EncodeRecords(crc, more) == EncodeRecords(crc, more);
        ReadAllAfter(crc, records, EncodeRecords(crc, more));
        ReadBack(crc, more);
      }
    } else {
      var lost := LostRecord(crc, records, torn, cut);
      assert WithinLimit([lost]);
    }
  }

  /** While the torn record still lacks bytes, nothing that is appended is read at all. */
  lemma AppendsAfterTornRecordAreLost(crc: Checksum, records: seq<Bytes>, torn: Bytes, cut: nat, more: seq<Bytes>)
    requires WithinLimit(records) && |torn| <= MAX_RECORD
    requires HEADER_SIZE <= cut && cut + |EncodeRecords(crc, more)| < |EncodeRecord(crc, torn)|
    ensures ReadAll(crc, EncodeRecords(crc, records) + (EncodeRecord(crc, torn)[..cut] + EncodeRecords(crc, more)))
            == records
  {
    var tail := EncodeRecord(crc, torn)[..cut] + EncodeRecords(crc, more);
    ShortOfItsLength(crc, torn, tail);
    ReadAllAfter(crc, records, tail);
  }

  // ------------------------------------------------------------- streams

  /** A file being read from the front. */
  class ByteReader {
    var rest: Bytes

    constructor (data: Bytes)
      ensures rest == data
    {
      rest := data;
    }

    /** `read_exact`: all of the bytes asked for, or end of file. */
    method ReadExact(n: nat) returns (r: Option<Bytes>)
      modifies this
      ensures match r
              case Some(s) => |s| == n && old(rest) == s + rest
              case None => |old(rest)| < n && rest == []
    {
      if |rest| < n {
        rest := [];
        return None;
      }
      r := Some(rest[..n]);
      rest := rest[n..];
    }
  }

  method ReadRecord(crc: Checksum, reader: ByteReader) returns (r: Result<Option<Bytes>, WalError>)
    modifies reader
    ensures Decoded(r, reader.rest) == DecodeRecord(crc, old(reader.rest))
  {
    ghost var s := reader.rest;
    var header := reader.ReadExact(HEADER_SIZE);
    if header.None? { return Ok(None); }
    assert header.value == s[..8] && reader.rest == s[8..];
    var stored, len := U32At(header.value, 0), U32At(header.value, 4);
    if len > MAX_RECORD { return Err(Corruption); }
    var data := reader.ReadExact(len);
    if data.None? { return Err(Corruption); }
    assert data.value == s[8..8 + len] && reader.rest == s[8 + len..];
    if stored != RecordCrc(crc, data.value) { return Err(Corruption); }
    r := Ok(Some(data.value));
  }

  /** The recovery loop. */
  method ReadAllRecords(crc: Checksum, reader: ByteReader) returns (records: seq<Bytes>)
    modifies reader
    ensures records == ReadAll(crc, old(reader.rest))
  {
    records := [];
    while true
      invariant records + ReadAll(crc, reader.rest) == ReadAll(crc, old(reader.rest))
      decreases |reader.rest|
    {
      var r := ReadRecord(crc, reader);
      if r.Err? || r.value.None? { return; }
      records := records + [r.value.value];
    }
  }

  class WalWriter {
    const crc: Checksum
    var file: Bytes
    var bytesWritten: nat

    /** Opening never truncates: the file is whatever was there. */
    constructor (crc: Checksum, existing: Bytes)
      ensures this.crc == crc && file == existing && bytesWritten == |existing|
    {
      this.crc := crc;
      file, bytesWritten := existing, |existing|;
    }

    method Append(data: Bytes)
      modifies this
      ensures file == old(file) + EncodeRecord(crc, data)
      ensures bytesWritten == old(bytesWritten) + HEADER_SIZE + |data|
    {
      file := file + ToLE(RecordCrc(crc, data), 4);
      file := file + ToLE(|data|, 4);
      file := file + data;
      bytesWritten := bytesWritten + HEADER_SIZE + |data|;
    }
  }
}
