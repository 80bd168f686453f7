/**
 The Raft log: a window of entries above a snapshot, mirrored by a write-ahead log.
 `Log` is the value of the in-memory part; class `RaftLog` is the object the source
 updates in place, each method proved against the function on `Log`.
 */
module RaftLogs {
  import opened Common
  import opened Bytes
  import opened RaftTypes

  datatype Log = Log(entries: seq<LogEntry>, snapshotIndex: LogIndex, snapshotTerm: Term) {

    /** Representation invariant: positions and indices agree. */
    predicate Contiguous()
    {
      forall i :: 0 <= i < |entries| ==> entries[i].index == snapshotIndex + 1 + i
    }

    function Get(index: LogIndex): (e: Option<LogEntry>)
    {
      if index == 0 || index <= snapshotIndex then None
      else if index - snapshotIndex - 1 < |entries| then Some(entries[index - snapshotIndex - 1])
      else None
    }

    function LastIndex(): LogIndex
    {
      if entries == [] then snapshotIndex else entries[|entries| - 1].index
    }

    function LastTerm(): Term
    {
      if entries == [] then snapshotTerm else entries[|entries| - 1].term
    }

    function TermAt(index: LogIndex): Option<Term>
    {
      if index == 0 then Some(0)
      else if index == snapshotIndex then Some(snapshotTerm)
      else match Get(index)
           case Some(e) => Some(e.term)
           case None => None
    }

    predicate MatchTerm(index: LogIndex, term: Term)
    {
      TermAt(index) == Some(term)
    }

    function EntriesFrom(start: LogIndex): seq<LogEntry>
    {
      if start <= snapshotIndex then entries
      else if start - snapshotIndex - 1 >= |entries| then []
      else entries[start - snapshotIndex - 1..]
    }

    function Append(more: seq<LogEntry>): Log
    {
      this.(entries := entries + more)
    }

    function TruncateAfter(index: LogIndex): Log
    {
      if index <= snapshotIndex then this.(entries := [])
      else if index - snapshotIndex >= |entries| then this
      else this.(entries := entries[..index - snapshotIndex])
    }

    function Compact(index: LogIndex, term: Term): Log
    {
      if index <= snapshotIndex then this
      else if index - snapshotIndex >= |entries| then Log([], index, term)
      else Log(entries[index - snapshotIndex..], index, term)
    }

    // ------------------------------------------------------------ properties

    /** What a reader of the log sees after a truncation: everything up to the cut, nothing after. */
    lemma TruncateKeepsExactlyThePrefix(cut: LogIndex)
      requires Contiguous()
      ensures TruncateAfter(cut).Contiguous()
      ensures TruncateAfter(cut).LastIndex() ==
              (if cut <= snapshotIndex then snapshotIndex else if cut < LastIndex() then cut else LastIndex())
      ensures forall i: LogIndex {:trigger TruncateAfter(cut).Get(i)} ::
              TruncateAfter(cut).Get(i) == if i <= cut then Get(i) else None
    {
      var t := TruncateAfter(cut);
      forall i: LogIndex
        ensures t.Get(i) == if i <= cut then Get(i) else None
      {
        if cut > snapshotIndex && cut - snapshotIndex < |entries| && snapshotIndex < i <= cut {
          assert t.entries[i - snapshotIndex - 1] == entries[i - snapshotIndex - 1];
        }
      }
    }

    /**
     Compaction forgets exactly the indices at or below the snapshot, keeps every later entry,
     never moves the end of the log backwards, and answers the snapshot term at its own index.
     */
    lemma CompactForgetsExactlyTheSnapshot(index: LogIndex, term: Term)
      requires Contiguous() && index > snapshotIndex
      ensures var c := Compact(index, term);
              && c.Contiguous()
              && c.LastIndex() == (if index < LastIndex() then LastIndex() else index)
              && c.TermAt(index) == Some(term)
              && c.EntriesFrom(index + 1) == EntriesFrom(index + 1)
      ensures forall i: LogIndex {:trigger Compact(index, term).Get(i)} ::
              Compact(index, term).Get(i) == if i <= index then None else Get(i)
    {
      var c := Compact(index, term);
      if index - snapshotIndex < |entries| {
        forall i | 0 <= i < |c.entries|
          ensures c.entries[i].index == c.snapshotIndex + 1 + i
        {
          assert c.entries[i] == entries[i + (index - snapshotIndex)];
        }
      }
    }

    /** Two compactions are one compaction to the later snapshot. */
    lemma CompactCompose(i: LogIndex, ti: Term, j: LogIndex, tj: Term)
      requires snapshotIndex < i < j
      ensures Compact(i, ti).Compact(j, tj) == Compact(j, tj)
    {
      if j - snapshotIndex < |entries| {
        assert entries[i - snapshotIndex..][j - i..] == entries[j - snapshotIndex..];
      }
    }
  }

  // ---------------------------------------------------------- WAL entry codec

  datatype DecodeError = TooShort | UnknownType | SliceOutOfRange

  function KindByte(k: EntryType): Byte
  {
    match k
    case Normal => 0
    case ConfigChange => 1
    case Noop => 2
  }

  function EncodeEntry(e: LogEntry): Bytes
  {
    ToLE(e.index, 8) + ToLE(e.term, 8) + [KindByte(e.kind)] + ToLE(|e.data|, 4) + e.data
  }

  function DecodeEntry(b: Bytes): Result<LogEntry, DecodeError>
  {
    if |b| < 21 then Err(TooShort)
    else if b[16] > 2 then Err(UnknownType)
    else
      var kind := if b[16] == 0 then Normal else if b[16] == 1 then ConfigChange else Noop;
      var len := FromLE(b[17..21]);
      if 21 + len > |b| then Err(SliceOutOfRange)
      else Ok(LogEntry(FromLE(b[0..8]), FromLE(b[8..16]), b[21..21 + len], kind))
  }

  /** Index and term are `u64` in the source. */
  predicate U64Fields(e: LogEntry)
  {
    e.index <= U64_MAX && e.term <= U64_MAX
  }

  lemma EncodedLayout(e: LogEntry)
    ensures var b := EncodeEntry(e);
            && |b| == 21 + |e.data|
            && b[0..8] == ToLE(e.index, 8)
            && b[8..16] == ToLE(e.term, 8)
            && b[16] == KindByte(e.kind)
            && b[17..21] == ToLE(|e.data|, 4)
            && b[21..] == e.data
  {
  }

  /** The length field is cut to 32 bits, so an entry survives the codec exactly when its data fits. */
  lemma EntryRoundTrip(e: LogEntry)
    requires U64Fields(e)
    ensures DecodeEntry(EncodeEntry(e)) == Ok(e) <==> |e.data| <= U32_MAX
  {
    EncodedLayout(e);
    Widths();
    FromToLE(e.index, 8);
    FromToLE(e.term, 8);
    var b := EncodeEntry(e);
    if |e.data| <= U32_MAX {
      FromToLE(|e.data|, 4);
      assert b[21..21 + |e.data|] == b[21..];
    } else {
      assert FromLE(b[17..21]) < Pow256(4);
    }
  }

  function EncodeAll(es: seq<LogEntry>): (records: seq<Bytes>)
    ensures |records| == |es|
    ensures forall i :: 0 <= i < |es| ==> records[i] == EncodeEntry(es[i])
  {
    seq(|es|, i requires 0 <= i < |es| => EncodeEntry(es[i]))
  }

  /** Replay stops with an error at the first record that does not decode. */
  function Replay(records: seq<Bytes>): Result<seq<LogEntry>, DecodeError>
  {
    if records == [] then Ok([])
    else match DecodeEntry(records[0])
         case Err(e) => Err(e)
         case Ok(first) =>
           match Replay(records[1..])
           case Err(e) => Err(e)
           case Ok(rest) => Ok([first] + rest)
  }

  /** The result of a replay whose first part is already known. */
  function After(done: seq<LogEntry>, r: Result<seq<LogEntry>, DecodeError>): Result<seq<LogEntry>, DecodeError>
  {
    match r
    case Ok(rest) => Ok(done + rest)
    case Err(e) => Err(e)
  }

  lemma ReplayStep(done: seq<LogEntry>, records: seq<Bytes>)
    requires records != []
    ensures After(done, Replay(records)) ==
            match DecodeEntry(records[0])
            case Ok(e) => After(done + [e], Replay(records[1..]))
            case Err(e) => Err(e)
  {
    if DecodeEntry(records[0]).Ok? && Replay(records[1..]).Ok? {
      var e, rest := DecodeEntry(records[0]).value, Replay(records[1..]).value;
      assert done + ([e] + rest) == done + [e] + rest;
    }
  }

  predicate Encodable(es: seq<LogEntry>)
  {
    forall e :: e in es ==> U64Fields(e) && |e.data| <= U32_MAX
  }

  /** Reopening the WAL written by appends gives back exactly the appended entries. */
  lemma {:induction false} ReplayRestores(es: seq<LogEntry>)
    requires Encodable(es)
    ensures Replay(EncodeAll(es)) == Ok(es)
  {
    if es != [] {
      EntryRoundTrip(es[0]);
      assert EncodeAll(es)[1..] == EncodeAll(es[1..]);
      ReplayRestores(es[1..]);
      assert es == [es[0]] + es[1..];
    }
  }

  lemma EncodeAllConcat(a: seq<LogEntry>, b: seq<LogEntry>)
    ensures EncodeAll(a + b) == EncodeAll(a) + EncodeAll(b)
  {
  }

  // ------------------------------------------------------- restart after a history

  datatype LogOp = AppendOp(more: seq<LogEntry>) | TruncateOp(cut: LogIndex)

  /** The log in memory and the records of its file. */
  datatype LogAndFile = LogAndFile(log: Log, file: seq<Bytes>) {

    function Step(op: LogOp): LogAndFile
    {
      match op
      case AppendOp(more) => LogAndFile(log.Append(more), file + EncodeAll(more))
      case TruncateOp(cut) => LogAndFile(log.TruncateAfter(cut), file)
    }

    function Run(ops: seq<LogOp>): LogAndFile
      decreases |ops|
    {
      if ops == [] then this else Step(ops[0]).Run(ops[1..])
    }
  }

  /** Everything that the history appends. */
  function Appended(ops: seq<LogOp>): seq<LogEntry>
  {
    if ops == [] then []
    else (match ops[0] case AppendOp(more) => more case TruncateOp(_) => []) + Appended(ops[1..])
  }

  /** The truncation has no entry to remove. */
  predicate NothingToCut(log: Log, cut: LogIndex)
  {
    log.entries == [] || cut >= log.snapshotIndex + |log.entries|
  }

  /** Every truncation of the history found nothing to remove when it ran. */
  predicate NeverCuts(f: LogAndFile, ops: seq<LogOp>)
    decreases |ops|
  {
    ops == [] || ((ops[0].TruncateOp? ==> NothingToCut(f.log, ops[0].cut)) && NeverCuts(f.Step(ops[0]), ops[1..]))
  }

  /** The file keeps all that was ever appended; the log in memory is as long only if nothing was cut. */
  lemma {:induction false} FileKeepsEverything(f: LogAndFile, ops: seq<LogOp>, written: seq<LogEntry>)
    requires f.file == EncodeAll(written) && |f.log.entries| <= |written|
    ensures f.Run(ops).file == EncodeAll(written + Appended(ops))
    ensures |f.Run(ops).log.entries| <= |written| + |Appended(ops)|
    ensures f.log.entries == written && NeverCuts(f, ops) ==> f.Run(ops).log.entries == written + Appended(ops)
    ensures |f.log.entries| < |written| || !NeverCuts(f, ops) ==> |f.Run(ops).log.entries| < |written| + |Appended(ops)|
    decreases |ops|
  {
    hide EncodeAll;
    if ops == [] {
      assert written + [] == written;
    } else {
      match ops[0] {
        case AppendOp(more) =>
          EncodeAllConcat(written, more);
          FileKeepsEverything(f.Step(ops[0]), ops[1..], written + more);
          assert written + more + Appended(ops[1..]) == written + Appended(ops);
        case TruncateOp(cut) =>
          FileKeepsEverything(f.Step(ops[0]), ops[1..], written);
          assert Appended(ops) == Appended(ops[1..]);
      }
    }
  }

  /**
   Truncation does not rewrite the file. After any history, a restart finds everything that was
   ever appended, which is the log in memory if and only if no truncation had anything to cut.
   */
  lemma RestartAfterHistory(start: Log, ops: seq<LogOp>)
    requires Encodable(start.entries + Appended(ops))
    ensures var f := LogAndFile(start, EncodeAll(start.entries));
            && Replay(f.Run(ops).file) == Ok(start.entries + Appended(ops))
            && (Replay(f.Run(ops).file) == Ok(f.Run(ops).log.entries) <==> NeverCuts(f, ops))
  {
    FileKeepsEverything(LogAndFile(start, EncodeAll(start.entries)), ops, start.entries);
    ReplayRestores(start.entries + Appended(ops));
  }

  lemma OneStep(f: LogAndFile, op: LogOp)
    ensures f.Run([op]) == f.Step(op) && Appended([op]) == if op.AppendOp? then op.more else []
  {
    hide EncodeAll;
    assert [op][1..] == [];
  }

  lemma ThreeSteps(f: LogAndFile, x: LogOp, y: LogOp, z: LogOp)
    ensures f.Run([x, y, z]) == f.Step(x).Step(y).Step(z)
    ensures Appended([x, y, z]) == Appended([x]) + (Appended([y]) + Appended([z]))
  {
    hide EncodeAll;
    assert [x, y, z][1..] == [y, z] && [y, z][1..] == [z];
    assert f.Step(x).Run([y, z]) == f.Step(x).Step(y).Run([z]);
    assert Appended([y, z]) == Appended([y]) + Appended([z]) by { OneStep(f, y); }
    OneStep(f, x);
    OneStep(f.Step(x).Step(y), z);
  }

  lemma SecondReplaced(a: LogEntry, b: LogEntry, c: LogEntry)
    ensures Log([], 0, 0).Append([a, b]).TruncateAfter(1).Append([c]) == Log([a, c], 0, 0)
  {
    assert [] + [a, b] == [a, b] && [a, b][..1] == [a] && [a] + [c] == [a, c];
  }

  lemma JoinedThree(a: LogEntry, b: LogEntry, c: LogEntry)
    ensures [a, b] + ([] + [c]) == [a, b, c] && [] + [a, b, c] == [a, b, c]
  {
  }

  lemma TwiceTwo(a: LogEntry, b: LogEntry, c: LogEntry)
    requires a.index == 1 && b.index == 2 && c.index == 2
    ensures Log([a, c], 0, 0).Contiguous() && !Log([a, b, c], 0, 0).Contiguous()
  {
    assert Log([a, b, c], 0, 0).entries[2].index == 2;
  }

  /** A follower replaces its second entry; after a restart index 2 is there twice. */
  lemma ReplacedEntryReturns(a: LogEntry, b: LogEntry, c: LogEntry)
    requires a.index == 1 && b.index == 2 && c.index == 2 && Encodable([a, b, c])
    ensures var f := LogAndFile(Log([], 0, 0), EncodeAll([])).Run([AppendOp([a, b]), TruncateOp(1), AppendOp([c])]);
            && f.log == Log([a, c], 0, 0) && f.log.Contiguous()
            && Replay(f.file) == Ok([a, b, c]) && !Log([a, b, c], 0, 0).Contiguous()
  {
    hide EncodeAll, Replay, LogAndFile.Run, Appended, Log.Append, Log.TruncateAfter, NeverCuts, Log.Contiguous,
         Encodable;
    var f0, x, y, z := LogAndFile(Log([], 0, 0), EncodeAll([])), AppendOp([a, b]), TruncateOp(1), AppendOp([c]);
    ThreeSteps(f0, x, y, z);
    OneStep(f0, x);
    OneStep(f0, y);
    OneStep(f0, z);
    SecondReplaced(a, b, c);
    JoinedThree(a, b, c);
    RestartAfterHistory(Log([], 0, 0), [x, y, z]);
    TwiceTwo(a, b, c);
  }

  // ------------------------------------------------------------------- class

  class RaftLog {
    var entries: seq<LogEntry>
    var wal: seq<Bytes>
    var snapshotIndex: LogIndex
    var snapshotTerm: Term

    function Value(): Log
      reads this
    {
      Log(entries, snapshotIndex, snapshotTerm)
    }

    constructor (entries: seq<LogEntry>, wal: seq<Bytes>)
      ensures Value() == Log(entries, 0, 0) && this.wal == wal
    {
      this.entries, this.wal := entries, wal;
      snapshotIndex, snapshotTerm := 0, 0;
    }

    /** Open a log on existing WAL records: the entries are the replayed records. */
    static method Open(records: seq<Bytes>) returns (r: Result<RaftLog, DecodeError>)
      ensures r.Ok? <==> Replay(records).Ok?
      ensures r.Ok? ==> fresh(r.value) && r.value.Value() == Log(Replay(records).value, 0, 0) && r.value.wal == records
      ensures r.Err? ==> r.error == Replay(records).error
    {
      var entries: seq<LogEntry> := [];
      assert records[0..] == records;
      assert Replay(records).Ok? ==> entries + Replay(records).value == Replay(records).value;
      for i := 0 to |records|
        invariant Replay(records) == After(entries, Replay(records[i..]))
      {
        ReplayStep(entries, records[i..]);
        assert records[i..][1..] == records[i + 1..];
        match DecodeEntry(records[i]) {
          case Err(e) => return Err(e);
          case Ok(entry) => entries := entries + [entry];
        }
      }
      var log := new RaftLog(entries, records);
      r := Ok(log);
    }

    /** Every entry is written to the WAL before the in-memory log grows. */
    method Append(more: seq<LogEntry>)
      modifies this
      ensures LogAndFile(Value(), wal) == LogAndFile(old(Value()), old(wal)).Step(AppendOp(more))
    {
      for i := 0 to |more|
        invariant Value() == old(Value())
        invariant wal == old(wal) + EncodeAll(more)[..i]
      {
        wal := wal + [EncodeEntry(more[i])];
      }
      entries := entries + more;
    }

    method TruncateAfter(index: LogIndex)
      modifies this
      ensures LogAndFile(Value(), wal) == LogAndFile(old(Value()), old(wal)).Step(TruncateOp(index))
    {
      if index <= snapshotIndex {
        entries := [];
        return;
      }
      var keep := index - snapshotIndex;
      if keep < |entries| {
        entries := entries[..keep];
      }
    }

    method Compact(index: LogIndex, term: Term)
      modifies this
      ensures Value() == old(Value()).Compact(index, term)
      ensures wal == old(wal)
    {
      if index <= snapshotIndex { return; }
      var discard := index - snapshotIndex;
      if discard >= |entries| {
        entries := [];
      } else {
        entries := entries[discard..];
      }
      snapshotIndex, snapshotTerm := index, term;
    }
  }
}
