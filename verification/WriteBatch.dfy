/** Write batches: their bytes, the iterator over them, and their way through the log into a memtable (src/write_batch.rs). */
module WriteBatches {
  import opened Bytes
  import opened Coding
  import opened Entries
  import opened MemTables
  import opened Database
  import opened History
  import L = Log

  const HEADER_SIZE: nat := 12

  function EncodeOp(w: Write): (bs: Bytes)
    ensures bs != []
  {
    match w
    case Put(k, v) => [1] + EncodeVar(|k|) + k + EncodeVar(|v|) + v
    case Delete(k) => [0] + EncodeVar(|k|) + k
  }

  function EncodeOps(ops: seq<Write>): Bytes {
    if ops == [] then [] else EncodeOps(ops[..|ops| - 1]) + EncodeOp(ops[|ops| - 1])
  }

  lemma {:induction false} EncodeConcat(a: seq<Write>, b: seq<Write>)
    ensures EncodeOps(a + b) == EncodeOps(a) + EncodeOps(b)
  {
    hide EncodeOp;
    if b == [] {
      assert a + b == a;
    } else {
      var init := b[..|b| - 1];
      assert (a + b)[..|a + b| - 1] == a + init;
      EncodeConcat(a, init);
    }
  }

  lemma {:induction false} EncodeFirst(ops: seq<Write>)
    requires ops != []
    ensures EncodeOps(ops) == EncodeOp(ops[0]) + EncodeOps(ops[1..])
  {
    hide EncodeOp;
    assert ops == [ops[0]] + ops[1..];
    EncodeConcat([ops[0]], ops[1..]);
    assert [ops[0]][..0] == [];
  }

  /** One entry at the front and how many bytes it takes; None if the bytes end inside it. */
  function DecodeOp(bs: Bytes): (r: Option<(Write, nat)>)
    ensures r.Some? ==> 0 < r.value.1 <= |bs|
  {
    if bs == [] then None
    else
      match DecodeVar(bs[1..])
      case None => None
      case Some((klen, l)) =>
        var i := 1 + l + klen;
        if i > |bs| then None
        else if bs[0] != 1 then Some((Delete(bs[1 + l..i]), i))
        else
          match DecodeVar(bs[i..])
          case None => None
          case Some((vlen, m)) =>
            if i + m + vlen > |bs| then None else Some((Put(bs[1 + l..i], bs[i + m..i + m + vlen]), i + m + vlen))
  }

  function DecodeOps(bs: Bytes): seq<Write> {
    match DecodeOp(bs)
    case None => []
    case Some((w, n)) => [w] + DecodeOps(bs[n..])
  }

  lemma {:induction false} KeyPart(tag: Byte, k: Bytes, rest: Bytes)
    ensures var bs, l := [tag] + EncodeVar(|k|) + k + rest, |EncodeVar(|k|)|;
            && DecodeVar(bs[1..]) == Some((|k|, l)) && 1 + l + |k| <= |bs|
            && bs[1 + l..1 + l + |k|] == k && bs[1 + l + |k|..] == rest
  {
    hide EncodeVar;
    hide DecodeVar;
    var bs := [tag] + EncodeVar(|k|) + k + rest;
    assert bs[1..] == EncodeVar(|k|) + (k + rest);
    VarRoundTrip(|k|, k + rest);
  }

  lemma {:induction false} ValuePart(v: Bytes, rest: Bytes)
    ensures var bs, m := EncodeVar(|v|) + v + rest, |EncodeVar(|v|)|;
            && DecodeVar(bs) == Some((|v|, m)) && m + |v| <= |bs|
            && bs[m..m + |v|] == v
  {
    hide EncodeVar;
    hide DecodeVar;
    assert EncodeVar(|v|) + v + rest == EncodeVar(|v|) + (v + rest);
    VarRoundTrip(|v|, v + rest);
  }

  lemma {:induction false} OpsMore(ops: seq<Write>, w: Write)
    ensures EncodeOps(ops + [w]) == EncodeOps(ops) + EncodeOp(w)
  {
    hide EncodeOp;
    assert (ops + [w])[..|ops|] == ops;
  }

  lemma {:induction false} Behind(a: Bytes, b: Bytes)
    requires HEADER_SIZE <= |a|
    ensures (a + b)[HEADER_SIZE..] == a[HEADER_SIZE..] + b
  {
  }

  lemma {:induction false} DecodeDelete(k: Bytes, rest: Bytes)
    ensures DecodeOp([0] + EncodeVar(|k|) + k + rest) == Some((Write.Delete(k), 1 + |EncodeVar(|k|)| + |k|))
  {
    hide EncodeVar;
    hide DecodeVar;
    KeyPart(0, k, rest);
  }

  lemma {:induction false} DecodePut(k: Bytes, v: Bytes, rest: Bytes)
    ensures DecodeOp([1] + EncodeVar(|k|) + k + (EncodeVar(|v|) + v + rest))
         == Some((Write.Put(k, v), 1 + |EncodeVar(|k|)| + |k| + |EncodeVar(|v|)| + |v|))
  {
    hide EncodeVar;
    hide DecodeVar;
    var tail := EncodeVar(|v|) + v + rest;
    var bs := [1] + EncodeVar(|k|) + k + tail;
    KeyPart(1, k, tail);
    ValuePart(v, rest);
    var i, m := 1 + |EncodeVar(|k|)| + |k|, |EncodeVar(|v|)|;
    assert |bs| == i + |tail|;
    assert bs[i + m..i + m + |v|] == bs[i..][m..m + |v|];
  }

  lemma {:induction false} DecodeEncodedOp(w: Write, rest: Bytes)
    ensures DecodeOp(EncodeOp(w) + rest) == Some((w, |EncodeOp(w)|))
  {
    hide EncodeVar;
    hide DecodeOp;
    match w {
      case Delete(k) =>
        DecodeDelete(k, rest);
      case Put(k, v) =>
        FiveParts([1], EncodeVar(|k|), k, EncodeVar(|v|), v, rest);
        DecodePut(k, v, rest);
    }
  }

  lemma {:induction false} FiveParts(a: Bytes, b: Bytes, c: Bytes, d: Bytes, e: Bytes, rest: Bytes)
    ensures a + b + c + d + e + rest == a + b + c + (d + e + rest)
  {
  }

  /** The iterator gives back exactly the entries of the batch. */
  lemma {:induction false} OpsRoundTrip(ops: seq<Write>)
    ensures DecodeOps(EncodeOps(ops)) == ops
  {
    hide EncodeOp;
    hide DecodeOp;
    if ops == [] {
      assert DecodeOp([]) == None by { NoOp(); }
    } else {
      EncodeFirst(ops);
      DecodeEncodedOp(ops[0], EncodeOps(ops[1..]));
      assert EncodeOps(ops)[|EncodeOp(ops[0])|..] == EncodeOps(ops[1..]);
      OpsRoundTrip(ops[1..]);
    }
  }

  lemma {:induction false} NoOp()
    ensures DecodeOp([]) == None
  {
  }

  /** The entry that a write becomes. */
  function EntryFor(w: Write, seqno: nat): Entry {
    match w
    case Put(k, v) => Entry(InternalKey(k, seqno, TypeValue), v)
    case Delete(k) => Entry(InternalKey(k, seqno, TypeDeletion), [])
  }

  /** The entries of a batch: consecutive sequence numbers from the first. */
  ghost function EntriesFor(ops: seq<Write>, seqno: nat): set<Entry> {
    set i | 0 <= i < |ops| :: EntryFor(ops[i], seqno + i)
  }

  class WriteBatch {
    var entries: Bytes
    ghost var ops: seq<Write>

    ghost predicate Valid()
      reads this
    {
      && HEADER_SIZE <= |entries| && |ops| < 0x1_0000_0000
      && entries[8..12] == EncodeFixed(4, |ops|)
      && entries[HEADER_SIZE..] == EncodeOps(ops)
    }

    constructor ()
      ensures Valid() && ops == []
    {
      entries, ops := seq(HEADER_SIZE, _ => 0), [];
      new;
      assert EncodeFixed(0, 0) == [] && EncodeFixed(1, 0) == [0] && EncodeFixed(2, 0) == [0, 0];
      assert EncodeFixed(3, 0) == [0, 0, 0] && EncodeFixed(4, 0) == [0, 0, 0, 0];
    }

    function Count(): (c: nat)
      reads this
      requires HEADER_SIZE <= |entries|
    {
      DecodeFixed(entries[8..12])
    }

    function Sequence(): (s: nat)
      reads this
      requires HEADER_SIZE <= |entries|
    {
      DecodeFixed(entries[0..8])
    }

    lemma {:induction false} CountIs()
      requires Valid()
      ensures Count() == |ops|
    {
      Fixed32(|ops|);
    }

    method SetCount(c: nat)
      requires HEADER_SIZE <= |entries|
      modifies this`entries
      ensures |entries| == |old(entries)| && entries[8..12] == EncodeFixed(4, c)
      ensures entries[HEADER_SIZE..] == old(entries)[HEADER_SIZE..] && entries[0..8] == old(entries)[0..8]
    {
      entries := entries[..8] + EncodeFixed(4, c) + entries[12..];
    }

    method Put(k: Bytes, v: Bytes)
      requires Valid() && |ops| + 1 < 0x1_0000_0000
      modifies this
      ensures Valid() && ops == old(ops) + [Write.Put(k, v)]
    {
      hide EncodeVar;
      AppendOp([1] + EncodeVar(|k|) + k + EncodeVar(|v|) + v, Write.Put(k, v));
    }

    /** One more operation, and one more in the count. */
    method AppendOp(bytes: Bytes, ghost w: Write)
      requires Valid() && |ops| + 1 < 0x1_0000_0000 && bytes == EncodeOp(w)
      modifies this
      ensures Valid() && ops == old(ops) + [w]
    {
      hide EncodeOp;
      hide EncodeFixed;
      hide DecodeFixed;
      hide EncodeOps;
      CountIs();
      var c := Count();
      OpsMore(ops, w);
      Behind(entries, bytes);
      entries := entries + bytes;
      ops := ops + [w];
      SetCount(c + 1);
    }

    method Delete(k: Bytes)
      requires Valid() && |ops| + 1 < 0x1_0000_0000
      modifies this
      ensures Valid() && ops == old(ops) + [Write.Delete(k)]
    {
      hide EncodeVar;
      AppendOp([0] + EncodeVar(|k|) + k, Write.Delete(k));
    }

    /** The bytes that go to the log. */
    method Encode(seqno: nat) returns (bs: Bytes)
      requires Valid()
      ensures bs == EncodeRecord(LogRecord(seqno, ops))
    {
      bs := EncodeFixed(8, seqno) + entries[8..];
      assert entries[8..] == entries[8..12] + entries[12..];
    }

    /** Adds every entry to the memtable under its own sequence number. */
    method InsertIntoMemtable(seqno: nat, mt: MemTable)
      requires Valid() && mt.Valid() && 0 < seqno && seqno + |ops| <= MAX_SEQUENCE_NUMBER
      requires forall e :: e in mt.es ==> e.key.seqno < seqno
      modifies mt.Repr()
      ensures mt.Valid() && EntrySet(mt.es) == old(EntrySet(mt.es)) + EntriesFor(ops, seqno)
    {
      hide EncodeOp;
      hide DecodeOp;
      hide EncodeOps;
      hide EntryFor;
      hide EntriesFor;
      hide EncodeFixed;
      hide MemTable.Valid;
      ghost var done: nat := 0;
      var ix, s := HEADER_SIZE, seqno;
      NoEntries(ops, seqno);
      while ix < |entries|
        invariant HEADER_SIZE <= ix <= |entries| && done <= |ops| && mt.Valid()
        invariant fresh(mt.Repr() - old(mt.Repr()))
        invariant s == seqno + done && entries[ix..] == EncodeOps(ops[done..])
        invariant EntrySet(mt.es) == old(EntrySet(mt.es)) + EntriesFor(ops[..done], seqno)
        invariant forall e :: e in EntrySet(mt.es) ==> e.key.seqno < s
        decreases |entries| - ix
      {
        FrontOp(ops, done, entries[ix..]);
        var r := DecodeOp(entries[ix..]);
        var (w, n) := r.value;
        AddOp(mt, w, s);
        MoreEntries(ops, done, seqno);
        assert entries[ix + n..] == entries[ix..][n..];
        done := done + 1;
        ix, s := ix + n, s + 1;
      }
      NoneLeft(ops[done..]);
      assert ops[..|ops|] == ops;
    }

    static method AddOp(mt: MemTable, w: Write, s: nat)
      requires mt.Valid() && s < MAX_SEQUENCE_NUMBER && forall e :: e in EntrySet(mt.es) ==> e.key.seqno < s
      modifies mt.Repr()
      ensures mt.Valid() && fresh(mt.Repr() - old(mt.Repr()))
      ensures EntrySet(mt.es) == old(EntrySet(mt.es)) + {EntryFor(w, s)} && EntryFor(w, s).key.seqno == s
    {
      assert forall e :: e in mt.es ==> e in EntrySet(mt.es);
      match w {
        case Put(k, v) => mt.Add(s, TypeValue, k, v);
        case Delete(k) => mt.Add(s, TypeDeletion, k, []);
      }
    }
  }

  lemma {:induction false} NoEntries(ops: seq<Write>, seqno: nat)
    ensures EntriesFor(ops[..0], seqno) == {} && ops[0..] == ops
  {
  }

  /** The bytes of the entries still to come start with the next one. */
  lemma {:induction false} FrontOp(ops: seq<Write>, done: nat, bs: Bytes)
    requires done <= |ops| && bs == EncodeOps(ops[done..]) && bs != []
    ensures done < |ops| && DecodeOp(bs) == Some((ops[done], |EncodeOp(ops[done])|))
    ensures |EncodeOp(ops[done])| <= |bs| && bs[|EncodeOp(ops[done])|..] == EncodeOps(ops[done + 1..])
  {
    hide EncodeOp;
    hide DecodeOp;
    var todo := ops[done..];
    EncodeFirst(todo);
    assert todo[1..] == ops[done + 1..];
    DecodeEncodedOp(ops[done], EncodeOps(ops[done + 1..]));
  }

  lemma {:induction false} NoneLeft(todo: seq<Write>)
    requires EncodeOps(todo) == []
    ensures todo == []
  {
  }

  lemma {:induction false} MoreEntries(ops: seq<Write>, k: nat, seqno: nat)
    requires k < |ops|
    ensures EntriesFor(ops[..k + 1], seqno) == EntriesFor(ops[..k], seqno) + {EntryFor(ops[k], seqno + k)}
  {
    var a, b := EntriesFor(ops[..k + 1], seqno), EntriesFor(ops[..k], seqno);
    forall e | e in b ensures e in a {
      var i :| 0 <= i < k && e == EntryFor(ops[..k][i], seqno + i);
      assert ops[..k + 1][i] == ops[i];
    }
    assert ops[..k + 1][k] == ops[k];
    forall e | e in a ensures e in b || e == EntryFor(ops[k], seqno + k) {
      var i :| 0 <= i < k + 1 && e == EntryFor(ops[..k + 1][i], seqno + i);
      assert i < k ==> ops[..k][i] == ops[i];
    }
  }

  lemma {:induction false} Fixed32(x: nat)
    requires x < 0x1_0000_0000
    ensures DecodeFixed(EncodeFixed(4, x)) == x
  {
    assert Limit(0) == 1 && Limit(1) == 0x100 && Limit(2) == 0x1_0000 && Limit(3) == 0x100_0000 && Limit(4) == 0x1_0000_0000;
    FixedRoundTrip(4, x);
  }

  lemma {:induction false} Fixed64(x: nat)
    requires x <= MAX_SEQUENCE_NUMBER
    ensures DecodeFixed(EncodeFixed(8, x)) == x
  {
    assert Limit(0) == 1 && Limit(1) == 0x100 && Limit(2) == 0x1_0000 && Limit(3) == 0x100_0000 && Limit(4) == 0x1_0000_0000;
    assert Limit(5) == 0x100_0000_0000 && Limit(6) == 0x1_0000_0000_0000 && Limit(7) == 0x100_0000_0000_0000;
    assert Limit(8) == 0x1_0000_0000_0000_0000;
    FixedRoundTrip(8, x);
  }

  // ----- through the log -----

  /** A batch in the log: sequence number, count, entries. */
  function EncodeRecord(r: LogRecord): (bs: Bytes)
    ensures |bs| >= HEADER_SIZE
  {
    EncodeFixed(8, r.seqno) + (EncodeFixed(4, |r.batch|) + EncodeOps(r.batch))
  }

  /** A log record as recovery reads it; records shorter than a header are skipped. */
  function DecodeRecord(bs: Bytes): Option<LogRecord> {
    if |bs| < HEADER_SIZE then None else Some(LogRecord(DecodeFixed(bs[0..8]), DecodeOps(bs[HEADER_SIZE..])))
  }

  lemma {:induction false} RecordRoundTrip(r: LogRecord)
    requires r.seqno <= MAX_SEQUENCE_NUMBER && |r.batch| < 0x1_0000_0000
    ensures DecodeRecord(EncodeRecord(r)) == Some(r)
    ensures |EncodeRecord(r)| >= HEADER_SIZE && DecodeFixed(EncodeRecord(r)[8..12]) == |r.batch|
  {
    hide EncodeFixed;
    hide DecodeFixed;
    hide EncodeOps;
    hide DecodeOps;
    ThreeParts(EncodeFixed(8, r.seqno), EncodeFixed(4, |r.batch|), EncodeOps(r.batch));
    Fixed64(r.seqno);
    Fixed32(|r.batch|);
    OpsRoundTrip(r.batch);
  }

  lemma {:induction false} ThreeParts(a: Bytes, b: Bytes, c: Bytes)
    requires |a| == 8 && |b| == 4
    ensures var bs := a + (b + c); |bs| >= 12 && bs[0..8] == a && bs[8..12] == b && bs[12..] == c
  {
  }

  function EncodeRecords(h: seq<LogRecord>): seq<Bytes> {
    if h == [] then [] else [EncodeRecord(h[0])] + EncodeRecords(h[1..])
  }

  function DecodeRecords(rs: seq<Bytes>): seq<LogRecord> {
    if rs == [] then []
    else (match DecodeRecord(rs[0]) case None => [] case Some(r) => [r]) + DecodeRecords(rs[1..])
  }

  ghost predicate Storable(h: seq<LogRecord>) {
    forall i :: 0 <= i < |h| ==> h[i].seqno <= MAX_SEQUENCE_NUMBER && |h[i].batch| < 0x1_0000_0000
  }

  lemma {:induction false} RecordsRoundTrip(h: seq<LogRecord>)
    requires Storable(h)
    ensures DecodeRecords(EncodeRecords(h)) == h && [] !in EncodeRecords(h)
  {
    hide EncodeRecord;
    hide DecodeRecord;
    if h != [] {
      RecordRoundTrip(h[0]);
      RecordsRoundTrip(h[1..]);
    }
  }

  /** What was written as batches to a log file is read from its bytes. */
  lemma {:induction false} LogHoldsBatches(fm: L.Format, h: seq<LogRecord>)
    requires L.FormatOk(fm) && Storable(h)
    ensures DecodeRecords(L.ReadAll(fm, true, L.Source(L.EncodeAll(fm, 0, EncodeRecords(h)), 0, L.Zeros(L.HEADER_SIZE)))) == h
  {
    RecordsRoundTrip(h);
    L.RoundTrip(fm, true, EncodeRecords(h));
  }

  // ----- a log that is written on after a cut -----

  /**
   * The record that a reader gets for one written behind the leftover of another: the leftover's data goes in front,
   * and sequence number and operations are read from there.
   */
  function Merged(part: Bytes, r: LogRecord): LogRecord {
    if part == [] then r else DecodeRecord(part + EncodeRecord(r)).value
  }

  lemma {:induction false} DecodeConcat(a: seq<Bytes>, b: seq<Bytes>)
    ensures DecodeRecords(a + b) == DecodeRecords(a) + DecodeRecords(b)
  {
    hide DecodeRecord;
    if a == [] {
      assert a + b == b;
    } else {
      assert (a + b)[1..] == a[1..] + b;
      DecodeConcat(a[1..], b);
    }
  }

  lemma {:induction false} MergedDecodes(part: Bytes, r: LogRecord)
    requires Storable([r])
    ensures DecodeRecords([part + EncodeRecord(r)]) == [Merged(part, r)]
  {
    hide EncodeRecord;
    RecordRoundTrip([r][0]);
    if part == [] {
      assert part + EncodeRecord(r) == EncodeRecord(r);
    }
    assert [part + EncodeRecord(r)][1..] == [];
  }

  /**
   * A log cut inside a record: recovery reads the batches before the cut. Written on, it reads them, then the first
   * new batch merged with what the cut left of the record, then the other new ones.
   */
  lemma {:induction false} TornLogReads(fm: L.Format, h: seq<LogRecord>, r: LogRecord, k: nat, next: LogRecord, more: seq<LogRecord>)
    requires L.FormatOk(fm) && Storable(h) && Storable([next]) && Storable(more)
    requires k < |L.Chunks(fm, L.OffAfterAll(fm, 0, EncodeRecords(h)), true, EncodeRecord(r))|
    ensures var file := L.CutFile(fm, EncodeRecords(h), EncodeRecord(r), k);
            var part := L.DataOf(L.Chunks(fm, L.OffAfterAll(fm, 0, EncodeRecords(h)), true, EncodeRecord(r))[..k]);
            var added := L.EncodeAll(fm, |file| % fm.blockSize, EncodeRecords([next] + more));
            && part < EncodeRecord(r)
            && DecodeRecords(L.ReadAll(fm, true, L.Source(file, 0, L.Zeros(L.HEADER_SIZE)))) == h
            && DecodeRecords(L.ReadAll(fm, true, L.Source(file + added, 0, L.Zeros(L.HEADER_SIZE)))) == h + [Merged(part, next)] + more
  {
    hide EncodeRecord;
    hide DecodeRecord;
    hide L.ReadAll;
    hide L.Chunks;
    hide L.DataOf;
    hide L.CutFile;
    hide L.EncodeAll;
    hide Merged;
    var rs, bs := EncodeRecords(h), EncodeRecord(r);
    var part := L.DataOf(L.Chunks(fm, L.OffAfterAll(fm, 0, rs), true, bs)[..k]);
    RecordsRoundTrip(h);
    RecordsRoundTrip(more);
    L.CutData(fm, L.OffAfterAll(fm, 0, rs), true, bs, k);
    L.CutAtFragment(fm, true, rs, bs, k);
    assert ([next] + more)[1..] == more;
    assert EncodeRecords([next] + more) == [EncodeRecord(next)] + EncodeRecords(more);
    L.AppendedAfterCut(fm, true, rs, bs, k, EncodeRecord(next), EncodeRecords(more));
    MergedDecodes(part, next);
    DecodeConcat(rs + [part + EncodeRecord(next)], EncodeRecords(more));
    DecodeConcat(rs, [part + EncodeRecord(next)]);
  }
}
