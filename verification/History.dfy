/** Logged batches, and what replaying them does to a store (src/write_batch.rs, src/db_impl.rs). */
module History {
  import opened Bytes
  import opened Entries
  import opened Version
  import opened Store
  import opened Database

  /** A batch as the log holds it: the sequence number of its first entry and its entries. */
  datatype LogRecord = LogRecord(seqno: nat, batch: seq<Write>)

  /** The sequence number of the last entry, or the one before the first if there is none. */
  function End(r: LogRecord): nat {
    if r.seqno == 0 then |r.batch| else r.seqno + |r.batch| - 1
  }

  function Last(h: seq<LogRecord>): nat {
    if h == [] then 0 else End(h[|h| - 1])
  }

  /** Sequence numbers rise from record to record and stay in range. */
  ghost predicate InOrder(h: seq<LogRecord>) {
    forall i :: 0 <= i < |h| ==> Last(h[..i]) < h[i].seqno && End(h[i]) < MAX_SEQUENCE_NUMBER
  }

  /** The map that the logged writes describe. */
  function Described(h: seq<LogRecord>): map<Bytes, Bytes> {
    if h == [] then map[] else AppliedAll(Described(h[..|h| - 1]), h[|h| - 1].batch)
  }

  lemma {:induction false} InOrderInit(h: seq<LogRecord>)
    requires InOrder(h) && h != []
    ensures InOrder(h[..|h| - 1]) && Last(h[..|h| - 1]) <= Last(h)
  {
    var init := h[..|h| - 1];
    forall i | 0 <= i < |init| ensures Last(init[..i]) < init[i].seqno && End(init[i]) < MAX_SEQUENCE_NUMBER {
      assert init[..i] == h[..i] && init[i] == h[i];
    }
  }

  lemma {:induction false} LastInRange(h: seq<LogRecord>)
    requires InOrder(h)
    ensures Last(h) < MAX_SEQUENCE_NUMBER
  {
  }

  lemma {:induction false} InOrderParts(h: seq<LogRecord>, n: nat)
    requires InOrder(h) && n <= |h|
    ensures InOrder(h[..n]) && Last(h[..n]) <= Last(h) < MAX_SEQUENCE_NUMBER
    decreases |h|
  {
    if n < |h| {
      var init := h[..|h| - 1];
      InOrderInit(h);
      InOrderParts(init, n);
      assert init[..n] == h[..n];
    } else {
      assert h[..n] == h;
      LastInRange(h);
    }
  }

  lemma {:induction false} InOrderMore(h: seq<LogRecord>, r: LogRecord)
    requires InOrder(h) && Last(h) < r.seqno && End(r) < MAX_SEQUENCE_NUMBER
    ensures InOrder(h + [r]) && Last(h + [r]) == End(r) && Described(h + [r]) == AppliedAll(Described(h), r.batch)
  {
    var g := h + [r];
    assert g[..|h|] == h;
    assert forall i :: 0 <= i < |h| ==> g[..i] == h[..i];
  }

  // ----- replay -----

  lemma {:induction false} WriteAllHolds(s: State, batch: seq<Write>)
    requires StoreOk(s) && s.lastSeq + |batch| < MAX_SEQUENCE_NUMBER
    ensures var t := WriteAll(s, batch);
            && StoreOk(t)
            && (forall m :: Holds(s, m) ==> Holds(t, AppliedAll(m, batch)))
            && t == s.(mem := t.mem, lastSeq := s.lastSeq + |batch|)
  {
    hide StoreOk;
    hide Holds;
    if batch != [] {
      var init, w := batch[..|batch| - 1], batch[|batch| - 1];
      WriteAllHolds(s, init);
      WriteHolds(WriteAll(s, init), w);
    }
  }

  /** The store after a log record: its entries carry the record's sequence numbers. */
  function WriteRecord(s: State, r: LogRecord): State
    requires r.seqno > 0
  {
    WriteAll(s.(lastSeq := r.seqno - 1), r.batch)
  }

  lemma {:induction false} ReadLater(S: set<Entry>, u: Bytes, p: nat, q: nat)
    requires Distinct(S) && forall e :: e in S ==> e.key.seqno <= p && e.key.seqno <= q
    ensures ReadAt(S, u, p) == ReadAt(S, u, q)
  {
    assert forall e :: Visible(S, u, p, e) <==> Visible(S, u, q, e);
    if e :| IsNewest(S, u, p, e) {
      assert IsNewest(S, u, q, e);
      ReadIs(S, u, p, e);
      ReadIs(S, u, q, e);
    } else {
      assert forall e :: IsNewest(S, u, q, e) ==> IsNewest(S, u, p, e);
    }
  }

  /** The counters may be set to anything above what the store uses. */
  lemma {:induction false} SetCounters(s: State, next: nat, q: nat)
    requires StoreOk(s) && s.nextFile <= next && q < MAX_SEQUENCE_NUMBER
    requires s.lastSeq <= q || forall e :: e in AllEntries(s) ==> e.key.seqno <= q
    ensures StoreOk(s.(nextFile := next, lastSeq := q))
    ensures forall m :: Holds(s, m) ==> Holds(s.(nextFile := next, lastSeq := q), m)
  {
    hide Lt;
    var t := s.(nextFile := next, lastSeq := q);
    assert forall i :: 0 <= i < NUM_LAYERS ==> Layer(t, i) == Layer(s, i);
    SameEntries(s, t);
    assert FilesOk(t.files, next) by {
      forall l | 0 <= l < NUM_LEVELS ensures LevelFilesOk(t.files[l], next) {
        assert LevelFilesOk(s.files[l], s.nextFile);
      }
    }
    assert LayersOk(t) by {
      hide Layer;
      hide FilesOk;
      forall i, j | 0 <= i < j < NUM_LAYERS ensures Newer(Layer(t, i), Layer(t, j)) {
        assert Newer(Layer(s, i), Layer(s, j));
      }
      forall i, e | 0 <= i < NUM_LAYERS && e in Layer(t, i) ensures 0 < e.key.seqno <= q {
        assert e in Layer(s, i);
        assert e in AllEntries(s);
      }
    }
    StoreDistinct(s);
    SameReads(s, t);
  }

  lemma {:induction false} SeqBound(s: State)
    requires StoreOk(s)
    ensures forall e :: e in AllEntries(s) ==> e.key.seqno <= s.lastSeq
  {
    hide Layer;
  }

  lemma {:induction false} SameReads(s: State, t: State)
    requires |s.files| == |t.files| == NUM_LEVELS && AllEntries(t) == AllEntries(s)
    requires Distinct(AllEntries(s))
    requires forall e :: e in AllEntries(s) ==> e.key.seqno <= s.lastSeq && e.key.seqno <= t.lastSeq
    ensures forall m :: Holds(s, m) ==> Holds(t, m)
  {
    hide AllEntries;
    forall k ensures ReadAt(AllEntries(t), k, t.lastSeq) == ReadAt(AllEntries(s), k, s.lastSeq) {
      ReadLater(AllEntries(s), k, t.lastSeq, s.lastSeq);
    }
  }

  /** Replaying a record applies its batch. */
  lemma {:induction false} WriteRecordHolds(s: State, r: LogRecord)
    requires StoreOk(s) && s.lastSeq < r.seqno && End(r) < MAX_SEQUENCE_NUMBER
    ensures var t := WriteRecord(s, r);
            && StoreOk(t)
            && (forall m :: Holds(s, m) ==> Holds(t, AppliedAll(m, r.batch)))
            && t == s.(mem := t.mem, lastSeq := End(r))
  {
    hide StoreOk;
    hide Holds;
    SetCounters(s, s.nextFile, r.seqno - 1);
    WriteAllHolds(s.(lastSeq := r.seqno - 1), r.batch);
    assert s.(nextFile := s.nextFile, lastSeq := r.seqno - 1) == s.(lastSeq := r.seqno - 1);
  }
}
