/** Every step of the durability protocol keeps its invariant: no synced batch is lost and none is invented. */
module CrashSafety {
  import opened Bytes
  import opened Entries
  import opened Version
  import opened VersionBuilder
  import opened Store
  import opened StoreSteps
  import opened WriteSteps
  import opened Sweeps
  import opened Database
  import opened Manifest
  import opened History
  import opened WriteBatches
  import opened Durability

  // ----- serving -----

  lemma {:induction false} ServingLater(mem: seq<Entry>, imm: seq<Entry>, files: seq<seq<File>>, next: nat, next': nat, h: seq<LogRecord>)
    requires Serving(mem, imm, files, next, h) && next <= next' && InOrder(h)
    ensures Serving(mem, imm, files, next', h)
  {
    hide StoreOk;
    hide Holds;
    InOrderParts(h, |h|);
    SetCounters(State(mem, imm, files, next, Last(h)), next', Last(h));
  }

  lemma {:induction false} PlusNothing(files: seq<seq<File>>, next: nat)
    requires FilesOk(files, next)
    ensures Plus(files, []) == files
  {
    assert files[0] + [] == files[0];
    SortOfSorted(files[0]);
  }

  lemma {:induction false} ServingFiles(mem: seq<Entry>, imm: seq<Entry>, files: seq<seq<File>>, next: nat, h: seq<LogRecord>)
    requires Serving(mem, imm, files, next, h)
    ensures FilesOk(files, next)
  {
    hide Holds;
  }

  // ----- crash -----

  /** Cutting the last log shortens what the logs hold by as much. */
  lemma {:induction false} TailCut(logs: map<nat, seq<LogRecord>>, logNum: nat, top: nat, lost: nat)
    requires logNum < top && top - 1 in logs && lost <= |logs[top - 1]|
    ensures var logs' := logs[top - 1 := logs[top - 1][..|logs[top - 1]| - lost]];
            var tail := LogsFrom(logs, logNum, top);
            lost <= |tail| && LogsFrom(logs', logNum, top) == tail[..|tail| - lost]
  {
    var logs' := logs[top - 1 := logs[top - 1][..|logs[top - 1]| - lost]];
    LogsAgree(logs, logs', logNum, top - 1);
  }

  lemma {:induction false} PrefixCut<T>(h: seq<T>, tail: seq<T>, keep: nat)
    requires |tail| <= |h| && h[|h| - |tail|..] == tail && |h| - |tail| <= keep <= |h|
    ensures h[..keep][|h| - |tail|..] == tail[..|tail| - (|h| - keep)]
    ensures h[..keep][..|h| - |tail|] == h[..|h| - |tail|]
  {
  }

  lemma {:induction false} CrashView(s: Sys, s': Sys, keep: nat, w: View, recs: seq<Record>)
    requires LogsOk(s) && ViewOk(s, w, recs) && CrashStep(s, s', keep, false) && keep < |s.h|
    ensures ViewOk(s', w, recs)
  {
    hide Serving;
    hide StandsFor;
    hide TablesHold;
    hide InOrder;
    hide LogsFrom;
    hide Last;
    var logs, lost := s.disk.logs, |s.h| - keep;
    var last := logs[s.top - 1];
    assert w.logNum < s.top && lost <= |last|;
    TailCut(logs, w.logNum, s.top, lost);
    assert s'.disk.logs == logs[s.top - 1 := last[..|last| - lost]];
    var tail := Tail(s.disk, s.top, w.logNum);
    PrefixCut(s.h, tail, keep);
    assert Tail(s'.disk, s'.top, w.logNum) == tail[..|tail| - lost];
  }

  lemma {:induction false} CutKeeps(s: Sys, s': Sys, keep: nat)
    requires DiskOk(s) && CrashStep(s, s', keep, false)
    ensures DiskOk(s') && s'.top == s.top && s'.synced == |s'.h|
  {
    hide Complete;
    hide ViewOf;
    hide InOrder;
    hide Durable;
    hide StandsFor;
    InOrderParts(s.h, keep);
    if keep < |s.h| {
      CrashView(s, s', keep, Cur(s), s.disk.manifests[s.disk.current]);
      hide ViewOk;
    } else {
      assert s'.disk == s.disk && s'.h == s.h && s'.top == s.top;
    }
  }

  /** A crash, also one between the creation of a new log and the writing out of the old one. */
  lemma {:induction false} CrashKeeps(s: Sys, s': Sys, keep: nat, creates: bool)
    requires DiskOk(s) && (s.proc.Up? ==> UpOk(s)) && CrashStep(s, s', keep, creates)
    ensures DiskOk(s')
  {
    hide DiskOk;
    hide IdleOk;
    hide Ready;
    hide StageOk;
    var t := Cut(s, keep);
    hide Cut;
    CutKeeps(s, t, keep);
    if creates {
      NewLogDisk(t, s', s.proc.v.next);
    }
  }

  // ----- recovery -----

  lemma {:induction false} TailFirst(logs: map<nat, seq<LogRecord>>, lo: nat, top: nat)
    requires lo < top || (forall n :: n in logs ==> n < lo)
    ensures LogsFrom(logs, lo, top) == RecsAt(logs, lo) + LogsFrom(logs, lo + 1, top)
  {
    if lo < top {
      LogsSplit(logs, lo, lo + 1, top);
      assert LogsFrom(logs, lo, lo + 1) == RecsAt(logs, lo);
    }
  }

  lemma {:induction false} OpenKeeps(s: Sys, s': Sys, reuse: bool)
    requires DiskOk(s) && OpenStep(s, s', reuse)
    ensures s'.proc.Recovering? && DiskOk(s') && RecoveringOk(s')
  {
    hide DiskOk;
    hide Serving;
    hide InOrder;
    hide LogsFrom;
    hide FilesOk;
    hide Plus;
    hide ReadFiles;
    hide ReadMeta;
    hide Last;
    var w, p := Cur(s), s'.proc;
    SameDisk(s, s');
    var j := CurFacts(s);
    TailFirst(s.disk.logs, w.logNum, s.top);
    PlusNothing(w.files, w.next);
    ServingLater([], [], w.files, w.next, p.v.next, s.h[..j]);
    assert Unread(s') == |s.h| - j;
    assert RecsAt(s.disk.logs, p.pos)[0..] == RecsAt(s.disk.logs, p.pos);
    assert s.h[j..j] == [];
  }

  /** What the current manifest and the logs give, j batches in tables and the rest in logs. */
  lemma {:induction false} CurFacts(s: Sys) returns (j: nat)
    requires DiskOk(s)
    ensures var w := Cur(s);
            && j <= |s.h| && s.h[j..] == LogsFrom(s.disk.logs, w.logNum, s.top)
            && Serving([], [], w.files, w.next, s.h[..j]) && FilesOk(w.files, w.next) && InOrder(s.h[..j])
            && s.disk.current < w.next && w.logNum < w.next && w.logNum <= s.top
            && (w.logNum < s.top || forall n :: n in s.disk.logs ==> n < w.logNum)
            && Last(s.h[..j]) <= w.lastSeq < MAX_SEQUENCE_NUMBER
  {
    hide ViewOf;
    hide Complete;
    hide StandsFor;
    hide TablesHold;
    hide InOrder;
    hide LogsFrom;
    hide Serving;
    hide FilesOk;
    hide Last;
    var w := Cur(s);
    j := |s.h| - |Tail(s.disk, s.top, w.logNum)|;
    InOrderParts(s.h, j);
    ServingFiles([], [], w.files, w.next, s.h[..j]);
  }

  /** The disk part of the invariant looks at the disk and the history only. */
  lemma {:induction false} SameDisk(s: Sys, s': Sys)
    requires DiskOk(s) && s' == s.(proc := s'.proc)
    ensures DiskOk(s') && Cur(s') == Cur(s)
  {
    hide ViewOf;
    hide Complete;
    hide StandsFor;
    hide Durable;
    hide InOrder;
  }

  /** Writing a table under a fresh number disturbs no live table. */
  lemma {:induction false} FreshTable(s: Sys, s': Sys, f: File)
    requires DiskOk(s) && s' == s.(proc := s'.proc, disk := s.disk.(tables := s.disk.tables[f.num := f.entries]))
    requires Cur(s).next <= f.num
    ensures DiskOk(s') && Cur(s') == Cur(s)
  {
    hide ViewOf;
    hide Complete;
    hide StandsFor;
    hide InOrder;
    hide Serving;
    hide LogsFrom;
    var w := Cur(s);
    ServingFiles([], [], w.files, w.next, s.h[..|s.h| - |Tail(s.disk, s.top, w.logNum)|]);
    TablesKept(s.disk.tables, w.files, w.next, {}, f);
    hide TablesHold;
    hide FilesOk;
  }

  lemma {:induction false} TablesKept(tables: map<nat, seq<Entry>>, files: seq<seq<File>>, next: nat, except: set<nat>, f: File)
    requires FilesOk(files, next) && next <= f.num && TablesHold(tables, files, except)
    ensures TablesHold(tables[f.num := f.entries], files, except)
  {
    forall l, g: File | 0 <= l < NUM_LEVELS && g in files[l] && g.num !in except
      ensures g.num != f.num && g.num in tables && tables[g.num] == g.entries
    {
      assert LevelFilesOk(files[l], next);
    }
  }

  /** A record that follows the history extends it. */
  lemma {:induction false} ServingRecord(mem: seq<Entry>, files: seq<seq<File>>, next: nat, h: seq<LogRecord>, r: LogRecord)
    requires Serving(mem, [], files, next, h) && InOrder(h) && Last(h) < r.seqno && End(r) < MAX_SEQUENCE_NUMBER
    ensures Serving(WriteRecord(State(mem, [], files, next, 0), r).mem, [], files, next, h + [r])
  {
    hide StoreOk;
    hide Holds;
    InOrderMore(h, r);
    var s := State(mem, [], files, next, Last(h));
    WriteRecordHolds(s, r);
    assert s.(lastSeq := r.seqno - 1) == State(mem, [], files, next, 0).(lastSeq := r.seqno - 1);
    assert WriteRecord(s, r) == State(WriteRecord(s, r).mem, [], files, next, Last(h + [r]));
  }

  lemma {:induction false} ReadKeeps(s: Sys, s': Sys)
    requires DiskOk(s) && s.proc.Recovering? && RecoveringOk(s) && ReadStep(s, s')
    ensures s'.proc.Recovering? && DiskOk(s') && RecoveringOk(s')
  {
    hide DiskOk;
    hide Serving;
    hide LogsFrom;
    hide WriteRecord;
    hide Plus;
    hide InOrder;
    var p, j := s.proc, |s.h| - Unread(s);
    var recs := RecsAt(s.disk.logs, p.pos);
    SameDisk(s, s');
    Ordered(s);
    NextRecord(s.h, j, recs, p.ix, LogsFrom(s.disk.logs, p.pos + 1, s.top));
    InOrderParts(s.h, j);
    InOrderAt(s.h, j);
    ServingRecord(p.mem, Plus(p.v.files, p.added), p.v.next, s.h[..j], recs[p.ix]);
    assert Unread(s') == Unread(s) - 1;
  }

  lemma {:induction false} Ordered(s: Sys)
    requires DiskOk(s)
    ensures InOrder(s.h)
  {
    hide ViewOk;
    hide Complete;
  }

  lemma {:induction false} InOrderAt(h: seq<LogRecord>, j: nat)
    requires InOrder(h) && j < |h|
    ensures Last(h[..j]) < h[j].seqno && End(h[j]) < MAX_SEQUENCE_NUMBER && Last(h[..j + 1]) == End(h[j])
  {
  }

  lemma {:induction false} NextRecord(h: seq<LogRecord>, j: nat, recs: seq<LogRecord>, ix: nat, more: seq<LogRecord>)
    requires ix < |recs| && ix <= j <= |h| && h[j..] == recs[ix..] + more && h[j - ix..j] == recs[..ix]
    ensures j < |h| && h[j] == recs[ix] && h[..j + 1] == h[..j] + [recs[ix]]
    ensures h[j + 1..] == recs[ix + 1..] + more && h[j - ix..j + 1] == recs[..ix + 1]
  {
    assert h[j..][0] == recs[ix];
    assert h[j + 1..] == h[j..][1..] == recs[ix..][1..] + more;
  }

  lemma {:induction false} ServingRotate(mem: seq<Entry>, files: seq<seq<File>>, next: nat, h: seq<LogRecord>)
    requires Serving(mem, [], files, next, h)
    ensures Serving([], mem, files, next, h)
  {
    hide StoreOk;
    hide Holds;
    var s := State(mem, [], files, next, Last(h));
    RotateStep(s);
    assert s.(mem := [], imm := s.mem) == State([], mem, files, next, Last(h));
  }

  lemma {:induction false} ServingFlush(mem: seq<Entry>, imm: seq<Entry>, files: seq<seq<File>>, next: nat, h: seq<LogRecord>,
                                        level: nat, size: nat)
    requires Serving(mem, imm, files, next, h) && imm != []
    requires level < NUM_LEVELS && KeepsOrder(files, level, NewTable(next, size, imm))
    ensures var f := NewTable(next, size, imm);
            && Serving(mem, [], files[level := SortFiles(files[level] + [f])], next + 1, h)
            && LiveFiles(files, FileEdit({}, [(level, f)])) == files[level := SortFiles(files[level] + [f])]
  {
    hide StoreOk;
    hide Holds;
    hide SortFiles;
    hide LiveStep;
    hide AllEntries;
    var s, f := State(mem, imm, files, next, Last(h)), NewTable(next, size, imm);
    FlushStep(s, level, f);
    assert Flushed(s, level, f) == State(mem, [], files[level := SortFiles(files[level] + [f])], next + 1, Last(h));
  }

  lemma {:induction false} PlusMore(files: seq<seq<File>>, added: seq<File>, f: File)
    requires |files| == NUM_LEVELS
    ensures Plus(files, added)[0 := SortFiles(Plus(files, added)[0] + [f])] == Plus(files, added + [f])
  {
    SortPrefix(files[0] + added, [f]);
    assert files[0] + added + [f] == files[0] + (added + [f]);
    hide SortFiles;
  }

  lemma {:induction false} DumpKeeps(s: Sys, s': Sys, size: nat)
    requires DiskOk(s) && s.proc.Recovering? && RecoveringOk(s) && DumpStep(s, s', size)
    ensures s'.proc.Recovering? && DiskOk(s') && RecoveringOk(s')
  {
    hide DiskOk;
    hide Serving;
    hide LogsFrom;
    hide Plus;
    var p, j := s.proc, |s.h| - Unread(s);
    var f := NewTable(p.v.next, size, p.mem);
    FreshTable(s, s', f);
    ServingRotate(p.mem, Plus(p.v.files, p.added), p.v.next, s.h[..j]);
    ServingFlush([], p.mem, Plus(p.v.files, p.added), p.v.next, s.h[..j], 0, size);
    PlusMore(p.v.files, p.added, f);
    assert Unread(s') == Unread(s);
  }

  lemma {:induction false} NextLogKeeps(s: Sys, s': Sys)
    requires DiskOk(s) && s.proc.Recovering? && RecoveringOk(s) && NextLogStep(s, s')
    ensures s'.proc.Recovering? && DiskOk(s') && RecoveringOk(s')
  {
    hide DiskOk;
    hide Serving;
    hide LogsFrom;
    hide Plus;
    hide InOrder;
    var p, j := s.proc, |s.h| - Unread(s);
    SameDisk(s, s');
    Ordered(s);
    InOrderParts(s.h, j);
    ServingLater([], [], Plus(p.v.files, p.added), p.v.next, s'.proc.v.next, s.h[..j]);
    NextTail(s, p.pos + 1);
    var recs := RecsAt(s.disk.logs, p.pos);
    assert recs[p.ix..] == [];
    assert s.h[j..j] == [];
    var recs' := RecsAt(s.disk.logs, p.pos + 1);
    assert recs'[0..] == recs';
    assert Unread(s') == Unread(s);
  }

  lemma {:induction false} NextTail(s: Sys, n: nat)
    requires DiskOk(s) && n <= s.top
    ensures LogsFrom(s.disk.logs, n, s.top) == RecsAt(s.disk.logs, n) + LogsFrom(s.disk.logs, n + 1, s.top)
  {
    hide ViewOk;
    hide Complete;
    hide InOrder;
    TailFirst(s.disk.logs, n, s.top);
  }

  /** A new, empty, highest log changes nothing that the logs hold. */
  lemma {:induction false} NewLogTail(logs: map<nat, seq<LogRecord>>, lo: nat, top: nat, n: nat)
    requires lo <= top <= n && forall m :: m in logs ==> m < top
    ensures LogsFrom(logs[n := []], lo, n + 1) == LogsFrom(logs, lo, top)
    ensures LogsFrom(logs[n := []], n, n + 1) == []
  {
    var logs' := logs[n := []];
    LogsSplit(logs', lo, top, n);
    LogsAgree(logs, logs', lo, top);
    LogsNone(logs', top, n);
    assert LogsFrom(logs', n, n) == [];
  }

  lemma {:induction false} NewLogDisk(s: Sys, s': Sys, n: nat)
    requires DiskOk(s) && s.top <= n
    requires s' == s.(proc := s'.proc, disk := s.disk.(logs := s.disk.logs[n := []]), top := n + 1, synced := |s.h|)
    ensures DiskOk(s') && Cur(s') == Cur(s) && Cur(s).logNum <= n
    ensures Tail(s'.disk, s'.top, Cur(s).logNum) == Tail(s.disk, s.top, Cur(s).logNum)
    ensures Tail(s'.disk, s'.top, n) == []
  {
    hide ViewOf;
    hide Complete;
    hide StandsFor;
    hide InOrder;
    hide Serving;
    hide LogsFrom;
    hide TablesHold;
    NewLogTail(s.disk.logs, Cur(s).logNum, s.top, n);
  }

  function RecoveryEdit(added: seq<File>): FileEdit {
    FileEdit({}, seq(|added|, i requires 0 <= i < |added| => (0, added[i])))
  }

  lemma {:induction false} RecoveryEditLevel(files: seq<seq<File>>, next: nat, added: seq<File>, l: nat)
    requires FilesOk(files, next) && l < NUM_LEVELS
    ensures AddedAt(RecoveryEdit(added).newFiles, l) == if l == 0 then added else []
    ensures LiveStep(files[l], RecoveryEdit(added), l) == Plus(files, added)[l]
  {
    hide SortFiles;
    hide Keep;
    hide FilesOk;
    var e := RecoveryEdit(added);
    LevelsSorted(State([], [], files, next, 0), l);
    AddedAtUniform(e.newFiles, added, 0, l);
    assert NumsAt(e.deleted, l) == {};
    var news: seq<File> := if l == 0 then added else [];
    assert ApplyLevel(EmptyLevel, e, l) == LevelState({}, news) by {
      assert [] + news == news && ({} + {}) - Nums(news) == {};
    }
    SaveInstalls(files[l], {}, news);
    KeepNone(files[l], {});
  }

  /** Only fresh numbers are added. */
  ghost predicate AddsFresh(e: FileEdit, bound: nat) {
    forall l, g: File :: 0 <= l < NUM_LEVELS && g in AddedAt(e.newFiles, l) ==> bound <= g.num
  }

  lemma {:induction false} FreshUnadded(recs: seq<Record>, files: seq<seq<File>>, bound: nat, e: FileEdit)
    requires StandsFor(recs, files, bound) && AddsFresh(e, bound)
    ensures Unadded(recs, e)
  {
    hide Added;
    hide ReadFiles;
    hide NotBelow;
  }

  lemma {:induction false} CurFiles(s: Sys)
    requires DiskOk(s)
    ensures FilesOk(Cur(s).files, Cur(s).next) && StandsFor(s.disk.manifests[s.disk.current], Cur(s).files, Cur(s).next)
    ensures s.disk.current < Cur(s).next
  {
    hide ViewOf;
    hide Complete;
    hide StandsFor;
    hide InOrder;
    hide LogsFrom;
    hide TablesHold;
    hide Serving;
    hide FilesOk;
    var w := Cur(s);
    ServingFiles([], [], w.files, w.next, s.h[..|s.h| - |Tail(s.disk, s.top, w.logNum)|]);
  }

  lemma {:induction false} FreshFits(s: Sys, e: FileEdit)
    requires DiskOk(s) && AddsFresh(e, Cur(s).next)
    ensures Unadded(s.disk.manifests[s.disk.current], e) && Unadded([SnapshotRecord(Cur(s).files)], e)
  {
    hide DiskOk;
    hide StandsFor;
    hide FilesOk;
    hide Unadded;
    hide AddsFresh;
    var w := Cur(s);
    CurFiles(s);
    SnapshotStandsFor(w.files, w.next);
    FreshUnadded(s.disk.manifests[s.disk.current], w.files, w.next, e);
    FreshUnadded([SnapshotRecord(w.files)], w.files, w.next, e);
  }

  /** The recovered tables make an edit that fits the manifest. */
  lemma {:induction false} RecoveryFits(s: Sys, added: seq<File>, hi: nat)
    requires DiskOk(s) && AddedOk(s, added, Cur(s).next, hi)
    ensures FilesOk(Cur(s).files, Cur(s).next)
    ensures var e := RecoveryEdit(added);
            && LiveFiles(Cur(s).files, e) == Plus(Cur(s).files, added)
            && AddsOnce(e) && AddsBelow(e, hi)
            && Unadded(s.disk.manifests[s.disk.current], e) && Unadded([SnapshotRecord(Cur(s).files)], e)
  {
    hide DiskOk;
    hide Plus;
    hide LiveStep;
    hide AddedAt;
    hide Unadded;
    hide FilesOk;
    hide RecoveryEdit;
    CurFiles(s);
    hide StandsFor;
    var w, e := Cur(s), RecoveryEdit(added);
    forall l | 0 <= l < NUM_LEVELS
      ensures AddedAt(e.newFiles, l) == if l == 0 then added else []
      ensures LiveStep(w.files[l], e, l) == Plus(w.files, added)[l]
    {
      RecoveryEditLevel(w.files, w.next, added, l);
    }
    FreshFits(s, e);
  }

  lemma {:induction false} PlusTables(s: Sys, added: seq<File>, hi: nat)
    requires DiskOk(s) && AddedOk(s, added, Cur(s).next, hi) && |Cur(s).files| == NUM_LEVELS
    ensures TablesHold(s.disk.tables, Plus(Cur(s).files, added), {})
  {
    CurTables(s);
    hide DiskOk;
    SortMembers(Cur(s).files[0] + added);
    hide SortFiles;
  }

  lemma {:induction false} CurTables(s: Sys)
    requires DiskOk(s) && |Cur(s).files| == NUM_LEVELS
    ensures TablesHold(s.disk.tables, Cur(s).files, {})
  {
    hide ViewOf;
    hide Complete;
    hide StandsFor;
    hide InOrder;
    hide LogsFrom;
    hide TablesHold;
    hide Serving;
  }

  /** What recovery has gathered when it opens a log. */
  lemma {:induction false} OpenedOk(s: Sys, p: Proc, v: VSet, log: nat)
    requires DiskOk(s) && p.Recovering? && s.proc == Opened(p, v, log)
    requires VersionRead(s, v) && |v.files| == NUM_LEVELS && v.logNum <= log < v.next && s.top == log + 1
    requires AddedOk(s, p.added, Cur(s).next, v.next)
    requires Serving(p.mem, [], Plus(v.files, p.added), v.next, s.h)
    requires Durable(s.disk, s.top, Plus(v.files, p.added), v.next, log, s.h, {})
    requires Last(s.h) <= Max(v.lastSeq, p.maxSeq) < MAX_SEQUENCE_NUMBER
    ensures UpOk(s)
  {
    hide DiskOk;
    hide Serving;
    hide Durable;
    hide Plus;
    hide Unadded;
    hide AddsOnce;
    hide AddsBelow;
    hide LiveFiles;
    RecoveryFits(s, p.added, v.next);
    PlusNothing(Cur(s).files, Cur(s).next);
    hide FilesOk;
    var rec := Record(RecoveryEdit(p.added), Some(log), Some(v.next), Some(Max(v.lastSeq, p.maxSeq)));
    if v.open && p.added == [] {
      assert IdleOk(s);
    } else {
      assert s.proc.pc == Logging(rec, Begin);
      assert Ready(s, rec, {});
    }
  }

  /** Where recovery stands when all logs but the last are read, and that one too. */
  lemma {:induction false} ReuseLogKeeps(s: Sys, s': Sys)
    requires DiskOk(s) && s.proc.Recovering? && RecoveringOk(s) && ReuseLogStep(s, s')
    ensures s'.proc.Up? && DiskOk(s') && UpOk(s')
  {
    hide LogsFrom;
    hide DiskOk;
    hide Serving;
    hide Plus;
    hide InOrder;
    hide TablesHold;
    var p, v := s.proc, MarkUsed(s.proc.v, s.proc.pos);
    SameDisk(s, s');
    Ordered(s);
    LastTail(s.disk.logs, p.pos);
    assert Unread(s) == 0 && s.h[..|s.h|] == s.h;
    InOrderParts(s.h, |s.h| - p.ix);
    ServingLater(p.mem, [], Plus(p.v.files, p.added), p.v.next, v.next, s.h);
    ServingLater([], [], Plus(p.v.files, p.added), p.v.next, v.next, s.h[..|s.h| - p.ix]);
    PlusTables(s', p.added, v.next);
    LastSuffix(s.h, RecsAt(s.disk.logs, p.pos), p.ix);
    OpenedOk(s', p, v, p.pos);
  }

  lemma {:induction false} LastTail(logs: map<nat, seq<LogRecord>>, n: nat)
    ensures LogsFrom(logs, n + 1, n + 1) == [] && LogsFrom(logs, n, n + 1) == RecsAt(logs, n)
  {
    assert LogsFrom(logs, n, n) == [];
  }

  lemma {:induction false} LastSuffix(h: seq<LogRecord>, recs: seq<LogRecord>, ix: nat)
    requires ix == |recs| <= |h| && h[|h| - ix..|h|] == recs[..ix]
    ensures h[|h| - |recs|..] == recs
  {
    assert recs[..ix] == recs;
    assert h[|h| - ix..|h|] == h[|h| - ix..];
  }

  lemma {:induction false} NewLogKeeps(s: Sys, s': Sys)
    requires DiskOk(s) && s.proc.Recovering? && RecoveringOk(s) && NewLogStep(s, s')
    ensures s'.proc.Up? && DiskOk(s') && UpOk(s')
  {
    hide Serving;
    hide Plus;
    hide InOrder;
    hide TablesHold;
    hide ViewOk;
    hide Complete;
    hide ViewOf;
    var p := s.proc;
    var n, v := p.v.next, p.v.(next := p.v.next + 1);
    assert s.top <= n;
    NewLogDisk(s, s', n);
    Ordered(s);
    assert LogsFrom(s.disk.logs, p.pos + 1, s.top) == [];
    hide LogsFrom;
    hide DiskOk;
    assert RecsAt(s.disk.logs, p.pos) == [];
    assert Unread(s) == 0 && s.h[..|s.h|] == s.h;
    ServingLater([], [], Plus(p.v.files, p.added), p.v.next, v.next, s.h);
    PlusTables(s', p.added, v.next);
    assert s.h[|s.h|..] == [];
    OpenedOk(s', p, v, n);
  }

  // ----- running -----

  lemma {:induction false} TailWrite(logs: map<nat, seq<LogRecord>>, logNum: nat, top: nat, r: LogRecord)
    requires logNum < top && top - 1 in logs
    ensures LogsFrom(logs[top - 1 := logs[top - 1] + [r]], logNum, top) == LogsFrom(logs, logNum, top) + [r]
  {
    LogsAgree(logs, logs[top - 1 := logs[top - 1] + [r]], logNum, top - 1);
  }

  lemma {:induction false} SuffixMore<T>(h: seq<T>, tail: seq<T>, r: T)
    requires |tail| <= |h| && h[|h| - |tail|..] == tail
    ensures (h + [r])[|h| - |tail|..] == tail + [r] && (h + [r])[..|h| - |tail|] == h[..|h| - |tail|]
  {
  }

  lemma {:induction false} WriteDisk(s: Sys, s': Sys, r: LogRecord)
    requires DiskOk(s) && s.top > 0 && Last(s.h) < r.seqno && End(r) < MAX_SEQUENCE_NUMBER
    requires s.top - 1 in s.disk.logs
    requires s' == s.(proc := s'.proc, h := s.h + [r],
                      disk := s.disk.(logs := s.disk.logs[s.top - 1 := s.disk.logs[s.top - 1] + [r]]))
    ensures DiskOk(s') && Cur(s') == Cur(s)
  {
    hide ViewOf;
    hide Complete;
    hide StandsFor;
    hide InOrder;
    hide Serving;
    hide LogsFrom;
    hide TablesHold;
    hide Last;
    var w := Cur(s);
    InOrderMore(s.h, r);
    TailWrite(s.disk.logs, w.logNum, s.top, r);
    SuffixMore(s.h, Tail(s.disk, s.top, w.logNum), r);
    assert Tail(s'.disk, s'.top, w.logNum) == Tail(s.disk, s.top, w.logNum) + [r];
    assert ViewOk(s', w, s.disk.manifests[s.disk.current]);
  }

  lemma {:induction false} WriteKeeps(s: Sys, s': Sys, batch: seq<Write>)
    requires DiskOk(s) && s.proc.Up? && UpOk(s) && WriteStep(s, s', batch) && ReadsBack(s, batch)
    ensures s'.proc.Up? && DiskOk(s') && UpOk(s')
  {
    hide DiskOk;
    hide Serving;
    hide WriteRecord;
    hide InOrder;
    var p := s.proc;
    var r := LogRecord(p.v.lastSeq + 1, batch);
    WriteDisk(s, s', r);
    Ordered(s);
    InOrderMore(s.h, r);
    ServingRecord(p.mem, p.v.files, p.v.next, s.h, r);
  }

  lemma {:induction false} SyncKeeps(s: Sys, s': Sys)
    requires DiskOk(s) && s.proc.Up? && UpOk(s) && SyncStep(s, s')
    ensures s'.proc.Up? && DiskOk(s') && UpOk(s')
  {
    hide StandsFor;
    hide Durable;
    hide InOrder;
    hide ReadMeta;
    hide ReadFiles;
    hide Serving;
    hide Unadded;
    hide AddsOnce;
    hide AddsBelow;
    assert DiskOk(s') && Cur(s') == Cur(s);
    hide DiskOk;
    assert s'.proc == s.proc && s'.disk == s.disk;
  }

  lemma {:induction false} RotateKeeps(s: Sys, s': Sys)
    requires DiskOk(s) && s.proc.Up? && UpOk(s) && RotateStepOf(s, s')
    ensures s'.proc.Up? && DiskOk(s') && UpOk(s')
  {
    hide DiskOk;
    hide Serving;
    hide InOrder;
    hide LogsFrom;
    var p := s.proc;
    NewLogDisk(s, s', p.v.next);
    Ordered(s);
    ServingRotate(p.mem, p.v.files, p.v.next, s.h);
    ServingLater([], p.mem, p.v.files, p.v.next, p.v.next + 1, s.h);
    assert s.h[..|s.h|] == s.h && s.h[|s.h|..] == [];
  }

  lemma {:induction false} OneFile(level: nat, f: File, l: nat)
    ensures AddedAt([(level, f)], l) == if l == level then [f] else []
  {
    AddedAtUniform([(level, f)], [f], level, l);
  }

  ghost predicate AddsAmong(e: FileEdit, outs: seq<File>) {
    forall l, g: File :: 0 <= l < NUM_LEVELS && g in AddedAt(e.newFiles, l) ==> g in outs
  }

  /** Adding fresh tables leaves only those to be written. */
  lemma {:induction false} TodoFits(s: Sys, e: FileEdit, outs: seq<File>)
    requires DiskOk(s) && |Cur(s).files| == NUM_LEVELS && AddsAmong(e, outs) && NumsDistinct(outs)
    requires forall o :: o in outs ==> Cur(s).next <= o.num
    ensures TodoOk(s, outs, LiveFiles(Cur(s).files, e))
    ensures TablesHold(s.disk.tables, LiveFiles(Cur(s).files, e), Nums(outs))
  {
    hide DiskOk;
    hide StandsFor;
    hide AddedAt;
    hide LiveStep;
    CurFiles(s);
    CurTables(s);
    var files, files' := Cur(s).files, LiveFiles(Cur(s).files, e);
    forall l, g: File | 0 <= l < NUM_LEVELS && g in files'[l] ensures g in outs || (g.num < Cur(s).next && g in files[l]) {
      LiveMembers(files[l], e, l);
      assert LevelFilesOk(files[l], Cur(s).next);
    }
    hide FilesOk;
    forall f, g | f in outs && g in outs && f.num == g.num ensures f == g {
      var i :| 0 <= i < |outs| && outs[i] == f;
      var j :| 0 <= j < |outs| && outs[j] == g;
      assert !(i < j) && !(j < i);
    }
  }

  lemma {:induction false} FlushFits(s: Sys, level: nat, f: File, next: nat)
    requires DiskOk(s) && level < NUM_LEVELS && Cur(s).next <= f.num < next
    ensures var e := FileEdit({}, [(level, f)]);
            && AddsOnce(e) && AddsBelow(e, next) && AddsAmong(e, [f])
            && Unadded(s.disk.manifests[s.disk.current], e) && Unadded([SnapshotRecord(Cur(s).files)], e)
  {
    hide DiskOk;
    hide Unadded;
    hide AddedAt;
    var e := FileEdit({}, [(level, f)]);
    forall l | 0 <= l < NUM_LEVELS ensures AddedAt(e.newFiles, l) == if l == level then [f] else [] {
      OneFile(level, f, l);
    }
    FreshFits(s, e);
  }

  lemma {:induction false} FlushKeeps(s: Sys, s': Sys, level: nat, size: nat)
    requires DiskOk(s) && s.proc.Up? && UpOk(s) && FlushStart(s, s', level, size) && FlushInOrder(s, level, size)
    ensures s'.proc.Up? && DiskOk(s') && UpOk(s')
  {
    hide LogsFrom;
    hide DiskOk;
    hide Serving;
    hide SortFiles;
    hide LiveFiles;
    hide TablesHold;
    hide Unadded;
    hide AddsOnce;
    hide AddsBelow;
    hide KeepsOrder;
    hide TodoOk;
    hide AddsAmong;
    hide Durable;
    var p := s.proc;
    var f := NewTable(p.v.next, size, p.imm);
    SameDisk(s, s');
    FlushFits(s', level, f, p.v.next + 1);
    TodoFits(s', FileEdit({}, [(level, f)]), [f]);
    ServingFlush(p.mem, p.imm, p.v.files, p.v.next, s.h, level, size);
    FlushDurable(s, s', level, size);
    assert Ready(s', s'.proc.pc.rec, Nums([f]));
  }

  /** With the table, the version needs only the logs from the new one on. */
  lemma {:induction false} FlushDurable(s: Sys, s': Sys, level: nat, size: nat)
    requires DiskOk(s) && s.proc.Up? && UpOk(s) && FlushStart(s, s', level, size) && FlushInOrder(s, level, size)
    requires var e := FileEdit({}, [(level, NewTable(s.proc.v.next, size, s.proc.imm))]);
             TablesHold(s.disk.tables, LiveFiles(s.proc.v.files, e), Nums([NewTable(s.proc.v.next, size, s.proc.imm)]))
    ensures var e := FileEdit({}, [(level, NewTable(s.proc.v.next, size, s.proc.imm))]);
            Durable(s'.disk, s'.top, LiveFiles(s.proc.v.files, e), s.proc.v.next + 1, s.proc.log, s'.h,
                    Nums([NewTable(s.proc.v.next, size, s.proc.imm)]))
  {
    hide LogsFrom;
    hide DiskOk;
    hide Serving;
    hide SortFiles;
    hide LiveFiles;
    hide TablesHold;
    hide KeepsOrder;
    var p := s.proc;
    var k := |s.h| - |s.disk.logs[p.log]|;
    ServingFlush([], p.imm, p.v.files, p.v.next, s.h[..k], level, size);
    LastTail(s.disk.logs, p.log);
  }

  /** A flush that does not keep the order makes a version that is not in order: no edit of it reads as the batches. */
  lemma {:induction false} LostOrder(s: Sys, s': Sys, level: nat, size: nat)
    requires DiskOk(s) && s.proc.Up? && UpOk(s) && FlushStart(s, s', level, size) && !FlushInOrder(s, level, size)
    ensures !InStep(s')
  {
    hide DiskOk;
    hide Serving;
    hide LiveFiles;
    hide KeepsOrder;
    var p := s.proc;
    assert Serving(p.mem, p.imm, p.v.files, p.v.next, s.h);
    hide UpOk;
    NotServing(p.mem, p.imm, p.v.files, p.v.next, s.h, level, size);
  }

  lemma {:induction false} NotServing(mem: seq<Entry>, imm: seq<Entry>, files: seq<seq<File>>, next: nat, h: seq<LogRecord>,
                                      level: nat, size: nat)
    requires Serving(mem, imm, files, next, h) && imm != []
    requires level < NUM_LEVELS && !KeepsOrder(files, level, NewTable(next, size, imm))
    ensures !Serving(mem, [], LiveFiles(files, FileEdit({}, [(level, NewTable(next, size, imm))])), next + 1, h)
  {
    hide StoreOk;
    hide Holds;
    hide SortFiles;
    hide LiveFiles;
    hide KeepsOrder;
    var st, f := State(mem, imm, files, next, Last(h)), NewTable(next, size, imm);
    FlushOk(st, level, f);
    FlushedFiles(st, level, f);
    assert Flushed(st, level, f) == State(mem, [], LiveFiles(files, FileEdit({}, [(level, f)])), next + 1, Last(h));
  }

  lemma {:induction false} FlushedFiles(s: State, level: nat, f: File)
    requires StoreOk(s) && |s.files| == NUM_LEVELS && level < NUM_LEVELS
    ensures LiveFiles(s.files, FileEdit({}, [(level, f)])) == Flushed(s, level, f).files
  {
    hide LiveStep;
    hide SortFiles;
    forall l | 0 <= l < NUM_LEVELS
      ensures LiveStep(s.files[l], FileEdit({}, [(level, f)]), l) == Flushed(s, level, f).files[l]
    {
      FlushEdits(s, level, f, l);
    }
  }

  lemma {:induction false} ServingCompact(mem: seq<Entry>, files: seq<seq<File>>, next: nat, h: seq<LogRecord>, q: nat,
                                          level: nat, in0: seq<File>, in1: seq<File>, outs: seq<File>)
    requires Serving(mem, [], files, next, h) && Last(h) <= q < MAX_SEQUENCE_NUMBER
    requires InputsOk(files, level, in0, in1) && IsOutput(State(mem, [], files, next, q), level, in0, in1, outs)
    ensures Serving(mem, [], Installed(files, level, in0, in1, outs), next + |outs|, h)
    ensures OutputsFit(State(mem, [], files, next, q), level, in0, in1, outs, next + |outs|)
    ensures LiveFiles(files, InstallEdit(level, in0, in1, outs)) == Installed(files, level, in0, in1, outs)
  {
    hide StoreOk;
    hide Holds;
    hide InputsOk;
    hide IsOutput;
    hide Installed;
    hide LiveStep;
    hide InstallEdit;
    hide AllEntries;
    hide FilesOk;
    var s, hi := State(mem, [], files, next, Last(h)), State(mem, [], files, next, q);
    SetCounters(s, next, q);
    CompactStep(hi, level, in0, in1, outs);
    assert OutputsFit(s, level, in0, in1, outs, next + |outs|);
    hide OutputsFit;
    InstallEdits(s, level, in0, in1, outs, next + |outs|);
    InstallKeepsStore(s, level, in0, in1, outs, next + |outs|);
    var s', hi' := Compacted(s, level, in0, in1, outs), Compacted(hi, level, in0, in1, outs);
    SeqBound(s');
    StoreDistinct(s');
    SameEntries(hi', s');
    SameReads(hi', s');
  }

  lemma {:induction false} ServingMove(mem: seq<Entry>, files: seq<seq<File>>, next: nat, h: seq<LogRecord>, level: nat, f: File)
    requires Serving(mem, [], files, next, h) && InputsOk(files, level, [f], [])
    ensures Serving(mem, [], Installed(files, level, [f], [], [f]), next, h)
    ensures LiveFiles(files, InstallEdit(level, [f], [], [f])) == Installed(files, level, [f], [], [f])
  {
    hide StoreOk;
    hide Holds;
    hide InputsOk;
    hide Installed;
    hide LiveStep;
    hide InstallEdit;
    hide OutputsFit;
    hide AllEntries;
    hide FilesOk;
    var s := State(mem, [], files, next, Last(h));
    MoveFits(s, level, f);
    MoveStep(s, level, f);
    InstallEdits(s, level, [f], [], [f], next);
  }

  lemma {:induction false} CompactFits(s: Sys, level: nat, in0: seq<File>, in1: seq<File>, outs: seq<File>, next: nat)
    requires DiskOk(s) && level + 1 < NUM_LEVELS && NumsDistinct(outs)
    requires forall o :: o in outs ==> Cur(s).next <= o.num < next
    ensures var e := InstallEdit(level, in0, in1, outs);
            && AddsOnce(e) && AddsBelow(e, next) && AddsAmong(e, outs)
            && Unadded(s.disk.manifests[s.disk.current], e) && Unadded([SnapshotRecord(Cur(s).files)], e)
  {
    hide DiskOk;
    hide Unadded;
    hide AddedAt;
    var e := InstallEdit(level, in0, in1, outs);
    forall l | 0 <= l < NUM_LEVELS ensures AddedAt(e.newFiles, l) == if l == level + 1 then outs else [] {
      AddedAtUniform(e.newFiles, outs, level + 1, l);
    }
    FreshFits(s, e);
  }

  lemma {:induction false} OutputNums(s: State, level: nat, in0: seq<File>, in1: seq<File>, outs: seq<File>)
    requires |s.files| == NUM_LEVELS && level < NUM_LEVELS
    requires IsOutput(s, level, in0, in1, outs) && OutputsFit(s, level, in0, in1, outs, s.nextFile + |outs|)
    ensures NumsDistinct(outs) && forall o :: o in outs ==> s.nextFile <= o.num < s.nextFile + |outs|
  {
  }

  lemma {:induction false} CompactKeeps(s: Sys, s': Sys, level: nat, in0: seq<File>, in1: seq<File>, outs: seq<File>)
    requires DiskOk(s) && s.proc.Up? && UpOk(s) && CompactStart(s, s', level, in0, in1, outs)
    ensures s'.proc.Up? && DiskOk(s') && UpOk(s')
  {
    hide Complete;
    hide ViewOf;
    hide StandsFor;
    hide Serving;
    hide InOrder;
    hide LiveFiles;
    hide LogsFrom;
    hide TablesHold;
    hide Unadded;
    hide AddsOnce;
    hide AddsBelow;
    hide AddsAmong;
    hide InputsOk;
    hide IsOutput;
    hide OutputsFit;
    hide Installed;
    hide TodoOk;
    hide InstallEdit;
    var p := s.proc;
    var next := p.v.next + |outs|;
    var k := |s.h| - |Tail(s.disk, s.top, p.v.logNum)|;
    SameDisk(s, s');
    CurFiles(s);
    hide FilesOk;
    Ordered(s);
    InOrderParts(s.h, k);
    ServingLater([], [], p.v.files, Cur(s).next, p.v.next, s.h[..k]);
    SameOutput(p.mem, [], p.v.files, p.v.next, p.v.lastSeq, level, in0, in1, outs);
    ServingCompact(p.mem, p.v.files, p.v.next, s.h, p.v.lastSeq, level, in0, in1, outs);
    ServingCompact([], p.v.files, p.v.next, s.h[..k], p.v.lastSeq, level, in0, in1, outs);
    OutputNums(State(p.mem, [], p.v.files, p.v.next, p.v.lastSeq), level, in0, in1, outs);
    CompactFits(s', level, in0, in1, outs, next);
    TodoFits(s', InstallEdit(level, in0, in1, outs), outs);
    assert Ready(s', s'.proc.pc.rec, Nums(outs));
  }

  lemma {:induction false} SameOutput(mem: seq<Entry>, mem': seq<Entry>, files: seq<seq<File>>, next: nat, q: nat,
                                      level: nat, in0: seq<File>, in1: seq<File>, outs: seq<File>)
    requires |files| == NUM_LEVELS
    ensures IsOutput(State(mem, [], files, next, q), level, in0, in1, outs)
        <==> IsOutput(State(mem', [], files, next, q), level, in0, in1, outs)
  {
  }

  lemma {:induction false} MovedUnadded(recs: seq<Record>, files: seq<seq<File>>, bound: nat, level: nat, f: File)
    requires StandsFor(recs, files, bound) && level + 1 < NUM_LEVELS && f in files[level]
    ensures Unadded(recs, InstallEdit(level, [f], [], [f]))
  {
    hide Added;
    hide ReadFiles;
    hide AddedAt;
    var e := InstallEdit(level, [f], [], [f]);
    forall m, l, g: File | 0 <= m <= l < NUM_LEVELS && g in AddedAt(e.newFiles, m) ensures g.num !in Nums(Added(recs, l)) {
      AddedAtUniform(e.newFiles, [f], level + 1, m);
    }
  }

  /** The moved file was never on the deeper level, and its table is there. */
  lemma {:induction false} MoveFitsDisk(s: Sys, level: nat, f: File, next: nat)
    requires DiskOk(s) && |Cur(s).files| == NUM_LEVELS && level + 1 < NUM_LEVELS && f in Cur(s).files[level] && Cur(s).next <= next
    ensures var e := InstallEdit(level, [f], [], [f]);
            && AddsOnce(e) && AddsBelow(e, next)
            && Unadded(s.disk.manifests[s.disk.current], e) && Unadded([SnapshotRecord(Cur(s).files)], e)
            && TablesHold(s.disk.tables, LiveFiles(Cur(s).files, e), {})
  {
    hide DiskOk;
    hide StandsFor;
    hide Unadded;
    hide AddedAt;
    hide LiveStep;
    hide InstallEdit;
    hide FilesOk;
    hide SnapshotRecord;
    hide ViewOf;
    CurFiles(s);
    CurTables(s);
    var files, e := Cur(s).files, InstallEdit(level, [f], [], [f]);
    MovedUnadded(s.disk.manifests[s.disk.current], files, Cur(s).next, level, f);
    SnapshotStandsFor(files, Cur(s).next);
    MovedUnadded([SnapshotRecord(files)], files, Cur(s).next, level, f);
    assert LevelFilesOk(files[level], Cur(s).next);
    forall l | 0 <= l < NUM_LEVELS ensures AddedAt(e.newFiles, l) == if l == level + 1 then [f] else [] {
      MoveAdds(level, f, l);
    }
    forall l, g: File | 0 <= l < NUM_LEVELS && g in LiveFiles(files, e)[l] ensures g in files[l] || g == f {
      LiveMembers(files[l], e, l);
    }
  }

  lemma {:induction false} MoveAdds(level: nat, f: File, l: nat)
    ensures AddedAt(InstallEdit(level, [f], [], [f]).newFiles, l) == if l == level + 1 then [f] else []
  {
    AddedAtUniform(InstallEdit(level, [f], [], [f]).newFiles, [f], level + 1, l);
  }

  lemma {:induction false} MoveKeeps(s: Sys, s': Sys, level: nat, f: File)
    requires DiskOk(s) && s.proc.Up? && UpOk(s) && MoveStart(s, s', level, f)
    ensures s'.proc.Up? && DiskOk(s') && UpOk(s')
  {
    hide Complete;
    hide ViewOf;
    hide StandsFor;
    hide Serving;
    hide InOrder;
    hide LiveFiles;
    hide LogsFrom;
    hide TablesHold;
    hide Unadded;
    hide AddsOnce;
    hide AddsBelow;
    hide Installed;
    hide InstallEdit;
    hide InputsOk;
    var p := s.proc;
    var k := |s.h| - |Tail(s.disk, s.top, p.v.logNum)|;
    SameDisk(s, s');
    CurFiles(s);
    hide FilesOk;
    Ordered(s);
    InOrderParts(s.h, k);
    ServingLater([], [], p.v.files, Cur(s).next, p.v.next, s.h[..k]);
    ServingMove(p.mem, p.v.files, p.v.next, s.h, level, f);
    ServingMove([], p.v.files, p.v.next, s.h[..k], level, f);
    assert f in p.v.files[level] by { MovedFrom(p.v.files, level, f); }
    MoveFitsDisk(s', level, f, p.v.next);
    assert Nums([]) == {};
    assert Ready(s', s'.proc.pc.rec, {});
  }

  lemma {:induction false} MovedFrom(files: seq<seq<File>>, level: nat, f: File)
    requires |files| == NUM_LEVELS && InputsOk(files, level, [f], [])
    ensures f in files[level]
  {
    assert f in [f];
  }

  lemma {:induction false} TableKeeps(s: Sys, s': Sys)
    requires DiskOk(s) && s.proc.Up? && UpOk(s) && TableStep(s, s')
    ensures s'.proc.Up? && DiskOk(s') && UpOk(s')
  {
    hide DiskOk;
    hide Ready;
    hide TodoOk;
    hide LiveFiles;
    var rec, todo := s.proc.pc.rec, s.proc.pc.todo;
    if todo == [] {
      SameDisk(s, s');
      AllWritten(s, s', rec);
    } else {
      OneWritten(s, s', rec, todo);
    }
  }

  lemma {:induction false} AllWritten(s: Sys, s': Sys, rec: Record)
    requires DiskOk(s) && DiskOk(s') && Cur(s') == Cur(s) && s' == s.(proc := s'.proc) && s.proc.Up? && s'.proc.Up?
    requires s'.proc == s.proc.(pc := s'.proc.pc) && Ready(s, rec, Nums([]))
    ensures Ready(s', rec, {})
  {
    hide DiskOk;
    hide Serving;
    hide Durable;
    hide LiveFiles;
    hide Unadded;
    hide AddsOnce;
    hide AddsBelow;
    assert Nums([]) == {};
  }

  lemma {:induction false} OneWritten(s: Sys, s': Sys, rec: Record, todo: seq<File>)
    requires DiskOk(s) && s.proc.Up? && s.proc.pc == Writing(rec, todo) && todo != [] && TableStep(s, s')
    requires Ready(s, rec, Nums(todo)) && TodoOk(s, todo, LiveFiles(s.proc.v.files, rec.edit))
    ensures DiskOk(s') && Cur(s') == Cur(s) && s'.proc.Up?
    ensures Ready(s', rec, Nums(todo[1..])) && TodoOk(s', todo[1..], LiveFiles(s.proc.v.files, rec.edit))
  {
    hide DiskOk;
    hide Serving;
    hide LiveFiles;
    hide LogsFrom;
    hide Unadded;
    hide AddsOnce;
    hide AddsBelow;
    var f, files := todo[0], LiveFiles(s.proc.v.files, rec.edit);
    assert f in todo;
    FreshTable(s, s', f);
    WrittenTables(s.disk.tables, files, todo);
    hide TablesHold;
  }

  lemma {:induction false} WrittenTables(tables: map<nat, seq<Entry>>, files: seq<seq<File>>, todo: seq<File>)
    requires |files| == NUM_LEVELS && todo != [] && TablesHold(tables, files, Nums(todo))
    requires forall l, g: File :: 0 <= l < NUM_LEVELS && g in files[l] && g.num == todo[0].num ==> g.entries == todo[0].entries
    ensures TablesHold(tables[todo[0].num := todo[0].entries], files, Nums(todo[1..]))
  {
    assert todo == [todo[0]] + todo[1..];
    assert Nums(todo) == {todo[0].num} + Nums(todo[1..]);
  }

  // ----- recording a version -----

  lemma {:induction false} OtherManifest(s: Sys, s': Sys, n: nat)
    requires DiskOk(s) && n != s.disk.current && n in s'.disk.manifests
    requires s' == s.(proc := s'.proc, disk := s.disk.(manifests := s.disk.manifests[n := s'.disk.manifests[n]]))
    ensures DiskOk(s') && Cur(s') == Cur(s) && s'.disk.manifests[s.disk.current] == s.disk.manifests[s.disk.current]
  {
    hide ViewOf;
    hide Complete;
    hide StandsFor;
    hide Serving;
    hide TablesHold;
    hide InOrder;
    hide LogsFrom;
  }

  lemma {:induction false} LastRecord(base: seq<Record>, rec: Record)
    requires rec.logNum.Some? && rec.nextFile.Some? && rec.lastSeq.Some?
    ensures Complete(base + [rec])
    ensures ViewOf(base + [rec]) == View(ReadFiles(base + [rec]), rec.logNum.value, rec.nextFile.value, rec.lastSeq.value)
  {
    hide ReadFiles;
    assert (base + [rec])[..|base|] == base;
  }

  /** The point of no return: the manifest that CURRENT names ends with the record. */
  lemma {:induction false} Commit(s: Sys, s': Sys, base: seq<Record>, read: Record, bound: nat)
    requires DiskOk(s) && s.proc.Up? && s.proc.pc.Logging? && Ready(s, s.proc.pc.rec, {})
    requires s.top == s.proc.log + 1 && s.proc.log < s.proc.v.next && Last(s.h) <= s.proc.v.lastSeq < MAX_SEQUENCE_NUMBER
    requires s' == s.(proc := s'.proc, disk := s.disk.(manifests := s'.disk.manifests, current := s'.disk.current))
    requires s'.disk.current in s'.disk.manifests && s'.disk.current < s.proc.v.next
    requires s'.disk.manifests[s'.disk.current] == base + [read] && Complete(base + [read]) && Complete(base + [s.proc.pc.rec])
    requires ViewOf(base + [read]) == ViewOf(base + [s.proc.pc.rec])
    requires StandsFor(base, s.proc.v.files, bound) && bound <= s.proc.v.next && Unadded(base, s.proc.pc.rec.edit)
    ensures DiskOk(s')
    ensures Cur(s') == View(LiveFiles(s.proc.v.files, s.proc.pc.rec.edit), s.proc.pc.rec.logNum.value,
                            s.proc.v.next, s.proc.v.lastSeq)
  {
    hide ViewOf;
    hide Complete;
    hide StandsFor;
    hide Serving;
    hide TablesHold;
    hide InOrder;
    hide LogsFrom;
    hide LiveStep;
    hide LiveFiles;
    hide Unadded;
    hide AddsOnce;
    hide AddsBelow;
    hide Last;
    hide FilesOk;
    hide ReadFiles;
    var v, rec := s.proc.v, s.proc.pc.rec;
    MeantView(base, v.files, rec, bound, s.proc.mem, v.next, s.h);
    ReadStands(base, v.files, rec, read, bound, s.proc.mem, v.next, s.h);
    InOrderParts(s.h, |s.h| - |Tail(s.disk, s.top, rec.logNum.value)|);
  }

  /** A record that reads as the same version stands for it. */
  lemma {:induction false} ReadStands(recs: seq<Record>, files: seq<seq<File>>, rec: Record, read: Record, bound: nat,
                                      mem: seq<Entry>, next: nat, h: seq<LogRecord>)
    requires StandsFor(recs, files, bound) && bound <= next && |files| == NUM_LEVELS
    requires AddsOnce(rec.edit) && Unadded(recs, rec.edit) && AddsBelow(rec.edit, next)
    requires Serving(mem, [], LiveFiles(files, rec.edit), next, h)
    requires Complete(recs + [rec]) && Complete(recs + [read]) && ViewOf(recs + [read]) == ViewOf(recs + [rec])
    ensures StandsFor(recs + [read], LiveFiles(files, rec.edit), next)
  {
    hide StandsFor;
    hide Serving;
    hide LiveFiles;
    hide FilesOk;
    hide Complete;
    hide ViewOf;
    hide AddsOnce;
    hide Unadded;
    hide AddsBelow;
    hide ReadFiles;
    var files' := LiveFiles(files, rec.edit);
    ServingFiles(mem, [], files', next, h);
    AppendStandsFor(recs, files, rec, bound, next);
    StandsReads(recs + [rec], files', next);
    ViewFiles(recs + [rec]);
    ViewFiles(recs + [read]);
    SameReading(recs, rec, read, files', next);
  }

  lemma {:induction false} ViewFiles(recs: seq<Record>)
    requires Complete(recs)
    ensures ViewOf(recs).files == ReadFiles(recs)
  {
  }

  lemma {:induction false} StandsReads(recs: seq<Record>, files: seq<seq<File>>, bound: nat)
    requires StandsFor(recs, files, bound)
    ensures ReadFiles(recs) == files
  {
  }

  lemma {:induction false} LoggingKeeps(s: Sys, s': Sys, read: Option<Record>)
    requires DiskOk(s) && s.proc.Up? && UpOk(s) && NewManifestWhole(s) && LoggingStep(s, s', read) && EditReadsBack(s, read)
    ensures s'.proc.Up? && DiskOk(s') && UpOk(s')
  {
    hide DiskOk;
    hide UpOk;
    match s.proc.pc.stage {
      case Begin =>
        if s.proc.v.open {
          AppendKeeps(s, s', read);
        } else {
          BuildKeeps(s, s', read);
        }
      case Created =>
        UncommittedStage(s);
        BuildKeeps(s, s', read);
      case Snapshotted =>
        UncommittedStage(s);
        BuildKeeps(s, s', read);
      case Appended => SwitchKeeps(s, s', read);
      case Switched => ApplyKeeps(s, s', read);
    }
  }

  lemma {:induction false} UncommittedStage(s: Sys)
    requires s.proc.Up? && s.proc.pc.Logging? && s.proc.pc.stage in {Created, Snapshotted}
    requires DiskOk(s) && UpOk(s)
    ensures !s.proc.v.open
  {
    hide DiskOk;
    hide Ready;
  }

  /** The record is appended to the manifest that CURRENT names: that commits it. */
  lemma {:induction false} AppendKeeps(s: Sys, s': Sys, read: Option<Record>)
    requires s.proc.Up? && s.proc.pc.Logging? && s.proc.pc.stage.Begin? && s.proc.v.open
    requires DiskOk(s) && UpOk(s) && LoggingStep(s, s', read) && EditReadsBack(s, read)
    ensures s'.proc.Up? && DiskOk(s') && UpOk(s')
  {
    hide DiskOk;
    hide Serving;
    hide Durable;
    hide StandsFor;
    hide FilesOk;
    hide LiveFiles;
    hide Unadded;
    hide AddsOnce;
    hide AddsBelow;
    hide ViewOf;
    hide Complete;
    CurFiles(s);
    Commit(s, s', s.disk.manifests[s.proc.v.manifest], read.value, Cur(s).next);
  }

  /** CURRENT is switched to the new manifest: that commits its record; an old one stays as it is. */
  lemma {:induction false} SwitchKeeps(s: Sys, s': Sys, read: Option<Record>)
    requires s.proc.Up? && s.proc.pc.Logging? && s.proc.pc.stage.Appended?
    requires DiskOk(s) && UpOk(s) && LoggingStep(s, s', read)
    ensures s'.proc.Up? && DiskOk(s') && UpOk(s')
  {
    hide DiskOk;
    hide Serving;
    hide Durable;
    hide StandsFor;
    hide FilesOk;
    hide LiveFiles;
    hide Unadded;
    hide AddsOnce;
    hide AddsBelow;
    hide SnapshotRecord;
    var v, rec := s.proc.v, s.proc.pc.rec;
    if v.open {
      assert s'.disk == s.disk;
      SameDisk(s, s');
    } else {
      CurFiles(s);
      SnapshotStandsFor(v.files, Cur(s).next);
      assert [SnapshotRecord(v.files), rec] == [SnapshotRecord(v.files)] + [rec];
      LastRecord([SnapshotRecord(v.files)], rec);
      Commit(s, s', [SnapshotRecord(v.files)], rec, Cur(s).next);
    }
  }

  /** The version in memory follows the one on disk. */
  lemma {:induction false} ApplyKeeps(s: Sys, s': Sys, read: Option<Record>)
    requires s.proc.Up? && s.proc.pc.Logging? && s.proc.pc.stage.Switched?
    requires DiskOk(s) && UpOk(s) && LoggingStep(s, s', read)
    ensures s'.proc.Up? && DiskOk(s') && UpOk(s')
  {
    hide DiskOk;
    hide Serving;
    hide LiveFiles;
    SameDisk(s, s');
  }

  /** While the new manifest is built, CURRENT still names the old one. */
  lemma {:induction false} BuildKeeps(s: Sys, s': Sys, read: Option<Record>)
    requires s.proc.Up? && s.proc.pc.Logging? && s.proc.pc.stage in {Begin, Created, Snapshotted} && !s.proc.v.open
    requires DiskOk(s) && UpOk(s) && NewManifestWhole(s) && LoggingStep(s, s', read)
    ensures s'.proc.Up? && DiskOk(s') && UpOk(s')
  {
    hide DiskOk;
    hide Serving;
    hide TablesHold;
    hide LogsFrom;
    hide LiveFiles;
    hide Unadded;
    hide AddsOnce;
    hide AddsBelow;
    hide SnapshotRecord;
    OtherManifest(s, s', s.proc.v.manifest);
    assert Ready(s', s.proc.pc.rec, {});
  }

  // ----- deleting -----

  lemma {:induction false} DeleteDisk(s: Sys, s': Sys, kind: FileKind, n: nat)
    requires DiskOk(s) && s.proc.Up? && UpOk(s) && DeleteStep(s, s', kind, n)
    ensures DiskOk(s') && Cur(s') == Cur(s)
  {
    hide DiskOk;
    hide Serving;
    var v := s.proc.v;
    assert v.manifest == s.disk.current && v.files == Cur(s).files && v.logNum == Cur(s).logNum;
    hide UpOk;
    match kind {
      case Log => DeleteLog(s, s', n);
      case Manifest => DeleteManifest(s, s', n);
      case Table => DeleteTable(s, s', n);
    }
  }

  lemma {:induction false} DeleteLog(s: Sys, s': Sys, n: nat)
    requires DiskOk(s) && n < Cur(s).logNum && s' == s.(disk := s.disk.(logs := s.disk.logs - {n}))
    ensures DiskOk(s') && Cur(s') == Cur(s)
  {
    hide ViewOf;
    hide Complete;
    hide StandsFor;
    hide Serving;
    hide TablesHold;
    hide InOrder;
    hide LogsFrom;
    LogsAgree(s.disk.logs, s'.disk.logs, Cur(s).logNum, s.top);
  }

  lemma {:induction false} DeleteManifest(s: Sys, s': Sys, n: nat)
    requires DiskOk(s) && n < s.disk.current && s' == s.(disk := s.disk.(manifests := s.disk.manifests - {n}))
    ensures DiskOk(s') && Cur(s') == Cur(s)
  {
    hide ViewOf;
    hide Complete;
    hide StandsFor;
    hide Serving;
    hide TablesHold;
    hide InOrder;
    hide LogsFrom;
    assert s'.disk.manifests[s.disk.current] == s.disk.manifests[s.disk.current];
  }

  lemma {:induction false} DeleteTable(s: Sys, s': Sys, n: nat)
    requires DiskOk(s) && |Cur(s).files| == NUM_LEVELS && s' == s.(disk := s.disk.(tables := s.disk.tables - {n}))
    requires forall l, f: File :: 0 <= l < NUM_LEVELS && f in Cur(s).files[l] ==> f.num != n
    ensures DiskOk(s') && Cur(s') == Cur(s)
  {
    hide ViewOf;
    hide Complete;
    hide StandsFor;
    hide Serving;
    hide InOrder;
    hide LogsFrom;
    assert TablesHold(s'.disk.tables, Cur(s).files, {});
    hide TablesHold;
  }

  lemma {:induction false} DeleteKeeps(s: Sys, s': Sys, kind: FileKind, n: nat)
    requires DiskOk(s) && s.proc.Up? && UpOk(s) && DeleteStep(s, s', kind, n)
    ensures s'.proc.Up? && DiskOk(s') && UpOk(s')
  {
    hide DiskOk;
    hide Serving;
    hide Ready;
    hide StageOk;
    hide TodoOk;
    hide LiveFiles;
    hide DeleteStep;
    DeleteDisk(s, s', kind, n);
    DeleteSpares(s, s', kind, n);
    hide Cur;
  }

  lemma {:induction false} DeleteSpares(s: Sys, s': Sys, kind: FileKind, n: nat)
    requires DiskOk(s) && s.proc.Up? && UpOk(s) && DeleteStep(s, s', kind, n)
    ensures s' == s.(disk := s'.disk) && s.proc.pc.Idle? && s'.disk.current == s.disk.current
    ensures s.proc.log in s.disk.logs ==> s.proc.log in s'.disk.logs && s'.disk.logs[s.proc.log] == s.disk.logs[s.proc.log]
  {
    hide DiskOk;
    hide Serving;
    assert s.proc.v.logNum <= s.proc.log;
    hide UpOk;
  }

  // ----- whole runs -----

  lemma {:induction false} FirstManifest(r: Record)
    requires r.edit == FileEdit({}, [])
    ensures StandsFor([r], seq(NUM_LEVELS, _ => []), 2)
  {
    hide SaveLevel;
    assert [] + [r] == [r];
    forall l | 0 <= l < NUM_LEVELS ensures Added([r], l) == [] && ReadFiles([r])[l] == [] {
      AddedAppend([], r, l);
      FirstLevel(r, l);
    }
    hide Added;
    assert ReadFiles([r]) == seq(NUM_LEVELS, _ => []);
    hide ReadFiles;
    assert forall l :: 0 <= l < NUM_LEVELS ==> AddedOnce(Edits([r]), l) by {
      assert forall l :: 0 <= l < NUM_LEVELS ==> Replay(Edits([r]), l).added == Added([r], l);
    }
  }

  lemma {:induction false} FirstLevel(r: Record, l: nat)
    requires r.edit == FileEdit({}, []) && l < NUM_LEVELS
    ensures ReadFiles([r])[l] == []
  {
    assert [] + [r] == [r];
    AddedAppend([], r, l);
    assert AddedAt([], l) == [] && SortFiles([]) == [];
  }

  lemma {:induction false} InitKeeps(s: Sys)
    requires Init(s)
    ensures Inv(s)
  {
    hide ReadFiles;
    hide StandsFor;
    hide Serving;
    var r := Record(FileEdit({}, []), Some(0), Some(2), Some(0));
    var files: seq<seq<File>> := seq(NUM_LEVELS, _ => []);
    assert [] + [r] == [r];
    LastRecord([], r);
    FirstManifest(r);
    StandsReads([r], files, 2);
    EmptyServes(files);
    assert Tail(s.disk, 0, 0) == [];
    assert s.h[..0] == [] && s.h[0..] == [];
    assert TablesHold(s.disk.tables, files, {});
  }

  lemma {:induction false} EmptyServes(files: seq<seq<File>>)
    requires files == seq(NUM_LEVELS, _ => [])
    ensures Serving([], [], files, 2, [])
  {
    var s := State([], [], files, 2, 0);
    assert forall i :: 0 <= i < NUM_LAYERS ==> Layer(s, i) == {};
    assert AllEntries(s) == {};
  }

  /** The invariant does not look at leftovers. */
  lemma {:induction false} LeftoversAside(s: Sys, t: Sys)
    requires DiskOk(s) && t == s.(torn := t.torn)
    ensures DiskOk(t) && Cur(t) == Cur(s)
    ensures s.proc.Recovering? && RecoveringOk(s) ==> RecoveringOk(t)
    ensures s.proc.Up? && UpOk(s) ==> UpOk(t)
  {
    hide Serving;
    hide StandsFor;
    hide Durable;
    hide TablesHold;
    hide Unadded;
    hide AddsOnce;
    hide AddsBelow;
    hide LiveFiles;
    hide ReadFiles;
    hide ReadMeta;
    hide InOrder;
    hide LogsFrom;
    hide Plus;
    hide Last;
    hide NumsDistinct;
  }

  lemma {:induction false} WholeKeeps(s: Sys, s': Sys, a: Action)
    requires NewManifestWhole(s) && Next(s, s', a)
    ensures NewManifestWhole(s')
  {
    hide LiveFiles;
    hide ReadFiles;
    hide ReadMeta;
    hide WriteRecord;
    hide InputsOk;
    hide IsOutput;
    hide Merged;
    hide Plus;
    hide NewTable;
    hide InstallEdit;
    hide SnapshotRecord;
    hide Cut;
    hide WithLog;
    assert a.Crash? ==> s'.proc.Down? by { CrashedDown(s, s', a); }
  }

  lemma {:induction false} CrashedDown(s: Sys, s': Sys, a: Action)
    requires Next(s, s', a)
    ensures a.Crash? ==> s'.proc.Down?
  {
  }

  /**
   * Every step keeps the invariant, unless it logs a batch that does not read as itself, records an edit that does not
   * read as the version meant, or starts a flush that loses the order of the layers.
   */
  lemma {:induction false} NextKeeps(s: Sys, s': Sys, a: Action)
    requires Inv(s) && Next(s, s', a) && Harmless(s, a)
    ensures Inv(s')
  {
    hide DiskOk;
    hide RecoveringOk;
    hide UpOk;
    hide Harmless;
    WholeKeeps(s, s', a);
    hide TornAfter;
    hide NewManifestWhole;
    var t := s'.(torn := s.torn);
    StepKeeps(s, t, a);
    LeftoversAside(t, s');
  }

  lemma {:induction false} StepKeeps(s: Sys, s': Sys, a: Action)
    requires Inv(s) && Step(s, s', a) && Harmless(s, a)
    ensures DiskOk(s') && (s'.proc.Recovering? ==> RecoveringOk(s')) && (s'.proc.Up? ==> UpOk(s'))
  {
    hide DiskOk;
    hide RecoveringOk;
    hide UpOk;
    hide ReadsBack;
    hide EditReadsBack;
    hide FlushInOrder;
    hide NewManifestWhole;
    match a {
      case Crash(keep, part, tears, creates) => CrashKeeps(s, s', keep, creates);
      case Open(reuse) => OpenKeeps(s, s', reuse);
      case ReadRecord => ReadKeeps(s, s');
      case Dump(size) => DumpKeeps(s, s', size);
      case NextLog => NextLogKeeps(s, s');
      case ReuseLog => ReuseLogKeeps(s, s');
      case NewLog => NewLogKeeps(s, s');
      case Batch(batch) => WriteKeeps(s, s', batch);
      case Sync => SyncKeeps(s, s');
      case Rotate => RotateKeeps(s, s');
      case Flush(level, size) => FlushKeeps(s, s', level, size);
      case Compact(level, in0, in1, outs) => CompactKeeps(s, s', level, in0, in1, outs);
      case Move(level, f) => MoveKeeps(s, s', level, f);
      case WriteTable => TableKeeps(s, s');
      case LogAndApply(read) => LoggingKeeps(s, s', read);
      case Delete(kind, n) => DeleteKeeps(s, s', kind, n);
    }
  }

  /** A run: a state per action and one more. */
  ghost predicate IsRun(states: seq<Sys>, actions: seq<Action>) {
    && |states| == |actions| + 1
    && Init(states[0])
    && forall i :: 0 <= i < |actions| ==> Next(states[i], states[i + 1], actions[i])
  }

  /** Nothing goes wrong in the first n steps. */
  ghost predicate AllHarmless(states: seq<Sys>, actions: seq<Action>, n: nat) {
    n <= |actions| < |states| && forall i :: 0 <= i < n ==> Harmless(states[i], actions[i])
  }

  lemma {:induction false} RunKeeps(states: seq<Sys>, actions: seq<Action>, n: nat)
    requires IsRun(states, actions) && AllHarmless(states, actions, n)
    ensures Inv(states[n])
  {
    hide Inv;
    hide Next;
    hide Init;
    hide Harmless;
    if n == 0 {
      InitKeeps(states[0]);
    } else {
      RunKeeps(states, actions, n - 1);
      NextKeeps(states[n - 1], states[n], actions[n - 1]);
    }
  }

  /** The database is open and idle, and reads as the map that the batches describe. */
  ghost predicate ReadsHistory(s: Sys) {
    && s.proc.Up? && |s.proc.v.files| == NUM_LEVELS && Last(s.h) <= s.proc.v.lastSeq
    && Holds(State(s.proc.mem, s.proc.imm, s.proc.v.files, s.proc.v.next, s.proc.v.lastSeq), Described(s.h))
  }

  /**
   * In any run with any crashes in which batches and edits read back and flushes keep the order, an open database reads
   * as the map described by the batches that no crash lost, in the order in which they were written.
   */
  lemma {:induction false} CrashSafe(states: seq<Sys>, actions: seq<Action>, n: nat)
    requires IsRun(states, actions) && AllHarmless(states, actions, n)
    requires states[n].proc.Up? && states[n].proc.pc.Idle?
    ensures ReadsHistory(states[n])
  {
    hide DiskOk;
    hide StoreOk;
    hide Holds;
    RunKeeps(states, actions, n);
    var s := states[n];
    assert Serving(s.proc.mem, s.proc.imm, s.proc.v.files, s.proc.v.next, s.h);
    SetCounters(State(s.proc.mem, s.proc.imm, s.proc.v.files, s.proc.v.next, Last(s.h)), s.proc.v.next, s.proc.v.lastSeq);
  }

  /**
   * The disk is recoverable at every point of a run, running, recovering or down, and the process in step with it, if
   * and only if every batch logged reads as itself, every edit recorded reads as the version meant, and every flush
   * keeps the order of the layers.
   */
  lemma {:induction false} AlwaysRecoverable(states: seq<Sys>, actions: seq<Action>)
    requires IsRun(states, actions)
    ensures (forall n :: 0 <= n < |states| ==> Recoverable(states[n]) && InStep(states[n]))
            <==> AllHarmless(states, actions, |actions|)
  {
    hide Next;
    hide Init;
    hide Inv;
    hide Recoverable;
    hide InStep;
    hide Harmless;
    if AllHarmless(states, actions, |actions|) {
      forall n | 0 <= n < |states| ensures Recoverable(states[n]) && InStep(states[n]) {
        RunKeeps(states, actions, n);
        InvRecovers(states[n]);
      }
    } else {
      var i :| 0 <= i < |actions| && !Harmless(states[i], actions[i]);
      var j := FirstLoss(states, actions, i);
    }
  }

  lemma {:induction false} InvRecovers(s: Sys)
    requires Inv(s)
    ensures Recoverable(s) && InStep(s)
  {
    hide Complete;
    hide Durable;
    hide RecoveringOk;
    hide StandsFor;
    hide LogsOk;
    hide ReadMeta;
    hide ReadFiles;
    hide Serving;
    hide LiveFiles;
    hide TodoOk;
    hide Unadded;
    hide AddsOnce;
    hide AddsBelow;
  }

  /** After the first step that does harm, the disk is not recoverable or the process not in step with it. */
  lemma {:induction false} FirstLoss(states: seq<Sys>, actions: seq<Action>, i: nat) returns (j: nat)
    requires IsRun(states, actions) && i < |actions| && !Harmless(states[i], actions[i])
    ensures j < |states| && !(Recoverable(states[j]) && InStep(states[j]))
  {
    hide Next;
    hide Init;
    hide Inv;
    hide Recoverable;
    hide InStep;
    hide Harmless;
    if AllHarmless(states, actions, i) {
      RunKeeps(states, actions, i);
      j := i + 1;
      Harm(states[i], states[j], actions[i]);
    } else {
      var k :| 0 <= k < i && !Harmless(states[k], actions[k]);
      j := FirstLoss(states, actions, k);
    }
  }

  lemma {:induction false} Harm(s: Sys, s': Sys, a: Action)
    requires Inv(s) && Next(s, s', a) && !Harmless(s, a)
    ensures !(Recoverable(s') && InStep(s'))
  {
    hide DiskOk;
    hide UpOk;
    hide RecoveringOk;
    hide TornAfter;
    hide Recoverable;
    hide ReadsBack;
    hide EditReadsBack;
    hide FlushInOrder;
    var t := s'.(torn := s.torn);
    SameSteps(t, s');
    hide InStep;
    match a {
      case Batch(batch) => LostBatch(s, s', batch);
      case LogAndApply(read) => LostEdit(s, t, read);
      case Flush(level, size) => LostOrder(s, t, level, size);
    }
  }

  lemma {:induction false} SameSteps(s: Sys, t: Sys)
    requires t == s.(torn := t.torn)
    ensures InStep(t) <==> InStep(s)
  {
    hide Serving;
    hide LiveFiles;
    hide ReadMeta;
    hide ReadFiles;
  }

  /** An edit that does not read as the version meant is recorded: the manifest is unreadable, incomplete or wrong. */
  lemma {:induction false} LostEdit(s: Sys, s': Sys, read: Option<Record>)
    requires DiskOk(s) && s.proc.Up? && UpOk(s) && LoggingStep(s, s', read) && !EditReadsBack(s, read)
    ensures !InStep(s')
  {
    hide DiskOk;
    hide Serving;
    hide Durable;
    hide StandsFor;
    hide FilesOk;
    hide LiveFiles;
    hide Unadded;
    hide AddsOnce;
    hide AddsBelow;
    hide ViewOf;
    hide Complete;
    var p, recs, rec := s.proc, s.disk.manifests[s.disk.current], s.proc.pc.rec;
    CurFiles(s);
    assert StageOk(s, rec, Begin) && Ready(s, rec, {});
    MeantView(recs, p.v.files, rec, Cur(s).next, p.mem, p.v.next, s.h);
    assert s'.disk == Written(s.disk, s.disk.current, read) && s'.disk.current == s.disk.current;
  }

  /** What the record is meant to make of the manifest. */
  lemma {:induction false} MeantView(recs: seq<Record>, files: seq<seq<File>>, rec: Record, bound: nat,
                                     mem: seq<Entry>, next: nat, h: seq<LogRecord>)
    requires StandsFor(recs, files, bound) && bound <= next && |files| == NUM_LEVELS
    requires rec.logNum.Some? && rec.nextFile.Some? && rec.lastSeq.Some?
    requires AddsOnce(rec.edit) && Unadded(recs, rec.edit) && AddsBelow(rec.edit, next)
    requires Serving(mem, [], LiveFiles(files, rec.edit), next, h)
    ensures Complete(recs + [rec])
    ensures ViewOf(recs + [rec]) == View(LiveFiles(files, rec.edit), rec.logNum.value, rec.nextFile.value, rec.lastSeq.value)
  {
    hide StandsFor;
    hide Serving;
    hide LiveFiles;
    hide FilesOk;
    hide Complete;
    hide ViewOf;
    hide AddsOnce;
    hide Unadded;
    hide AddsBelow;
    ServingFiles(mem, [], LiveFiles(files, rec.edit), next, h);
    AppendStandsFor(recs, files, rec, bound, next);
    StandsReads(recs + [rec], LiveFiles(files, rec.edit), next);
    LastRecord(recs, rec);
  }

  /** A batch that does not read as itself leaves the disk unrecoverable: the logs no longer end in what was written. */
  lemma {:induction false} LostBatch(s: Sys, s': Sys, batch: seq<Write>)
    requires Inv(s) && Next(s, s', Batch(batch)) && !ReadsBack(s, batch)
    ensures !Recoverable(s')
  {
    hide Serving;
    hide TablesHold;
    hide StandsFor;
    hide InOrder;
    hide LogsFrom;
    hide Complete;
    hide ViewOf;
    hide Merged;
    hide WriteRecord;
    hide ReadMeta;
    hide ReadFiles;
    var p := s.proc;
    var r, w := RecordFor(p, batch), Cur(s);
    var m := Merged(Leftover(s, p.log), r);
    assert s'.disk.manifests == s.disk.manifests && s'.disk.current == s.disk.current;
    assert w.logNum < s.top && s.top == p.log + 1 by { LogInUse(s); }
    TailWrite(s.disk.logs, w.logNum, s.top, m);
    var tail := Tail(s'.disk, s'.top, w.logNum);
    assert tail[|tail| - 1] == m && s'.h[|s'.h| - 1] == r;
    assert |tail| <= |s'.h| ==> s'.h[|s'.h| - |tail|..][|tail| - 1] == r;
  }

  lemma {:induction false} LogInUse(s: Sys)
    requires DiskOk(s) && s.proc.Up? && UpOk(s) && s.proc.pc.Idle?
    ensures Cur(s).logNum < s.top && s.top == s.proc.log + 1
  {
    hide Serving;
    hide StandsFor;
    hide Durable;
    hide LogsOk;
    hide ReadMeta;
    hide ReadFiles;
  }

  /**
   * No synced batch is ever lost: what was certain to survive stays a prefix of the history, and the history is what
   * an open database reads.
   */
  lemma {:induction false} SyncedSurvives(states: seq<Sys>, actions: seq<Action>, i: nat, j: nat)
    requires IsRun(states, actions) && i <= j && AllHarmless(states, actions, j)
    ensures states[i].synced <= states[j].synced <= |states[j].h|
    ensures states[i].synced <= |states[i].h| && states[i].h[..states[i].synced] <= states[j].h
    ensures states[j].proc.Up? && states[j].proc.pc.Idle? ==> ReadsHistory(states[j])
  {
    hide Next;
    hide Init;
    hide Harmless;
    hide ReadsHistory;
    RunSynced(states, actions, i);
    if i < j {
      SyncedSurvives(states, actions, i, j - 1);
      RunSynced(states, actions, j);
      SyncedStep(states[j - 1], states[j], actions[j - 1]);
      assert states[i].h[..states[i].synced] == states[j - 1].h[..states[i].synced];
    }
    if states[j].proc.Up? && states[j].proc.pc.Idle? {
      CrashSafe(states, actions, j);
    }
  }

  lemma {:induction false} RunSynced(states: seq<Sys>, actions: seq<Action>, n: nat)
    requires IsRun(states, actions) && AllHarmless(states, actions, n)
    ensures states[n].synced <= |states[n].h|
  {
    RunKeeps(states, actions, n);
    hide ViewOk;
    hide RecoveringOk;
    hide UpOk;
    hide InOrder;
  }

  lemma {:induction false} SyncedStep(s: Sys, s': Sys, a: Action)
    requires Next(s, s', a) && s.synced <= |s.h|
    ensures s.synced <= s'.synced && s.h[..s.synced] <= s'.h
  {
    hide TornAfter;
  }

  // ----- files that are not reused -----

  /** The log and the manifest in use have no leftover with data. */
  predicate Clean(s: Sys) {
    && (s.proc.Up? ==> Leftover(s, s.proc.log) == [])
    && ((s.proc.Up? || s.proc.Recovering?) && s.proc.v.open ==> s.proc.v.manifest !in s.torn.manifests)
    && NewManifestWhole(s)
  }

  /** A log or a manifest is taken up only if it does not end in a leftover with data. */
  predicate TakesClean(s: Sys, a: Action) {
    && (a.ReuseLog? && s.proc.Recovering? ==> Leftover(s, s.proc.pos) == [])
    && (a.Open? && a.reuse ==> s.disk.current !in s.torn.manifests)
  }

  lemma {:induction false} CleanKeeps(s: Sys, s': Sys, a: Action)
    requires Clean(s) && Next(s, s', a) && TakesClean(s, a)
    ensures Clean(s')
  {
    hide LiveFiles;
    hide ReadFiles;
    hide ReadMeta;
    hide WriteRecord;
    hide InputsOk;
    hide IsOutput;
    hide Merged;
    hide Plus;
    hide NewTable;
    hide InstallEdit;
    hide SnapshotRecord;
    hide Cut;
    hide WithLog;
    WholeKeeps(s, s', a);
    assert a.Crash? ==> s'.proc.Down? by { CrashedDown(s, s', a); }
  }

  /** With clean files a batch reads as itself and an edit as it is. */
  lemma {:induction false} CleanReads(s: Sys, s': Sys, a: Action)
    requires Clean(s) && Inv(s) && Next(s, s', a) && (a.Flush? ==> FlushInOrder(s, a.level, a.size))
    ensures Harmless(s, a)
  {
    hide Inv;
    hide TornAfter;
    hide LiveFiles;
    hide EditReadsBack;
    hide WriteRecord;
    hide FlushInOrder;
    match a {
      case Batch(batch) => assert ReadsBack(s, batch);
      case LogAndApply(read) => CleanEdit(s, s'.(torn := s.torn), read);
      case _ =>
    }
  }

  lemma {:induction false} CleanEdit(s: Sys, s': Sys, read: Option<Record>)
    requires Clean(s) && Inv(s) && LoggingStep(s, s', read)
    ensures EditReadsBack(s, read)
  {
    hide Inv;
    hide LiveFiles;
    hide EditReadsBack;
    if s.proc.pc.stage.Begin? && s.proc.v.open {
      MeantRead(s);
    } else {
      NoEdit(s, read);
    }
  }

  lemma {:induction false} NoEdit(s: Sys, read: Option<Record>)
    requires s.proc.Up? && s.proc.pc.Logging? && !(s.proc.pc.stage.Begin? && s.proc.v.open)
    ensures EditReadsBack(s, read)
  {
  }

  /**
   * A run that never goes on with a log or a manifest behind a leftover with data, and whose flushes keep the order,
   * does no harm.
   */
  lemma {:induction false} NeverReused(states: seq<Sys>, actions: seq<Action>, n: nat)
    requires IsRun(states, actions) && n <= |actions|
    requires forall i :: 0 <= i < |actions| ==> TakesClean(states[i], actions[i])
    requires forall i :: 0 <= i < |actions| && actions[i].Flush? ==> FlushInOrder(states[i], actions[i].level, actions[i].size)
    ensures AllHarmless(states, actions, n) && Clean(states[n])
  {
    hide Next;
    hide Harmless;
    hide Inv;
    hide FlushInOrder;
    hide TakesClean;
    if n == 0 {
      hide Clean;
      InitClean(states[0]);
    } else {
      NeverReused(states, actions, n - 1);
      hide Clean;
      RunKeeps(states, actions, n - 1);
      CleanReads(states[n - 1], states[n], actions[n - 1]);
      CleanKeeps(states[n - 1], states[n], actions[n - 1]);
    }
  }

  lemma {:induction false} InitClean(s: Sys)
    requires Init(s)
    ensures Clean(s)
  {
  }

  // ----- recovery gets through -----

  ghost predicate Reaches(s: Sys, t: Sys, actions: seq<Action>)
    decreases |actions|
  {
    if actions == [] then s == t else exists r :: Next(s, r, actions[0]) && Reaches(r, t, actions[1..])
  }

  lemma {:induction false} ReachesFirst(s: Sys, r: Sys, t: Sys, a: Action, actions: seq<Action>)
    requires Next(s, r, a) && Reaches(r, t, actions)
    ensures Reaches(s, t, [a] + actions)
  {
    hide Next;
    assert ([a] + actions)[1..] == actions;
  }

  /** From any crash recovery can run to an open database that has lost nothing of what the crash left. */
  lemma {:induction false} RecoveryCompletes(s: Sys) returns (t: Sys, actions: seq<Action>)
    requires Inv(s) && s.proc.Down?
    ensures Reaches(s, t, actions) && t.proc.Up? && t.proc.pc.Idle? && t.h == s.h && Inv(t)
  {
    hide Inv;
    hide Reaches;
    hide Next;
    var r := OpenCompletes(s);
    NextKeeps(s, r, Open(false));
    t, actions := ReadingCompletes(r);
    ReachesFirst(s, r, t, Open(false), actions);
    actions := [Open(false)] + actions;
  }

  lemma {:induction false} OpenCompletes(s: Sys) returns (r: Sys)
    requires Inv(s) && s.proc.Down?
    ensures Next(s, r, Open(false)) && r.proc.Recovering? && r.h == s.h
  {
    hide ViewOk;
    hide LogsOk;
    hide ReadFiles;
    hide ReadMeta;
    hide UpOk;
    hide RecoveringOk;
    var recs := s.disk.manifests[s.disk.current];
    var m := ReadMeta(recs);
    var v := VSet(ReadFiles(recs), m.logNum.value, m.nextFile.value + 1, m.lastSeq.value, m.nextFile.value, false);
    r := s.(proc := Recovering(v, v.logNum, 0, [], [], false, 0));
    assert OpenStep(s, r, false);
  }

  lemma {:induction false} RecoveringFacts(s: Sys)
    requires Inv(s) && s.proc.Recovering?
    ensures |s.proc.v.files| == NUM_LEVELS && s.proc.ix <= |RecsAt(s.disk.logs, s.proc.pos)| && s.proc.pos <= s.top
    ensures s.proc.ix < |RecsAt(s.disk.logs, s.proc.pos)| ==> RecsAt(s.disk.logs, s.proc.pos)[s.proc.ix].seqno > 0
  {
    hide DiskOk;
    hide Serving;
    hide LogsFrom;
    hide Plus;
    hide InOrder;
    var p, j := s.proc, |s.h| - Unread(s);
    var recs := RecsAt(s.disk.logs, p.pos);
    if p.ix < |recs| {
      Ordered(s);
      NextRecord(s.h, j, recs, p.ix, LogsFrom(s.disk.logs, p.pos + 1, s.top));
      InOrderAt(s.h, j);
    }
  }

  lemma {:induction false} ReadingCompletes(s: Sys) returns (t: Sys, actions: seq<Action>)
    requires Inv(s) && s.proc.Recovering?
    ensures Reaches(s, t, actions) && t.proc.Up? && t.proc.pc.Idle? && t.h == s.h && Inv(t)
    decreases if s.proc.pos <= s.top then s.top - s.proc.pos else 0,
              if s.proc.ix <= |RecsAt(s.disk.logs, s.proc.pos)| then |RecsAt(s.disk.logs, s.proc.pos)| - s.proc.ix else 0,
              |s.proc.mem|
  {
    hide Inv;
    hide Reaches;
    hide WriteRecord;
    hide Plus;
    RecoveringFacts(s);
    var p, recs := s.proc, RecsAt(s.disk.logs, s.proc.pos);
    if p.ix < |recs| {
      var mem' := WriteRecord(State(p.mem, [], Plus(p.v.files, p.added), p.v.next, 0), recs[p.ix]).mem;
      var r := s.(proc := p.(mem := mem', ix := p.ix + 1, maxSeq := Max(p.maxSeq, End(recs[p.ix]))));
      assert ReadStep(s, r);
      NextKeeps(s, r, ReadRecord);
      t, actions := ReadingCompletes(r);
      ReachesFirst(s, r, t, ReadRecord, actions);
      actions := [ReadRecord] + actions;
    } else if p.mem != [] {
      var f := NewTable(p.v.next, 0, p.mem);
      var r := s.(disk := s.disk.(tables := s.disk.tables[f.num := f.entries]),
                  proc := p.(mem := [], added := p.added + [f], dumped := true, v := p.v.(next := p.v.next + 1)));
      assert DumpStep(s, r, 0);
      NextKeeps(s, r, Dump(0));
      t, actions := ReadingCompletes(r);
      ReachesFirst(s, r, t, Dump(0), actions);
      actions := [Dump(0)] + actions;
    } else if p.pos < s.top {
      var r := s.(proc := p.(pos := p.pos + 1, ix := 0, dumped := false,
                             v := if p.pos in s.disk.logs then MarkUsed(p.v, p.pos) else p.v));
      assert NextLogStep(s, r);
      NextKeeps(s, r, NextLog);
      t, actions := ReadingCompletes(r);
      ReachesFirst(s, r, t, NextLog, actions);
      actions := [NextLog] + actions;
    } else {
      var n := p.v.next;
      var r := s.(disk := s.disk.(logs := s.disk.logs[n := []]), top := n + 1, synced := |s.h|,
                  proc := Opened(p, p.v.(next := n + 1), n), torn := TornAfter(s, NewLog));
      assert NewLogStep(s, r.(torn := s.torn));
      NextKeeps(s, r, NewLog);
      t, actions := LoggingCompletes(r);
      ReachesFirst(s, r, t, NewLog, actions);
      actions := [NewLog] + actions;
    }
  }

  function StageRank(p: Proc): nat
    requires p.Up?
  {
    if !p.pc.Logging? then 0
    else match p.pc.stage case Begin => 5 case Created => 4 case Snapshotted => 3 case Appended => 2 case Switched => 1
  }

  lemma {:induction false} LoggingFacts(s: Sys)
    requires Inv(s) && s.proc.Up? && s.proc.pc.Logging?
    ensures |s.proc.v.files| == NUM_LEVELS && s.proc.pc.rec.logNum.Some?
    ensures s.proc.pc.stage != Begin || s.proc.v.open ==> s.proc.v.manifest in s.disk.manifests
    ensures Appends(s.proc) && !s.proc.v.open ==> s.proc.v.manifest !in s.torn.manifests
    ensures s.proc.pc.stage.Begin? && s.proc.v.open ==>
              s.proc.v.manifest == s.disk.current && s.proc.pc.rec.nextFile.Some? && s.proc.pc.rec.lastSeq.Some?
  {
    hide Serving;
    hide StandsFor;
    hide Durable;
    hide Unadded;
    hide AddsOnce;
    hide AddsBelow;
    hide LiveFiles;
    hide ReadFiles;
    hide ReadMeta;
    hide LogsOk;
  }

  lemma {:induction false} LoggingCompletes(s: Sys) returns (t: Sys, actions: seq<Action>)
    requires Inv(s) && s.proc.Up? && !s.proc.pc.Writing?
    ensures Reaches(s, t, actions) && t.proc.Up? && t.proc.pc.Idle? && t.h == s.h && Inv(t)
    decreases StageRank(s.proc)
  {
    hide Inv;
    hide LiveFiles;
    if s.proc.pc.Idle? {
      return s, [];
    }
    LoggingFacts(s);
    var a := Action.LogAndApply(Some(ToAppend(s.proc)));
    var r := LoggedStep(s);
    assert Harmless(s, a) by { MeantRead(s); }
    hide Harmless;
    NextKeeps(s, r, a);
    t, actions := LoggingCompletes(r);
    ReachesFirst(s, r, t, a, actions);
    actions := [a] + actions;
  }

  lemma {:induction false} MeantRead(s: Sys)
    requires Inv(s) && s.proc.Up? && s.proc.pc.Logging?
    ensures EditReadsBack(s, Some(ToAppend(s.proc)))
  {
    hide Inv;
    hide ReadMeta;
    hide ReadFiles;
    LoggingFacts(s);
    if s.proc.pc.stage.Begin? && s.proc.v.open {
      LastRecord(s.disk.manifests[s.disk.current], s.proc.pc.rec);
    }
  }

  /** The next step of log_and_apply, with the record read as it is. */
  lemma {:induction false} LoggedStep(s: Sys) returns (r: Sys)
    requires Inv(s) && s.proc.Up? && s.proc.pc.Logging?
    ensures Next(s, r, LogAndApply(Some(ToAppend(s.proc)))) && r.proc.Up? && r.h == s.h && StageRank(r.proc) < StageRank(s.proc)
    ensures !r.proc.pc.Writing?
  {
    hide Inv;
    hide LiveFiles;
    hide SnapshotRecord;
    LoggingFacts(s);
    var p, d, v, rec := s.proc, s.disk, s.proc.v, s.proc.pc.rec;
    var read, a := Some(ToAppend(p)), Action.LogAndApply(Some(ToAppend(p)));
    r := match p.pc.stage
      case Begin =>
        if v.open then s.(disk := Written(d, v.manifest, read), proc := p.(pc := Logging(rec, Appended)))
        else s.(disk := d.(manifests := d.manifests[v.manifest := []]), proc := p.(pc := Logging(rec, Created)))
      case Created => s.(disk := Written(d, v.manifest, read), proc := p.(pc := Logging(rec, Snapshotted)))
      case Snapshotted => s.(disk := Written(d, v.manifest, read), proc := p.(pc := Logging(rec, Appended)))
      case Appended => s.(disk := d.(current := v.manifest), proc := p.(pc := Logging(rec, Switched)))
      case Switched =>
        s.(proc := p.(v := v.(files := LiveFiles(v.files, rec.edit), logNum := rec.logNum.value, open := true), pc := Idle));
    assert LoggingStep(s, r, read);
    r := r.(torn := TornAfter(s, a));
    assert Step(s, r.(torn := s.torn), a);
  }
}
