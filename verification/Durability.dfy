/**
 * The durability protocol as a state machine with a crash allowed between any two steps: the write-ahead logs, the
 * tables, the manifests and CURRENT on disk; the process that writes, flushes, compacts, records versions and
 * deletes obsolete files; and recovery. A crash may cut the record being written between two fragments; what is left
 * of it stays in the file and spoils the next record if the file is written on (src/db_impl.rs, src/version_set.rs,
 * src/log.rs).
 */
module Durability {
  import opened Bytes
  import opened Entries
  import opened Version
  import opened VersionBuilder
  import opened Store
  import opened StoreSteps
  import opened WriteSteps
  import opened Database
  import opened Manifest
  import opened History
  import opened WriteBatches

  /** What survives a crash. Files are keyed by number within each kind. */
  datatype Disk = Disk(tables: map<nat, seq<Entry>>, logs: map<nat, seq<LogRecord>>,
                       manifests: map<nat, seq<Record>>, current: nat)

  /** The version set: current version, counters, and whether the manifest numbered here is open for appending. */
  datatype VSet = VSet(files: seq<seq<File>>, logNum: nat, next: nat, lastSeq: nat, manifest: nat, open: bool)

  /** How far log_and_apply has come. */
  datatype Stage = Begin | Created | Snapshotted | Appended | Switched

  datatype Pc = Idle | Writing(rec: Record, todo: seq<File>) | Logging(rec: Record, stage: Stage)

  datatype Proc =
    | Down
    | Recovering(v: VSet, pos: nat, ix: nat, mem: seq<Entry>, added: seq<File>, dumped: bool, maxSeq: nat)
    | Up(v: VSet, log: nat, mem: seq<Entry>, imm: seq<Entry>, pc: Pc)

  /** What cuts have left at the end of logs, and the manifests that end in a leftover. */
  datatype Torn = Torn(logs: map<nat, Bytes>, manifests: set<nat>)

  /**
   * The whole system. For specification: h, the batches written so far that no crash has lost; how many of them are
   * certain to survive a crash; and one more than the highest log number.
   */
  datatype Sys = Sys(disk: Disk, proc: Proc, h: seq<LogRecord>, synced: nat, top: nat, torn: Torn)

  // ----- logs in ascending order -----

  function RecsAt(logs: map<nat, seq<LogRecord>>, n: nat): seq<LogRecord> {
    if n in logs then logs[n] else []
  }

  /** The records of the logs numbered from lo up to but not including hi, in order. */
  function LogsFrom(logs: map<nat, seq<LogRecord>>, lo: nat, hi: nat): seq<LogRecord> {
    if lo >= hi then [] else LogsFrom(logs, lo, hi - 1) + RecsAt(logs, hi - 1)
  }

  lemma {:induction false} LogsSplit(logs: map<nat, seq<LogRecord>>, lo: nat, mid: nat, hi: nat)
    requires lo <= mid <= hi
    ensures LogsFrom(logs, lo, hi) == LogsFrom(logs, lo, mid) + LogsFrom(logs, mid, hi)
  {
    if mid < hi {
      LogsSplit(logs, lo, mid, hi - 1);
    }
  }

  lemma {:induction false} LogsAgree(a: map<nat, seq<LogRecord>>, b: map<nat, seq<LogRecord>>, lo: nat, hi: nat)
    requires forall n :: lo <= n < hi ==> RecsAt(a, n) == RecsAt(b, n)
    ensures LogsFrom(a, lo, hi) == LogsFrom(b, lo, hi)
  {
    if lo < hi {
      LogsAgree(a, b, lo, hi - 1);
    }
  }

  lemma {:induction false} LogsNone(logs: map<nat, seq<LogRecord>>, lo: nat, hi: nat)
    requires forall n :: lo <= n < hi ==> n !in logs
    ensures LogsFrom(logs, lo, hi) == []
  {
    if lo < hi {
      LogsNone(logs, lo, hi - 1);
    }
  }

  // ----- steps -----

  /** The files with recovered tables added to level 0. */
  function Plus(files: seq<seq<File>>, added: seq<File>): (r: seq<seq<File>>)
    requires |files| == NUM_LEVELS
    ensures |r| == NUM_LEVELS
  {
    files[0 := SortFiles(files[0] + added)]
  }

  function Max(a: nat, b: nat): nat {
    if a < b then b else a
  }

  function NewTable(num: nat, size: nat, mem: seq<Entry>): File
    requires mem != []
  {
    File(num, size, mem[0].key, mem[|mem| - 1].key, mem)
  }

  /** Recovery starts: the manifest named by CURRENT is read, and appended to later or replaced by a new one. */
  ghost predicate OpenStep(s: Sys, s': Sys, reuse: bool) {
    && s.proc.Down?
    && s.disk.current in s.disk.manifests
    && var recs := s.disk.manifests[s.disk.current];
    && var m := ReadMeta(recs);
    && m.logNum.Some? && m.nextFile.Some? && m.lastSeq.Some?
    && var v := VSet(ReadFiles(recs), m.logNum.value, m.nextFile.value + 1, m.lastSeq.value,
                     if reuse then s.disk.current else m.nextFile.value, reuse);
    s' == s.(proc := Recovering(v, v.logNum, 0, [], [], false, 0))
  }

  /** The next record of the log being read goes into the memtable. */
  ghost predicate ReadStep(s: Sys, s': Sys) {
    && s.proc.Recovering?
    && var p := s.proc;
    && |p.v.files| == NUM_LEVELS
    && p.ix < |RecsAt(s.disk.logs, p.pos)|
    && var r := RecsAt(s.disk.logs, p.pos)[p.ix];
    && r.seqno > 0
    && s' == s.(proc := p.(mem := WriteRecord(State(p.mem, [], Plus(p.v.files, p.added), p.v.next, 0), r).mem,
                           ix := p.ix + 1, maxSeq := Max(p.maxSeq, End(r))))
  }

  /** The memtable is written to a table of level 0, which goes into the edit to be recorded. */
  ghost predicate DumpStep(s: Sys, s': Sys, size: nat) {
    && s.proc.Recovering?
    && var p := s.proc;
    && p.mem != []
    && var f := NewTable(p.v.next, size, p.mem);
    && s' == s.(disk := s.disk.(tables := s.disk.tables[f.num := f.entries]),
                proc := p.(mem := [], added := p.added + [f], dumped := true, v := p.v.(next := p.v.next + 1)))
  }

  function MarkUsed(v: VSet, n: nat): VSet {
    v.(next := Max(v.next, n + 1))
  }

  ghost predicate NextLogStep(s: Sys, s': Sys) {
    && s.proc.Recovering?
    && var p := s.proc;
    && p.pos < s.top && p.ix == |RecsAt(s.disk.logs, p.pos)| && p.mem == []
    && s' == s.(proc := p.(pos := p.pos + 1, ix := 0, dumped := false,
                           v := if p.pos in s.disk.logs then MarkUsed(p.v, p.pos) else p.v))
  }

  /** Recovery ends with a log to write to; the recovered tables are recorded unless there is nothing to record. */
  function Opened(p: Proc, v: VSet, log: nat): Proc
    requires p.Recovering?
  {
    var v' := v.(lastSeq := Max(v.lastSeq, p.maxSeq));
    var edit := FileEdit({}, seq(|p.added|, i requires 0 <= i < |p.added| => (0, p.added[i])));
    var rec := Record(edit, Some(log), Some(v'.next), Some(v'.lastSeq));
    Up(v', log, p.mem, [], if v.open && p.added == [] then Idle else Logging(rec, Begin))
  }

  /** The last log is kept for writing, if nothing of it was dumped. */
  ghost predicate ReuseLogStep(s: Sys, s': Sys) {
    && s.proc.Recovering?
    && var p := s.proc;
    && p.pos + 1 == s.top && p.ix == |RecsAt(s.disk.logs, p.pos)| && !p.dumped
    && s' == s.(proc := Opened(p, MarkUsed(p.v, p.pos), p.pos))
  }

  ghost predicate NewLogStep(s: Sys, s': Sys) {
    && s.proc.Recovering?
    && var p := s.proc;
    && p.pos >= s.top && p.mem == []
    && var n := p.v.next;
    && s' == s.(disk := s.disk.(logs := s.disk.logs[n := []]), top := n + 1, synced := |s.h|,
                proc := Opened(p, p.v.(next := n + 1), n))
  }

  /** The leftover at the end of a log. */
  function Leftover(s: Sys, log: nat): Bytes {
    if log in s.torn.logs then s.torn.logs[log] else []
  }

  function RecordFor(p: Proc, batch: seq<Write>): LogRecord
    requires p.Up?
  {
    LogRecord(p.v.lastSeq + 1, batch)
  }

  /** A batch goes to the memtable and the log, where it is merged with a leftover. */
  ghost predicate WriteStep(s: Sys, s': Sys, batch: seq<Write>) {
    && s.proc.Up? && s.proc.pc.Idle? && s.proc.imm == [] && s.proc.log in s.disk.logs
    && var p := s.proc;
    && p.v.lastSeq + |batch| < MAX_SEQUENCE_NUMBER
    && var r := RecordFor(p, batch);
    && s' == s.(h := s.h + [r],
                disk := s.disk.(logs := s.disk.logs[p.log := s.disk.logs[p.log] + [Merged(Leftover(s, p.log), r)]]),
                proc := p.(mem := WriteRecord(State(p.mem, [], p.v.files, p.v.next, 0), r).mem,
                           v := p.v.(lastSeq := p.v.lastSeq + |batch|)))
  }

  ghost predicate SyncStep(s: Sys, s': Sys) {
    s.proc.Up? && s' == s.(synced := |s.h|)
  }

  predicate CanRotate(p: Proc) {
    p.Up? && p.pc.Idle? && p.imm == [] && p.mem != []
  }

  /** A new log is created and the memtable becomes immutable; closing the old log writes out its buffer. */
  ghost predicate RotateStepOf(s: Sys, s': Sys) {
    && CanRotate(s.proc)
    && var p := s.proc;
    && var n := p.v.next;
    && s' == s.(disk := s.disk.(logs := s.disk.logs[n := []]), top := n + 1, synced := |s.h|,
                proc := p.(log := n, mem := [], imm := p.mem, v := p.v.(next := n + 1)))
  }

  /** A flush starts: a table of the immutable memtable, and an edit that moves the log number past its log. */
  ghost predicate FlushStart(s: Sys, s': Sys, level: nat, size: nat) {
    && s.proc.Up? && s.proc.pc.Idle? && s.proc.imm != []
    && var p := s.proc;
    && var f := NewTable(p.v.next, size, p.imm);
    && |p.v.files| == NUM_LEVELS && level < NUM_LEVELS
    && var rec := Record(FileEdit({}, [(level, f)]), Some(p.log), Some(p.v.next + 1), Some(p.v.lastSeq));
    && s' == s.(proc := p.(imm := [], v := p.v.(next := p.v.next + 1), pc := Writing(rec, [f])))
  }

  ghost predicate CompactStart(s: Sys, s': Sys, level: nat, in0: seq<File>, in1: seq<File>, outs: seq<File>) {
    && s.proc.Up? && s.proc.pc.Idle? && s.proc.imm == []
    && var p := s.proc;
    && |p.v.files| == NUM_LEVELS && InputsOk(p.v.files, level, in0, in1)
    && IsOutput(State(p.mem, [], p.v.files, p.v.next, p.v.lastSeq), level, in0, in1, outs)
    && var next := p.v.next + |outs|;
    && var rec := Record(InstallEdit(level, in0, in1, outs), Some(p.v.logNum), Some(next), Some(p.v.lastSeq));
    && s' == s.(proc := p.(v := p.v.(next := next), pc := Writing(rec, outs)))
  }

  ghost predicate MoveStart(s: Sys, s': Sys, level: nat, f: File) {
    && s.proc.Up? && s.proc.pc.Idle? && s.proc.imm == []
    && var p := s.proc;
    && |p.v.files| == NUM_LEVELS && InputsOk(p.v.files, level, [f], [])
    && var rec := Record(InstallEdit(level, [f], [], [f]), Some(p.v.logNum), Some(p.v.next), Some(p.v.lastSeq));
    && s' == s.(proc := p.(pc := Writing(rec, [])))
  }

  ghost predicate TableStep(s: Sys, s': Sys) {
    && s.proc.Up? && s.proc.pc.Writing?
    && var p := s.proc;
    && s' == if p.pc.todo == [] then s.(proc := p.(pc := Logging(p.pc.rec, Begin)))
             else
               var f := p.pc.todo[0];
               s.(disk := s.disk.(tables := s.disk.tables[f.num := f.entries]),
                  proc := p.(pc := Writing(p.pc.rec, p.pc.todo[1..])))
  }

  /** A record is being appended to the manifest. */
  predicate Appends(p: Proc) {
    p.Up? && p.pc.Logging? && (p.pc.stage in {Created, Snapshotted} || (p.pc.stage.Begin? && p.v.open))
  }

  /** The record: the snapshot that a new manifest begins with, or the edit's. */
  function ToAppend(p: Proc): Record
    requires p.Up? && p.pc.Logging?
  {
    if p.pc.stage.Created? then SnapshotRecord(p.v.files) else p.pc.rec
  }

  /** A manifest with what a reader gets of one more record; one that cannot be read is as good as gone. */
  function Written(d: Disk, n: nat, read: Option<Record>): Disk {
    if n !in d.manifests then d
    else if read.None? then d.(manifests := d.manifests - {n})
    else d.(manifests := d.manifests[n := d.manifests[n] + [read.value]])
  }

  /** One step of log_and_apply. A record appended behind a leftover reads as anything, any other one as it is. */
  ghost predicate LoggingStep(s: Sys, s': Sys, read: Option<Record>) {
    && s.proc.Up? && s.proc.pc.Logging?
    && var p, d, v, rec := s.proc, s.disk, s.proc.v, s.proc.pc.rec;
    && |v.files| == NUM_LEVELS && rec.logNum.Some?
    && (Appends(p) && v.manifest !in s.torn.manifests ==> read == Some(ToAppend(p)))
    && match p.pc.stage
       case Begin =>
         if v.open then s' == s.(disk := Written(d, v.manifest, read), proc := p.(pc := Logging(rec, Appended)))
         else s' == s.(disk := d.(manifests := d.manifests[v.manifest := []]), proc := p.(pc := Logging(rec, Created)))
       case Created => s' == s.(disk := Written(d, v.manifest, read), proc := p.(pc := Logging(rec, Snapshotted)))
       case Snapshotted => s' == s.(disk := Written(d, v.manifest, read), proc := p.(pc := Logging(rec, Appended)))
       case Appended => s' == s.(disk := d.(current := v.manifest), proc := p.(pc := Logging(rec, Switched)))
       case Switched =>
         s' == s.(proc := p.(v := v.(files := LiveFiles(v.files, rec.edit), logNum := rec.logNum.value, open := true),
                             pc := Idle))
  }

  /** One deletion of an obsolete file. */
  ghost predicate DeleteStep(s: Sys, s': Sys, kind: FileKind, n: nat) {
    && s.proc.Up? && s.proc.pc.Idle?
    && var d, v := s.disk, s.proc.v;
    && |v.files| == NUM_LEVELS
    && match kind
       case Log => n < v.logNum && s' == s.(disk := d.(logs := d.logs - {n}))
       case Manifest => n < v.manifest && s' == s.(disk := d.(manifests := d.manifests - {n}))
       case Table => (forall l, f: File :: 0 <= l < NUM_LEVELS && f in v.files[l] ==> f.num != n)
                     && s' == s.(disk := d.(tables := d.tables - {n}))
  }

  datatype FileKind = Log | Manifest | Table

  /**
   * A crash loses the process and any part of the last log's records that was not synced. One that comes while the
   * memtables are switched may leave the new log behind, which is created before the old one's buffer is written out.
   */
  ghost predicate CrashStep(s: Sys, s': Sys, keep: nat, creates: bool) {
    && s.synced <= keep <= |s.h|
    && (creates ==> CanRotate(s.proc))
    && (keep < |s.h| ==> s.top > 0 && |s.h| - keep <= |RecsAt(s.disk.logs, s.top - 1)|)
    && s' == if creates then WithLog(Cut(s, keep), s.proc.v.next) else Cut(s, keep)
  }

  function Cut(s: Sys, keep: nat): Sys {
    var last := if s.top > 0 then RecsAt(s.disk.logs, s.top - 1) else [];
    var lost := |s.h| - keep;
    if lost <= 0 || lost > |last| then s.(proc := Down, synced := keep)
    else s.(proc := Down, h := s.h[..keep], synced := keep,
            disk := s.disk.(logs := s.disk.logs[s.top - 1 := last[..|last| - lost]]))
  }

  function WithLog(s: Sys, n: nat): Sys {
    s.(disk := s.disk.(logs := s.disk.logs[n := []]), top := n + 1)
  }

  /** What a step leaves of the leftovers: a crash makes them, a new file and a written record end them. */
  function TornAfter(s: Sys, a: Action): Torn {
    match a
    case Crash(keep, part, tears, _) =>
      Torn(if keep < |s.h| && s.top > 0 then s.torn.logs[s.top - 1 := part] else s.torn.logs,
           if tears && Appends(s.proc) then s.torn.manifests + {s.proc.v.manifest} else s.torn.manifests)
    case NewLog => if s.proc.Down? then s.torn else s.torn.(logs := s.torn.logs - {s.proc.v.next})
    case Rotate => if s.proc.Down? then s.torn else s.torn.(logs := s.torn.logs - {s.proc.v.next})
    case Batch(batch) => if s.proc.Up? then s.torn.(logs := s.torn.logs - {s.proc.log}) else s.torn
    case LogAndApply(_) =>
      if s.proc.Up? && s.proc.pc.Logging? && s.proc.pc.stage in {Begin, Created, Snapshotted}
      then s.torn.(manifests := s.torn.manifests - {s.proc.v.manifest}) else s.torn
    case Open(_) => s.torn
    case ReadRecord => s.torn
    case Dump(_) => s.torn
    case NextLog => s.torn
    case ReuseLog => s.torn
    case Sync => s.torn
    case Flush(_, _) => s.torn
    case Compact(_, _, _, _) => s.torn
    case Move(_, _) => s.torn
    case WriteTable => s.torn
    case Delete(_, _) => s.torn
  }

  /**
   * A crash keeps so many batches, leaves part of the first one lost in the log (any bytes; the fragments of a writer
   * leave a proper prefix of its encoding), may cut a record that is being appended to a manifest, and may leave the
   * new log of a memtable switch behind.
   */
  datatype Action =
    | Crash(keep: nat, part: Bytes, tears: bool, creates: bool)
    | Open(reuse: bool)
    | ReadRecord
    | Dump(size: nat)
    | NextLog
    | ReuseLog
    | NewLog
    | Batch(batch: seq<Write>)
    | Sync
    | Rotate
    | Flush(level: nat, size: nat)
    | Compact(level: nat, in0: seq<File>, in1: seq<File>, outs: seq<File>)
    | Move(level: nat, f: File)
    | WriteTable
    | LogAndApply(read: Option<Record>)
    | Delete(kind: FileKind, n: nat)

  ghost predicate Next(s: Sys, s': Sys, a: Action) {
    s'.torn == TornAfter(s, a) && Step(s, s'.(torn := s.torn), a)
  }

  /** What a step does but for the leftovers. */
  ghost predicate Step(s: Sys, s': Sys, a: Action) {
    match a
    case Crash(keep, _, _, creates) => CrashStep(s, s', keep, creates)
    case Open(reuse) => OpenStep(s, s', reuse)
    case ReadRecord => ReadStep(s, s')
    case Dump(size) => DumpStep(s, s', size)
    case NextLog => NextLogStep(s, s')
    case ReuseLog => ReuseLogStep(s, s')
    case NewLog => NewLogStep(s, s')
    case Batch(batch) => WriteStep(s, s', batch)
    case Sync => SyncStep(s, s')
    case Rotate => RotateStepOf(s, s')
    case Flush(level, size) => FlushStart(s, s', level, size)
    case Compact(level, in0, in1, outs) => CompactStart(s, s', level, in0, in1, outs)
    case Move(level, f) => MoveStart(s, s', level, f)
    case WriteTable => TableStep(s, s')
    case LogAndApply(read) => LoggingStep(s, s', read)
    case Delete(kind, n) => DeleteStep(s, s', kind, n)
  }

  /** A batch written to a log reads as itself: there is no leftover with data, or it does no harm. */
  predicate ReadsBack(s: Sys, batch: seq<Write>) {
    s.proc.Up? ==> Merged(Leftover(s, s.proc.log), RecordFor(s.proc, batch)) == RecordFor(s.proc, batch)
  }

  /** An edit appended to the manifest in use reads as the version that it is meant to make. */
  ghost predicate EditReadsBack(s: Sys, read: Option<Record>) {
    s.proc.Up? && s.proc.pc.Logging? && s.proc.pc.stage.Begin? && s.proc.v.open && s.disk.current in s.disk.manifests ==>
      && var recs, rec := s.disk.manifests[s.disk.current], s.proc.pc.rec;
      && read.Some? && Complete(recs + [read.value]) && Complete(recs + [rec])
      && ViewOf(recs + [read.value]) == ViewOf(recs + [rec])
  }

  /** A flush puts its table where it keeps the order of the layers. */
  ghost predicate FlushInOrder(s: Sys, level: nat, size: nat) {
    s.proc.Up? && s.proc.imm != [] && |s.proc.v.files| == NUM_LEVELS && level < NUM_LEVELS ==>
      KeepsOrder(s.proc.v.files, level, NewTable(s.proc.v.next, size, s.proc.imm))
  }

  /** What can go wrong in a step does not. */
  ghost predicate Harmless(s: Sys, a: Action) {
    match a
    case Batch(batch) => ReadsBack(s, batch)
    case LogAndApply(read) => EditReadsBack(s, read)
    case Flush(level, size) => FlushInOrder(s, level, size)
    case _ => true
  }

  /** A new database: one manifest with an empty version. */
  ghost predicate Init(s: Sys) {
    s == Sys(Disk(map[], map[], map[1 := [Record(FileEdit({}, []), Some(0), Some(2), Some(0))]], 1), Down, [], 0, 0,
             Torn(map[], {}))
  }

  // ----- the invariant -----

  /** Memtables and files together read as the map that h describes. */
  ghost predicate Serving(mem: seq<Entry>, imm: seq<Entry>, files: seq<seq<File>>, next: nat, h: seq<LogRecord>) {
    && |files| == NUM_LEVELS
    && StoreOk(State(mem, imm, files, next, Last(h)))
    && Holds(State(mem, imm, files, next, Last(h)), Described(h))
  }

  ghost predicate TablesHold(tables: map<nat, seq<Entry>>, files: seq<seq<File>>, except: set<nat>)
    requires |files| == NUM_LEVELS
  {
    forall l, f: File :: 0 <= l < NUM_LEVELS && f in files[l] && f.num !in except ==> f.num in tables && tables[f.num] == f.entries
  }

  /** The records that the logs from logNum on hold. */
  function Tail(d: Disk, top: nat, logNum: nat): seq<LogRecord> {
    LogsFrom(d.logs, logNum, top)
  }

  /** A version with the logs from logNum on holds every batch of h, but for tables still to be written. */
  ghost predicate Durable(d: Disk, top: nat, files: seq<seq<File>>, next: nat, logNum: nat, h: seq<LogRecord>, except: set<nat>) {
    var tail := Tail(d, top, logNum);
    && |tail| <= |h| && h[|h| - |tail|..] == tail
    && Serving([], [], files, next, h[..|h| - |tail|])
    && TablesHold(d.tables, files, except)
  }

  datatype View = View(files: seq<seq<File>>, logNum: nat, next: nat, lastSeq: nat)

  ghost predicate Complete(recs: seq<Record>) {
    var m := ReadMeta(recs);
    m.logNum.Some? && m.nextFile.Some? && m.lastSeq.Some?
  }

  function ViewOf(recs: seq<Record>): View
    requires Complete(recs)
  {
    var m := ReadMeta(recs);
    View(ReadFiles(recs), m.logNum.value, m.nextFile.value, m.lastSeq.value)
  }

  ghost predicate LogsOk(s: Sys) {
    && (forall n :: n in s.disk.logs ==> n < s.top)
    && (s.top > 0 ==> s.top - 1 in s.disk.logs)
    && s.synced <= |s.h|
    && (s.synced < |s.h| ==> s.top > 0 && |s.h| - s.synced <= |s.disk.logs[s.top - 1]|)
    && InOrder(s.h)
  }

  /** What a crash leaves is enough: the manifest, its tables and the logs from its log number on. */
  ghost predicate ViewOk(s: Sys, w: View, recs: seq<Record>) {
    && StandsFor(recs, w.files, w.next)
    && Durable(s.disk, s.top, w.files, w.next, w.logNum, s.h, {})
    && s.disk.current < w.next && w.logNum < w.next
    && (w.logNum < s.top || w.logNum == s.top == 0)
    && Last(s.h[..|s.h| - |Tail(s.disk, s.top, w.logNum)|]) <= w.lastSeq < MAX_SEQUENCE_NUMBER
  }

  ghost predicate DiskOk(s: Sys): (ok: bool)
    ensures ok ==> s.disk.current in s.disk.manifests && Complete(s.disk.manifests[s.disk.current])
  {
    && LogsOk(s)
    && s.disk.current in s.disk.manifests
    && Complete(s.disk.manifests[s.disk.current])
    && ViewOk(s, ViewOf(s.disk.manifests[s.disk.current]), s.disk.manifests[s.disk.current])
  }

  function Cur(s: Sys): View
    requires s.disk.current in s.disk.manifests && Complete(s.disk.manifests[s.disk.current])
  {
    ViewOf(s.disk.manifests[s.disk.current])
  }

  /** How many batches recovery has yet to read. */
  function Unread(s: Sys): nat
    requires s.proc.Recovering? && s.proc.ix <= |RecsAt(s.disk.logs, s.proc.pos)|
  {
    |RecsAt(s.disk.logs, s.proc.pos)| - s.proc.ix + |LogsFrom(s.disk.logs, s.proc.pos + 1, s.top)|
  }

  ghost predicate VersionRead(s: Sys, v: VSet)
    requires DiskOk(s)
  {
    && v.files == Cur(s).files && v.logNum == Cur(s).logNum && Cur(s).next < v.next
    && v.lastSeq < MAX_SEQUENCE_NUMBER
    && if v.open then v.manifest == s.disk.current else s.disk.current < v.manifest < v.next
  }

  ghost predicate AddedOk(s: Sys, added: seq<File>, lo: nat, hi: nat) {
    && NumsDistinct(added)
    && forall f :: f in added ==> lo <= f.num < hi && f.num in s.disk.tables && s.disk.tables[f.num] == f.entries
  }

  ghost predicate RecoveringOk(s: Sys)
    requires DiskOk(s) && s.proc.Recovering?
  {
    var p := s.proc;
    && VersionRead(s, p.v)
    && |p.v.files| == NUM_LEVELS
    && AddedOk(s, p.added, Cur(s).next, p.v.next)
    && p.v.logNum <= p.pos <= s.top
    && (forall n :: n in s.disk.logs && n < p.pos ==> n < p.v.next)
    && p.ix <= |RecsAt(s.disk.logs, p.pos)|
    && p.ix + Unread(s) <= |s.h|
    && var j := |s.h| - Unread(s);
    && s.h[j..] == RecsAt(s.disk.logs, p.pos)[p.ix..] + LogsFrom(s.disk.logs, p.pos + 1, s.top)
    && s.h[j - p.ix..j] == RecsAt(s.disk.logs, p.pos)[..p.ix]
    && Serving(p.mem, [], Plus(p.v.files, p.added), p.v.next, s.h[..j])
    && (!p.dumped ==> Serving([], [], Plus(p.v.files, p.added), p.v.next, s.h[..j - p.ix]))
    && Last(s.h[..j]) <= Max(p.v.lastSeq, p.maxSeq) && p.maxSeq < MAX_SEQUENCE_NUMBER
  }

  /** The version that results from the record, with the logs from its log number on, holds every batch. */
  ghost predicate Ready(s: Sys, rec: Record, except: set<nat>)
    requires DiskOk(s) && s.proc.Up?
  {
    var p, v := s.proc, s.proc.v;
    && v.files == Cur(s).files && |v.files| == NUM_LEVELS && v.logNum == Cur(s).logNum
    && rec.logNum.Some? && rec.nextFile == Some(v.next) && rec.lastSeq == Some(v.lastSeq)
    && v.logNum <= rec.logNum.value <= p.log
    && Durable(s.disk, s.top, LiveFiles(v.files, rec.edit), v.next, rec.logNum.value, s.h, except)
    && Serving(p.mem, [], LiveFiles(v.files, rec.edit), v.next, s.h)
    && AddsOnce(rec.edit) && AddsBelow(rec.edit, v.next)
    && Unadded(s.disk.manifests[s.disk.current], rec.edit)
    && Unadded([SnapshotRecord(v.files)], rec.edit)
  }

  ghost predicate Committed(v: VSet, stage: Stage) {
    stage.Switched? || (stage.Appended? && v.open)
  }

  ghost predicate StageOk(s: Sys, rec: Record, stage: Stage)
    requires DiskOk(s) && s.proc.Up?
  {
    var p, d, v := s.proc, s.disk, s.proc.v;
    if Committed(v, stage) then
      && v.manifest == d.current && |v.files| == NUM_LEVELS
      && rec.logNum.Some? && rec.nextFile == Some(v.next)
      && Cur(s).files == LiveFiles(v.files, rec.edit) && Cur(s).logNum == rec.logNum.value <= p.log
      && Cur(s).next == v.next && Cur(s).lastSeq == v.lastSeq
      && Serving(p.mem, [], LiveFiles(v.files, rec.edit), v.next, s.h)
    else
      && Ready(s, rec, {})
      && if v.open then stage.Begin? && v.manifest == d.current
         else
           && d.current < v.manifest < v.next
           && (stage.Created? ==> v.manifest in d.manifests && d.manifests[v.manifest] == [])
           && (stage.Snapshotted? ==> v.manifest in d.manifests && d.manifests[v.manifest] == [SnapshotRecord(v.files)])
           && (stage.Appended? ==> v.manifest in d.manifests && d.manifests[v.manifest] == [SnapshotRecord(v.files), rec])
  }

  /** The tables still to be written have fresh numbers, and the files of those numbers are just these tables. */
  ghost predicate TodoOk(s: Sys, todo: seq<File>, files: seq<seq<File>>)
    requires DiskOk(s) && |files| == NUM_LEVELS
  {
    && (forall f :: f in todo ==> Cur(s).next <= f.num)
    && forall l, f, g: File :: 0 <= l < NUM_LEVELS && f in todo && g in files[l] && g.num == f.num ==> g.entries == f.entries
  }

  ghost predicate IdleOk(s: Sys)
    requires DiskOk(s) && s.proc.Up?
  {
    var p, v := s.proc, s.proc.v;
    && v.open && v.manifest == s.disk.current && v.files == Cur(s).files && v.logNum == Cur(s).logNum <= p.log
    && Serving(p.mem, p.imm, v.files, v.next, s.h)
    && (p.imm != [] ==> p.log in s.disk.logs && |s.disk.logs[p.log]| <= |s.h|
                        && s.h[|s.h| - |s.disk.logs[p.log]|..] == s.disk.logs[p.log]
                        && Serving([], p.imm, v.files, v.next, s.h[..|s.h| - |s.disk.logs[p.log]|]))
  }

  ghost predicate UpOk(s: Sys)
    requires DiskOk(s) && s.proc.Up?
  {
    var p, v := s.proc, s.proc.v;
    && s.top == p.log + 1 && p.log < v.next && Cur(s).next <= v.next
    && Last(s.h) <= v.lastSeq < MAX_SEQUENCE_NUMBER
    && (p.pc != Idle ==> p.imm == [])
    && match p.pc
       case Idle => IdleOk(s)
       case Writing(rec, todo) =>
         && v.open && v.manifest == s.disk.current
         && Ready(s, rec, Nums(todo)) && TodoOk(s, todo, LiveFiles(v.files, rec.edit))
       case Logging(rec, stage) => StageOk(s, rec, stage)
  }

  /** A new manifest that the process writes to does not end in a leftover. */
  predicate NewManifestWhole(s: Sys) {
    s.proc.Up? && s.proc.pc.Logging? && !s.proc.v.open && !s.proc.pc.stage.Begin? ==> s.proc.v.manifest !in s.torn.manifests
  }

  ghost predicate Inv(s: Sys) {
    && DiskOk(s)
    && (s.proc.Recovering? ==> RecoveringOk(s))
    && (s.proc.Up? ==> UpOk(s))
    && NewManifestWhole(s)
  }

  /** The manifest that CURRENT names is complete, and its version with the logs from its log number on holds every batch. */
  ghost predicate Recoverable(s: Sys) {
    && s.disk.current in s.disk.manifests && Complete(s.disk.manifests[s.disk.current])
    && var w := ViewOf(s.disk.manifests[s.disk.current]);
    Durable(s.disk, s.top, w.files, w.next, w.logNum, s.h, {})
  }

  /**
   * The process is in step with the disk: an edit that is being recorded makes, with the memtable, a version that reads
   * as the batches written, and once it is recorded, the manifest that CURRENT names reads as just that version.
   */
  ghost predicate InStep(s: Sys) {
    s.proc.Up? && !s.proc.pc.Idle? ==>
      && var p, v, rec := s.proc, s.proc.v, s.proc.pc.rec;
      && |v.files| == NUM_LEVELS && rec.logNum.Some?
      && Serving(p.mem, [], LiveFiles(v.files, rec.edit), v.next, s.h)
      && (p.pc.Logging? && Committed(v, p.pc.stage) ==>
            && s.disk.current in s.disk.manifests && Complete(s.disk.manifests[s.disk.current])
            && ViewOf(s.disk.manifests[s.disk.current])
               == View(LiveFiles(v.files, rec.edit), rec.logNum.value, v.next, v.lastSeq))
  }
}
