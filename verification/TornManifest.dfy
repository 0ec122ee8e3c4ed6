/**
 * A manifest that ends in a leftover is reused, and the next edit cannot be read behind it: a run of the durability
 * protocol after which a synced batch is on disk but no database opens (src/version_set.rs, src/db_impl.rs).
 */
module TornManifest {
  import opened Bytes
  import opened Entries
  import opened Version
  import opened VersionBuilder
  import opened Manifest
  import opened History
  import opened WriteBatches
  import opened Durability
  import opened CrashSafety
  import opened TornLog

  // ----- the states of the run -----

  /** A system with a batch in log 3, an empty log 4 and the first manifest. */
  function TwoLogs(tables: map<nat, seq<Entry>>, r: LogRecord, proc: Proc, torn: set<nat>): Sys {
    Sys(Disk(tables, map[3 := [r], 4 := []], map[1 := [FIRST_RECORD]], 1), proc, [r], 1, 5, Torn(map[], torn))
  }

  /** An edit that adds a table of these entries to level 0. */
  function Adds(num: nat, next: nat, es: seq<Entry>): Record
    requires es != []
  {
    Record(FileEdit({}, [(0, NewTable(num, 0, es))]), Some(4), Some(next), Some(1))
  }

  function Busy(next: nat, pc: Pc): Proc {
    Up(Counters(next, 1), 4, [], [], pc)
  }

  // ----- steps -----

  /** The memtable is switched, and its flush is about to be recorded. */
  lemma {:induction false} Flushes(k: Bytes, v: Bytes) returns (states: seq<Sys>, actions: seq<Action>)
    ensures var r, es := PutOne(k, v), Holding(k, v);
            && IsPath(states, actions) && states[0] == OneLog([r], Running(1, es), [r], 0, map[])
            && states[|states| - 1] == TwoLogs(map[5 := es], r, Busy(6, Logging(Adds(5, 6, es), Begin)), {})
  {
    var r, es := PutOne(k, v), Holding(k, v);
    var f, rec := NewTable(5, 0, es), Adds(5, 6, es);
    var a := OneLog([r], Running(1, es), [r], 0, map[]);
    var b := TwoLogs(map[], r, Up(Counters(5, 1), 4, [], es, Idle), {});
    var c := TwoLogs(map[], r, Busy(6, Writing(rec, [f])), {});
    var d := TwoLogs(map[5 := es], r, Busy(6, Writing(rec, [])), {});
    var e := TwoLogs(map[5 := es], r, Busy(6, Logging(rec, Begin)), {});
    Switched(r, es);
    assert Next(b, c, Flush(0, 0)) by { assert FlushStart(b, c, 0, 0); }
    TableWritten(r, es, f, rec);
    assert Next(d, e, WriteTable) by { assert TableStep(d, e); }
    hide Next;
    states, actions := [a, b, c, d, e], [Rotate, Flush(0, 0), WriteTable, WriteTable];
  }

  lemma {:induction false} Switched(r: LogRecord, es: seq<Entry>)
    requires es != []
    ensures Next(OneLog([r], Running(1, es), [r], 0, map[]), TwoLogs(map[], r, Up(Counters(5, 1), 4, [], es, Idle), {}), Rotate)
  {
    var a, b := OneLog([r], Running(1, es), [r], 0, map[]), TwoLogs(map[], r, Up(Counters(5, 1), 4, [], es, Idle), {});
    assert a.disk.logs[4 := []] == map[3 := [r], 4 := []];
    assert RotateStepOf(a, b.(torn := a.torn));
    assert TornAfter(a, Rotate) == b.torn;
  }

  lemma {:induction false} TableWritten(r: LogRecord, es: seq<Entry>, f: File, rec: Record)
    requires f.num == 5 && f.entries == es
    ensures Next(TwoLogs(map[], r, Busy(6, Writing(rec, [f])), {}), TwoLogs(map[5 := es], r, Busy(6, Writing(rec, [])), {}), WriteTable)
  {
    var c, d := TwoLogs(map[], r, Busy(6, Writing(rec, [f])), {}), TwoLogs(map[5 := es], r, Busy(6, Writing(rec, [])), {});
    assert [f][1..] == [] && c.disk.tables[5 := es] == map[5 := es];
    assert TableStep(c, d);
  }

  /** The record is cut, and recovery takes up the manifest and reads up to the first log. */
  lemma {:induction false} CutAndOpened(tables: map<nat, seq<Entry>>, r: LogRecord, rec: Record)
    returns (states: seq<Sys>, actions: seq<Action>)
    ensures IsPath(states, actions) && states[0] == TwoLogs(tables, r, Busy(6, Logging(rec, Begin)), {})
    ensures states[|states| - 1] == TwoLogs(tables, r, At(3), {1})
    ensures actions[0] == Crash(1, [], true, false)
  {
    var a, b := TwoLogs(tables, r, Busy(6, Logging(rec, Begin)), {}), TwoLogs(tables, r, Down, {1});
    ManifestCut(tables, r, rec);
    ReadOn(tables, r);
    hide Next;
    states := [a, b, TwoLogs(tables, r, At(0), {1}), TwoLogs(tables, r, At(1), {1}), TwoLogs(tables, r, At(2), {1}),
               TwoLogs(tables, r, At(3), {1})];
    actions := [Crash(1, [], true, false), Open(true), NextLog, NextLog, NextLog];
  }

  lemma {:induction false} ManifestCut(tables: map<nat, seq<Entry>>, r: LogRecord, rec: Record)
    ensures Next(TwoLogs(tables, r, Busy(6, Logging(rec, Begin)), {}), TwoLogs(tables, r, Down, {1}), Crash(1, [], true, false))
  {
    var a, b := TwoLogs(tables, r, Busy(6, Logging(rec, Begin)), {}), TwoLogs(tables, r, Down, {1});
    assert CrashStep(a, b.(torn := a.torn), 1, false);
    assert TornAfter(a, Crash(1, [], true, false)) == b.torn;
  }

  lemma {:induction false} ReadOn(tables: map<nat, seq<Entry>>, r: LogRecord)
    ensures Next(TwoLogs(tables, r, Down, {1}), TwoLogs(tables, r, At(0), {1}), Open(true))
    ensures forall n :: 0 <= n < 3 ==> Next(TwoLogs(tables, r, At(n), {1}), TwoLogs(tables, r, At(n + 1), {1}), NextLog)
  {
    hide ReadFiles;
    hide ReadMeta;
    FilesRead();
    assert OpenStep(TwoLogs(tables, r, Down, {1}), TwoLogs(tables, r, At(0), {1}), true);
    forall n | 0 <= n < 3 ensures Next(TwoLogs(tables, r, At(n), {1}), TwoLogs(tables, r, At(n + 1), {1}), NextLog) {
      assert NextLogStep(TwoLogs(tables, r, At(n), {1}), TwoLogs(tables, r, At(n + 1), {1}));
    }
  }

  /** Recovery writes the batch to a table and is about to record it. */
  lemma {:induction false} Dumps(tables: map<nat, seq<Entry>>, k: Bytes, v: Bytes) returns (states: seq<Sys>, actions: seq<Action>)
    ensures var r, es := PutOne(k, v), Holding(k, v);
            && IsPath(states, actions) && states[0] == TwoLogs(tables, r, At(3), {1})
            && states[|states| - 1] == TwoLogs(tables[3 := es], r, Busy(5, Logging(Adds(3, 5, es), Begin)), {1})
  {
    var r, es := PutOne(k, v), Holding(k, v);
    var g := NewTable(3, 0, es);
    var a := TwoLogs(tables, r, At(3), {1});
    var b := a.(proc := Recovering(Counters(3, 0), 3, 1, es, [], false, 1));
    var c := TwoLogs(tables[3 := es], r, Recovering(Counters(4, 0), 3, 1, [], [g], true, 1), {1});
    var d := c.(proc := Recovering(Counters(4, 0), 4, 0, [], [g], false, 1));
    var e := TwoLogs(tables[3 := es], r, Busy(5, Logging(Adds(3, 5, es), Begin)), {1});
    assert Next(a, b, ReadRecord) by {
      hide WriteRecord;
      hide Plus;
      MemWritten(Plus(NoFiles(), []), 3, k, v);
      assert ReadStep(a, b);
    }
    assert Next(b, c, Dump(0)) by {
      assert [] + [g] == [g];
      assert DumpStep(b, c, 0);
    }
    assert Next(c, d, NextLog) by { assert NextLogStep(c, d); }
    assert Next(d, e, ReuseLog) by { LogTaken(c.disk.tables, r, es); }
    hide Next;
    states, actions := [a, b, c, d, e], [ReadRecord, Dump(0), NextLog, ReuseLog];
  }

  lemma {:induction false} LogTaken(tables: map<nat, seq<Entry>>, r: LogRecord, es: seq<Entry>)
    requires es != []
    ensures Next(TwoLogs(tables, r, Recovering(Counters(4, 0), 4, 0, [], [NewTable(3, 0, es)], false, 1), {1}),
                 TwoLogs(tables, r, Busy(5, Logging(Adds(3, 5, es), Begin)), {1}), ReuseLog)
  {
    var g := NewTable(3, 0, es);
    var d := TwoLogs(tables, r, Recovering(Counters(4, 0), 4, 0, [], [g], false, 1), {1});
    var e := TwoLogs(tables, r, Busy(5, Logging(Adds(3, 5, es), Begin)), {1});
    var o := Opened(d.proc, MarkUsed(Counters(4, 0), 4), 4);
    assert o.pc.Logging? && o.pc.rec.edit.newFiles == [(0, g)];
    assert o == e.proc;
    assert ReuseLogStep(d, e);
  }

  /** The record goes behind the leftover and cannot be read. */
  lemma {:induction false} Spoils(tables: map<nat, seq<Entry>>, r: LogRecord, rec: Record) returns (s: Sys)
    requires rec.logNum.Some?
    ensures Next(TwoLogs(tables, r, Busy(5, Logging(rec, Begin)), {1}), s, LogAndApply(None))
    ensures s.h == [r] && s.synced == 1 && s.disk.current !in s.disk.manifests
  {
    var e := TwoLogs(tables, r, Busy(5, Logging(rec, Begin)), {1});
    var t := e.(disk := Written(e.disk, 1, None), proc := Busy(5, Logging(rec, Appended)));
    s := t.(torn := TornAfter(e, LogAndApply(None)));
    assert LoggingStep(e, t, None);
    assert s.(torn := e.torn) == t;
  }

  // ----- the run -----

  /** A run in which an edit is cut, the manifest taken up again, and the next edit unreadable: nothing opens any more. */
  lemma {:induction false} SyncedStoreLost(k: Bytes, v: Bytes) returns (states: seq<Sys>, actions: seq<Action>)
    ensures IsRun(states, actions) && |actions| > 0 && actions[|actions| - 1] == LogAndApply(None)
    ensures var t := states[|states| - 1];
            && t.h == [PutOne(k, v)] && t.synced == 1 && !Recoverable(t)
            && forall t', reuse :: !OpenStep(t.(proc := Down), t', reuse)
  {
    hide IsPath;
    hide Next;
    hide Init;
    hide IsRun;
    var r, es := PutOne(k, v), Holding(k, v);
    states, actions := Starts(k, v);
    var s2, a2 := Flushes(k, v);
    PathLength(states, actions, s2, a2);
    Join(states, actions, s2, a2);
    states, actions := states + s2[1..], actions + a2;
    var s3, a3 := CutAndOpened(map[5 := es], r, Adds(5, 6, es));
    PathLength(states, actions, s3, a3);
    Join(states, actions, s3, a3);
    states, actions := states + s3[1..], actions + a3;
    var s4, a4 := Dumps(map[5 := es], k, v);
    PathLength(states, actions, s4, a4);
    Join(states, actions, s4, a4);
    states, actions := states + s4[1..], actions + a4;
    var t := Spoils(map[5 := es][3 := es], r, Adds(3, 5, es));
    OneStep(states[|states| - 1], t, LogAndApply(None));
    PathLength(states, actions, states, actions);
    Join(states, actions, [states[|states| - 1], t], [LogAndApply(None)]);
    states, actions := states + [states[|states| - 1], t][1..], actions + [LogAndApply(None)];
    PathLength(states, actions, states, actions);
    PathIsRun(states, actions);
  }

  lemma {:induction false} OneStep(s: Sys, t: Sys, a: Action)
    requires Next(s, t, a)
    ensures IsPath([s, t], [a])
  {
    hide Next;
  }

  /** A batch is written to a new database. */
  lemma {:induction false} Starts(k: Bytes, v: Bytes) returns (states: seq<Sys>, actions: seq<Action>)
    ensures var r := PutOne(k, v);
            && IsPath(states, actions) && Init(states[0])
            && states[|states| - 1] == OneLog([r], Running(1, Holding(k, v)), [r], 0, map[])
  {
    hide Next;
    hide Init;
    hide Merged;
    var r := PutOne(k, v);
    var a, b := Opens();
    Writes(map[], k, v);
    MergedAlone(r);
    states := [a, b, OneLog([], Running(0, []), [], 0, map[]), OneLog([r], Running(1, Holding(k, v)), [r], 0, map[])];
    actions := [Open(true), NewLog, Batch([Database.Write.Put(k, v)])];
  }
}
