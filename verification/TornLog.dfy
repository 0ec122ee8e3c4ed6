/**
 * A log that ends in a leftover with data is reused, and a synced batch is lost: a whole run of the durability
 * protocol with the bytes that a writer leaves (src/db_impl.rs, src/log.rs, src/write_batch.rs).
 */
module TornLog {
  import opened Bytes
  import opened Coding
  import opened Entries
  import opened Version
  import opened VersionBuilder
  import opened Store
  import opened WriteSteps
  import opened Database
  import opened Manifest
  import opened History
  import opened WriteBatches
  import opened Durability
  import opened CrashSafety

  // ----- the states of the run -----

  const FIRST_RECORD := Record(FileEdit({}, []), Some(0), Some(2), Some(0))

  function NoFiles(): seq<seq<File>> {
    seq(NUM_LEVELS, _ => [])
  }

  /** A system with one log, numbered 3, and the first manifest. */
  function OneLog(recs: seq<LogRecord>, proc: Proc, h: seq<LogRecord>, synced: nat, left: map<nat, Bytes>): Sys {
    Sys(Disk(map[], map[3 := recs], map[1 := [FIRST_RECORD]], 1), proc, h, synced, 4, Torn(left, {}))
  }

  function Counters(next: nat, lastSeq: nat): VSet {
    VSet(NoFiles(), 0, next, lastSeq, 1, true)
  }

  /** Recovery at a log. */
  function At(pos: nat): Proc {
    Recovering(Counters(3, 0), pos, 0, [], [], false, 0)
  }

  function Running(lastSeq: nat, mem: seq<Entry>): Proc {
    Up(Counters(4, lastSeq), 3, mem, [], Idle)
  }

  function PutOne(k: Bytes, v: Bytes): LogRecord {
    LogRecord(1, [Write.Put(k, v)])
  }

  function Holding(k: Bytes, v: Bytes): seq<Entry> {
    [Entry(InternalKey(k, 1, TypeValue), v)]
  }

  // ----- steps -----

  lemma {:induction false} FilesRead()
    ensures ReadFiles([FIRST_RECORD]) == NoFiles() && ReadMeta([FIRST_RECORD]) == Meta(Some(0), Some(2), Some(0))
  {
    hide SaveLevel;
    forall l | 0 <= l < NUM_LEVELS ensures ReadFiles([FIRST_RECORD])[l] == [] {
      FirstLevel(FIRST_RECORD, l);
    }
    hide ReadFiles;
    assert [FIRST_RECORD][..0] == [];
  }

  lemma {:induction false} MemWritten(files: seq<seq<File>>, next: nat, k: Bytes, v: Bytes)
    ensures WriteRecord(State([], [], files, next, 0), PutOne(k, v)).mem == Holding(k, v)
  {
    var w := Write.Put(k, v);
    var s := State([], [], files, next, 0);
    assert [w][..0] == [];
    assert WriteAll(s, []) == s;
    assert WriteAll(s, [w]) == WriteOne(s, k, Some(v));
  }

  /** From a new database to an open one. */
  lemma {:induction false} Opens() returns (a: Sys, b: Sys)
    ensures Init(a) && Next(a, b, Open(true)) && Next(b, OneLog([], Running(0, []), [], 0, map[]), NewLog)
  {
    hide ReadFiles;
    hide ReadMeta;
    FilesRead();
    a := Sys(Disk(map[], map[], map[1 := [FIRST_RECORD]], 1), Down, [], 0, 0, Torn(map[], {}));
    b := a.(proc := At(0));
    var c := OneLog([], Running(0, []), [], 0, map[]);
    assert OpenStep(a, b, true);
    assert NewLogStep(b, c);
    assert TornAfter(b, NewLog) == c.torn;
  }

  /** A batch is written behind a leftover, or none. */
  lemma {:induction false} Writes(left: map<nat, Bytes>, k: Bytes, v: Bytes)
    requires left.Keys <= {3}
    ensures var s := OneLog([], Running(0, []), [], 0, left);
            Next(s, OneLog([Merged(Leftover(s, 3), PutOne(k, v))], Running(1, Holding(k, v)), [PutOne(k, v)], 0, map[]), Batch([Write.Put(k, v)]))
  {
    hide Merged;
    hide WriteRecord;
    var s := OneLog([], Running(0, []), [], 0, left);
    var m := Merged(Leftover(s, 3), PutOne(k, v));
    var s' := OneLog([m], Running(1, Holding(k, v)), [PutOne(k, v)], 0, map[]);
    MemWritten(NoFiles(), 4, k, v);
    assert left - {3} == map[];
    assert [] + [m] == [m] && [] + [PutOne(k, v)] == [PutOne(k, v)];
    assert s.disk.logs[3 := [m]] == map[3 := [m]];
    assert WriteStep(s, s'.(torn := s.torn), [Write.Put(k, v)]);
  }

  /** The unsynced batch is cut; a leftover stays. */
  lemma {:induction false} Crashes(r: LogRecord, p: Proc, part: Bytes)
    ensures Next(OneLog([r], p, [r], 0, map[]), OneLog([], Down, [], 0, map[3 := part]), Crash(0, part, false, false))
  {
    var s, s' := OneLog([r], p, [r], 0, map[]), OneLog([], Down, [], 0, map[3 := part]);
    assert [r][..0] == [] && s.disk.logs[3 := []] == map[3 := []];
    assert CrashStep(s, s'.(torn := s.torn), 0, false);
    assert map[][3 := part] == map[3 := part];
  }

  /** A crash that loses nothing. */
  lemma {:induction false} Stops(recs: seq<LogRecord>, p: Proc, h: seq<LogRecord>, left: map<nat, Bytes>)
    ensures Next(OneLog(recs, p, h, |h|, left), OneLog(recs, Down, h, |h|, left), Crash(|h|, [], false, false))
  {
    var s, s' := OneLog(recs, p, h, |h|, left), OneLog(recs, Down, h, |h|, left);
    assert CrashStep(s, s'.(torn := s.torn), |h|, false);
  }

  /** Recovery up to the log. */
  lemma {:induction false} Recovers(recs: seq<LogRecord>, h: seq<LogRecord>, synced: nat, left: map<nat, Bytes>)
    ensures Next(OneLog(recs, Down, h, synced, left), OneLog(recs, At(0), h, synced, left), Open(true))
    ensures forall n :: 0 <= n < 3 ==> Next(OneLog(recs, At(n), h, synced, left), OneLog(recs, At(n + 1), h, synced, left), NextLog)
  {
    hide ReadFiles;
    hide ReadMeta;
    FilesRead();
    assert OpenStep(OneLog(recs, Down, h, synced, left), OneLog(recs, At(0), h, synced, left), true);
    forall n | 0 <= n < 3 ensures Next(OneLog(recs, At(n), h, synced, left), OneLog(recs, At(n + 1), h, synced, left), NextLog) {
      assert NextLogStep(OneLog(recs, At(n), h, synced, left), OneLog(recs, At(n + 1), h, synced, left));
    }
  }

  lemma {:induction false} Reuses(left: map<nat, Bytes>)
    ensures Next(OneLog([], At(3), [], 0, left), OneLog([], Running(0, []), [], 0, left), ReuseLog)
  {
    assert ReuseLogStep(OneLog([], At(3), [], 0, left), OneLog([], Running(0, []), [], 0, left));
  }

  lemma {:induction false} Syncs(recs: seq<LogRecord>, p: Proc, h: seq<LogRecord>)
    requires p.Up?
    ensures Next(OneLog(recs, p, h, 0, map[]), OneLog(recs, p, h, |h|, map[]), Sync)
  {
    assert SyncStep(OneLog(recs, p, h, 0, map[]), OneLog(recs, p, h, |h|, map[]));
  }

  /** The record in the log goes to the memtable, and the log is reused. */
  lemma {:induction false} Replays(k: Bytes, v: Bytes, h: seq<LogRecord>) returns (s: Sys)
    ensures Next(OneLog([PutOne(k, v)], At(3), h, 1, map[]), s, ReadRecord)
    ensures Next(s, OneLog([PutOne(k, v)], Running(1, Holding(k, v)), h, 1, map[]), ReuseLog) && s.torn.manifests == {}
  {
    hide WriteRecord;
    hide Plus;
    var r := OneLog([PutOne(k, v)], At(3), h, 1, map[]);
    s := r.(proc := Recovering(Counters(3, 0), 3, 1, Holding(k, v), [], false, 1));
    MemWritten(Plus(NoFiles(), []), 3, k, v);
    assert ReadStep(r, s);
    assert ReuseLogStep(s, OneLog([PutOne(k, v)], Running(1, Holding(k, v)), h, 1, map[]));
  }

  // ----- the run -----

  /** The open database has the other key only. */
  lemma {:induction false} Misreads(k: Bytes, v: Bytes, k': Bytes, v': Bytes, recs: seq<LogRecord>)
    requires k != k'
    ensures !ReadsHistory(OneLog(recs, Running(1, Holding(k, v)), [PutOne(k', v')], 1, map[]))
  {
    var st := State(Holding(k, v), [], NoFiles(), 4, 1);
    assert forall i :: 0 <= i < NUM_LAYERS ==> Layer(st, i) == if i == 0 then EntrySet(Holding(k, v)) else {};
    assert forall e :: e in AllEntries(st) ==> e.key.ukey == k;
    ReadNothing(AllEntries(st), k', 1);
    var w := Write.Put(k', v');
    assert [w][..0] == [] && [PutOne(k', v')][..0] == [];
    assert AppliedAll(map[], [w]) == map[k' := v'];
    assert Described([PutOne(k', v')]) == map[k' := v'];
    assert Lookup(Described([PutOne(k', v')]), k') == Some(v');
  }

  /** Steps one after the other. */
  ghost predicate IsPath(states: seq<Sys>, actions: seq<Action>) {
    |states| == |actions| + 1 && forall i :: 0 <= i < |actions| ==> Next(states[i], states[i + 1], actions[i])
  }

  /** No manifest is cut. */
  predicate ManifestsWhole(states: seq<Sys>) {
    forall i :: 0 <= i < |states| ==> states[i].torn.manifests == {}
  }

  lemma {:induction false} Join(states: seq<Sys>, actions: seq<Action>, states': seq<Sys>, actions': seq<Action>)
    requires IsPath(states, actions) && IsPath(states', actions') && states[|states| - 1] == states'[0]
    ensures IsPath(states + states'[1..], actions + actions')
    ensures (states + states'[1..])[0] == states[0]
    ensures (states + states'[1..])[|states| + |states'| - 2] == states'[|states'| - 1]
    ensures ManifestsWhole(states) && ManifestsWhole(states') ==> ManifestsWhole(states + states'[1..])
  {
    hide Next;
    var all, acts := states + states'[1..], actions + actions';
    forall i | 0 <= i < |acts| ensures Next(all[i], all[i + 1], acts[i]) {
      if i >= |actions| {
        var j := i - |actions|;
        assert all[i] == states'[j] && all[i + 1] == states'[j + 1] && acts[i] == actions'[j];
      }
    }
  }

  lemma {:induction false} PathIsRun(states: seq<Sys>, actions: seq<Action>)
    requires IsPath(states, actions) && Init(states[0])
    ensures IsRun(states, actions)
  {
    hide Next;
    hide Init;
  }

  /** A batch is written and cut. */
  lemma {:induction false} Cuts(k: Bytes, v: Bytes, part: Bytes) returns (states: seq<Sys>, actions: seq<Action>)
    ensures IsPath(states, actions) && ManifestsWhole(states) && Init(states[0]) && states[|states| - 1] == OneLog([], Down, [], 0, map[3 := part])
    ensures actions == [Open(true), NewLog, Batch([Write.Put(k, v)]), Crash(0, part, false, false)]
  {
    hide Next;
    hide Init;
    hide Merged;
    var r := PutOne(k, v);
    var a, b := Opens();
    Writes(map[], k, v);
    MergedAlone(r);
    var d := OneLog([r], Running(1, Holding(k, v)), [r], 0, map[]);
    Crashes(r, d.proc, part);
    states := [a, b, OneLog([], Running(0, []), [], 0, map[]), d, OneLog([], Down, [], 0, map[3 := part])];
    actions := [Open(true), NewLog, Batch([Write.Put(k, v)]), Crash(0, part, false, false)];
    assert a.torn.manifests == {} && b.torn.manifests == {} by { InitSpared(a, b); }
  }

  lemma {:induction false} InitSpared(a: Sys, b: Sys)
    requires Init(a) && Next(a, b, Open(true))
    ensures a.torn.manifests == {} && b.torn.manifests == {}
  {
    hide OpenStep;
  }

  /** Recovery reads up to log 3. */
  lemma {:induction false} Reads(recs: seq<LogRecord>, h: seq<LogRecord>, synced: nat, left: map<nat, Bytes>)
    returns (states: seq<Sys>, actions: seq<Action>)
    ensures IsPath(states, actions) && ManifestsWhole(states) && states[0] == OneLog(recs, Down, h, synced, left)
    ensures states[|states| - 1] == OneLog(recs, At(3), h, synced, left)
  {
    hide Next;
    Recovers(recs, h, synced, left);
    states := [OneLog(recs, Down, h, synced, left), OneLog(recs, At(0), h, synced, left), OneLog(recs, At(1), h, synced, left),
               OneLog(recs, At(2), h, synced, left), OneLog(recs, At(3), h, synced, left)];
    actions := [Open(true), NextLog, NextLog, NextLog];
  }

  /** The log is reused, and another batch is written behind the leftover and synced. */
  lemma {:induction false} WritesOn(part: Bytes, k': Bytes, v': Bytes, m: LogRecord) returns (states: seq<Sys>, actions: seq<Action>)
    requires Merged(part, PutOne(k', v')) == m
    ensures IsPath(states, actions) && ManifestsWhole(states) && states[0] == OneLog([], At(3), [], 0, map[3 := part])
    ensures states[|states| - 1] == OneLog([m], Down, [PutOne(k', v')], 1, map[])
    ensures actions == [ReuseLog, Batch([Write.Put(k', v')]), Sync, Crash(1, [], false, false)]
  {
    hide Next;
    hide Merged;
    var left, r' := map[3 := part], PutOne(k', v');
    Reuses(left);
    Writes(left, k', v');
    var p := Running(1, Holding(k', v'));
    Syncs([m], p, [r']);
    Stops([m], p, [r'], map[]);
    states := [OneLog([], At(3), [], 0, left), OneLog([], Running(0, []), [], 0, left), OneLog([m], p, [r'], 0, map[]),
               OneLog([m], p, [r'], 1, map[]), OneLog([m], Down, [r'], 1, map[])];
    actions := [ReuseLog, Batch([Write.Put(k', v')]), Sync, Crash(1, [], false, false)];
  }

  lemma {:induction false} OpensAgain(k: Bytes, u: Bytes, h: seq<LogRecord>) returns (states: seq<Sys>, actions: seq<Action>)
    ensures IsPath(states, actions) && ManifestsWhole(states) && states[0] == OneLog([PutOne(k, u)], At(3), h, 1, map[])
    ensures states[|states| - 1] == OneLog([PutOne(k, u)], Running(1, Holding(k, u)), h, 1, map[])
  {
    hide Next;
    var f := Replays(k, u, h);
    states := [OneLog([PutOne(k, u)], At(3), h, 1, map[]), f, OneLog([PutOne(k, u)], Running(1, Holding(k, u)), h, 1, map[])];
    actions := [ReadRecord, ReuseLog];
  }

  /**
   * If a batch written behind the leftover of another reads as a write of the other's key, there is a run in which the
   * batch is synced, no manifest is cut, and the database opens again without it.
   */
  lemma {:induction false} ReuseLoses(k: Bytes, v: Bytes, part: Bytes, k': Bytes, v': Bytes, u: Bytes)
    returns (states: seq<Sys>, actions: seq<Action>)
    requires k != k' && Merged(part, PutOne(k', v')) == PutOne(k, u)
    ensures IsRun(states, actions) && ManifestsWhole(states)
    ensures |actions| > 4 && actions[2] == Batch([Write.Put(k, v)]) && actions[3] == Crash(0, part, false, false)
    ensures var t := states[|states| - 1];
            t.proc.Up? && t.proc.pc.Idle? && t.synced == |t.h| && t.h == [PutOne(k', v')] && !ReadsHistory(t)
  {
    hide IsPath;
    hide ManifestsWhole;
    hide Merged;
    hide Init;
    hide ReadsHistory;
    hide IsRun;
    var m, h := PutOne(k, u), [PutOne(k', v')];
    states, actions := Cuts(k, v, part);
    var s2, a2 := Reads([], [], 0, map[3 := part]);
    PathLength(states, actions, s2, a2);
    Join(states, actions, s2, a2);
    states, actions := states + s2[1..], actions + a2;
    var s3, a3 := WritesOn(part, k', v', m);
    PathLength(states, actions, s3, a3);
    Join(states, actions, s3, a3);
    states, actions := states + s3[1..], actions + a3;
    var s4, a4 := Reads([m], h, 1, map[]);
    PathLength(states, actions, s4, a4);
    Join(states, actions, s4, a4);
    states, actions := states + s4[1..], actions + a4;
    var s5, a5 := OpensAgain(k, u, h);
    PathLength(states, actions, s5, a5);
    Join(states, actions, s5, a5);
    states, actions := states + s5[1..], actions + a5;
    PathIsRun(states, actions);
    assert states[|states| - 1] == OneLog([m], Running(1, Holding(k, u)), h, 1, map[]);
    Misreads(k, u, k', v', [m]);
  }

  lemma {:induction false} PathLength(states: seq<Sys>, actions: seq<Action>, states': seq<Sys>, actions': seq<Action>)
    requires IsPath(states, actions) && IsPath(states', actions')
    ensures |states| == |actions| + 1 && |states'| == |actions'| + 1
  {
  }

  lemma {:induction false} MergedAlone(r: LogRecord)
    ensures Merged([], r) == r
  {
  }

  // ----- the bytes -----

  /** The bytes of a batch with one write, up to the value. */
  function Head(k: Bytes, vlen: nat): Bytes {
    EncodeFixed(8, 1) + EncodeFixed(4, 1) + [1] + EncodeVar(|k|) + k + EncodeVar(vlen)
  }

  lemma {:induction false} OneWrite(k: Bytes, v: Bytes)
    ensures EncodeRecord(PutOne(k, v)) == Head(k, |v|) + v
  {
    hide EncodeFixed;
    hide EncodeVar;
    var w := Write.Put(k, v);
    assert [w][..0] == [];
    assert EncodeOps([w]) == [] + EncodeOp(w);
    assert EncodeOp(w) == [1] + EncodeVar(|k|) + k + EncodeVar(|v|) + v;
  }

  /** A batch behind the first bytes of another, together as long as the other: it is read as the end of the other's value. */
  lemma {:induction false} Swallowed(k: Bytes, v: Bytes, n: nat, k': Bytes, v': Bytes)
    requires n <= |v| && |v| == n + |EncodeRecord(PutOne(k', v'))|
    ensures Merged(Head(k, |v|) + v[..n], PutOne(k', v')) == PutOne(k, v[..n] + EncodeRecord(PutOne(k', v')))
  {
    hide EncodeRecord;
    hide DecodeRecord;
    hide Head;
    var r, u := PutOne(k', v'), v[..n] + EncodeRecord(PutOne(k', v'));
    OneWrite(k, u);
    RecordRoundTrip(PutOne(k, u));
    HeadNotEmpty(k, |v|);
    assert Head(k, |v|) + v[..n] + EncodeRecord(r) == Head(k, |v|) + u;
  }

  lemma {:induction false} HeadNotEmpty(k: Bytes, vlen: nat)
    ensures Head(k, vlen) != []
  {
  }

  lemma {:induction false} HeadLength()
    ensures |Head([1], 32759)| == 18 && |Head([2], 0)| == 16
  {
    assert EncodeVar(1) == [1] && EncodeVar(0) == [0];
    assert EncodeVar(255) == [255] + EncodeVar(1);
    assert EncodeVar(32759) == [247] + EncodeVar(255);
    hide EncodeVar;
    hide EncodeFixed;
  }

  /** In an empty log the first fragment of a longer record fills the block. */
  lemma {:induction false} FirstFragment(fm: L.Format, bs: Bytes)
    requires fm.blockSize == 32768 && |bs| > 32761
    ensures 1 < |L.Chunks(fm, 0, true, bs)| && L.DataOf(L.Chunks(fm, 0, true, bs)[..1]) == bs[..32761]
  {
    var c := L.NextChunk(fm, 0, true, bs);
    assert c.data == bs[..32761];
    var rest := bs[32761..];
    var more := L.Chunks(fm, L.EndAt(fm, 0, c), false, rest);
    assert more != [];
    hide L.Chunks;
    assert L.Chunks(fm, 0, true, bs) == [c] + more by { FirstChunkOf(fm, bs, c); }
    assert ([c] + more)[..1] == [c] && [c][1..] == [];
    assert L.DataOf([c]) == c.data + [];
  }

  lemma {:induction false} FirstChunkOf(fm: L.Format, bs: Bytes, c: L.Chunk)
    requires L.FormatOk(fm) && bs != [] && c == L.NextChunk(fm, 0, true, bs) && L.EndAt(fm, 0, c) <= fm.blockSize
    ensures |c.data| <= |bs| && L.Chunks(fm, 0, true, bs) == [c] + L.Chunks(fm, L.EndAt(fm, 0, c), false, bs[|c.data|..])
  {
  }

  /**
   * With blocks of 32 KiB: a batch of 32777 bytes, written to an empty log and not synced, is cut behind its first
   * fragment; a small batch is then written to the same log and synced; and the database opens without it.
   */
  lemma {:induction false} SyncedBatchLost(crc: Bytes -> L.Word) returns (states: seq<Sys>, actions: seq<Action>, r: LogRecord, part: Bytes)
    ensures IsRun(states, actions) && ManifestsWhole(states)
    ensures |actions| > 4 && actions[2] == Batch(r.batch) && actions[3] == Crash(0, part, false, false)
    ensures var fm := L.Format(32768, crc);
            1 < |L.Chunks(fm, 0, true, EncodeRecord(r))| && part == L.DataOf(L.Chunks(fm, 0, true, EncodeRecord(r))[..1])
    ensures var t := states[|states| - 1];
            t.proc.Up? && t.proc.pc.Idle? && t.h != [] && t.synced == |t.h| && !ReadsHistory(t)
  {
    hide EncodeRecord;
    hide Merged;
    hide ReadsHistory;
    hide IsRun;
    hide ManifestsWhole;
    hide Head;
    var k: Bytes, v: Bytes, k': Bytes := [1], seq(32759, _ => 0), [2];
    r := PutOne(k, v);
    OneWrite(k, v);
    OneWrite(k', []);
    HeadLength();
    part := Head(k, 32759) + v[..32743];
    assert part == EncodeRecord(r)[..32761];
    FirstFragment(L.Format(32768, crc), EncodeRecord(r));
    Swallowed(k, v, 32743, k', []);
    assert k[0] != k'[0];
    states, actions := ReuseLoses(k, v, part, k', [], v[..32743] + EncodeRecord(PutOne(k', [])));
  }
}
