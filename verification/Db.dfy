/** The database: writes, memtable switches, flushes and compactions in any order refine a plain map (src/db_impl.rs). */
module Database {
  import opened Bytes
  import opened Entries
  import opened Version
  import opened VersionBuilder
  import opened VersionSet
  import opened CompactionWork
  import opened MergingIterator
  import opened Store
  import opened StoreSteps
  import opened Sweeps
  import opened WriteSteps
  import opened PointReads

  datatype Write = Put(key: Bytes, value: Bytes) | Delete(key: Bytes)

  /** A user operation or a background step, with the free choices of the latter. */
  datatype Op =
    | WriteBatch(batch: seq<Write>)
    | MakeRoom(full: bool, next: Option<(nat, nat)>)
    | CompactFile(level: nat, ix: nat)
    | CompactRange(from: Bytes, to: Bytes, next: Option<(nat, nat)>)

  // ----- the reference: a plain map -----

  function Applied(m: map<Bytes, Bytes>, w: Write): map<Bytes, Bytes> {
    match w
    case Put(k, v) => m[k := v]
    case Delete(k) => m - {k}
  }

  function AppliedAll(m: map<Bytes, Bytes>, batch: seq<Write>): map<Bytes, Bytes> {
    if batch == [] then m else Applied(AppliedAll(m, batch[..|batch| - 1]), batch[|batch| - 1])
  }

  /** Only writes change the reference. */
  function Reference(ops: seq<Op>): map<Bytes, Bytes> {
    if ops == [] then map[]
    else
      var m := Reference(ops[..|ops| - 1]);
      match ops[|ops| - 1]
      case WriteBatch(batch) => AppliedAll(m, batch)
      case _ => m
  }

  function Lookup(m: map<Bytes, Bytes>, k: Bytes): Option<Bytes> {
    if k in m then Some(m[k]) else None
  }

  function Writes(ops: seq<Op>): nat {
    if ops == [] then 0
    else Writes(ops[..|ops| - 1]) + if ops[|ops| - 1].WriteBatch? then |ops[|ops| - 1].batch| else 0
  }

  /** The store holds exactly the map. */
  ghost predicate Holds(s: State, m: map<Bytes, Bytes>)
    requires |s.files| == NUM_LEVELS
  {
    forall k :: ReadAt(AllEntries(s), k, s.lastSeq) == Lookup(m, k)
  }

  // ----- facts the methods need -----

  lemma {:induction false} VersionFacts(s: State)
    requires StoreOk(s)
    ensures LevelsOk(s.files)
    ensures forall level: nat :: level + 2 <= NUM_LEVELS ==> DeepLevelsOk(s.files, level)
    ensures forall l :: 0 <= l < NUM_LEVELS ==> SortedBySmallest(s.files[l])
  {
    hide LayersOk;
    hide SortedBySmallest;
    forall l, f | 0 <= l < NUM_LEVELS && f in s.files[l] ensures !Lt(f.largest.ukey, f.smallest.ukey) {
      assert LevelFilesOk(s.files[l], s.nextFile);
      EntryInFile(f, f.entries[0]);
    }
    assert LevelFilesOk(s.files[0], s.nextFile);
    forall l | 0 <= l < NUM_LEVELS ensures SortedBySmallest(s.files[l]) {
      LevelsSorted(s, l);
    }
    assert forall l, i :: 0 <= l < NUM_LEVELS && 0 <= i < |s.files[l]| ==> s.files[l][i] in s.files[l];
  }

  function ValueOf(w: Write): Option<Bytes> {
    if w.Put? then Some(w.value) else None
  }

  /** The store after a batch. */
  function WriteAll(s: State, batch: seq<Write>): State {
    if batch == [] then s
    else
      var w := batch[|batch| - 1];
      WriteOne(WriteAll(s, batch[..|batch| - 1]), w.key, ValueOf(w))
  }

  lemma {:induction false} WriteHolds(s: State, w: Write)
    requires StoreOk(s) && s.lastSeq + 1 < MAX_SEQUENCE_NUMBER
    ensures StoreOk(WriteOne(s, w.key, ValueOf(w)))
    ensures forall m :: Holds(s, m) ==> Holds(WriteOne(s, w.key, ValueOf(w)), Applied(m, w))
  {
    hide StoreOk;
    hide AllEntries;
    var s' := WriteOne(s, w.key, ValueOf(w));
    WriteOneOk(s, w.key, ValueOf(w), w.key);
    forall m | Holds(s, m) ensures Holds(s', Applied(m, w)) {
      forall k ensures ReadAt(AllEntries(s'), k, s'.lastSeq) == Lookup(Applied(m, w), k) {
        WriteOneOk(s, w.key, ValueOf(w), k);
      }
    }
  }

  /** Installing is what the builder does, and its ordering assertions hold. */
  lemma {:induction false} InstallEdits(s: State, level: nat, in0: seq<File>, in1: seq<File>, outs: seq<File>, nextFile: nat)
    requires StoreOk(s) && InputsOk(s.files, level, in0, in1) && OutputsFit(s, level, in0, in1, outs, nextFile)
    ensures EditOk(InstallEdit(level, in0, in1, outs))
    ensures forall l :: 0 <= l < NUM_LEVELS ==>
                          LiveStep(s.files[l], InstallEdit(level, in0, in1, outs), l) == Installed(s.files, level, in0, in1, outs)[l]
    ensures forall l :: 1 <= l < NUM_LEVELS ==> Ordered(Installed(s.files, level, in0, in1, outs)[l])
  {
    hide StoreOk;
    hide OutputsFit;
    hide LiveStep;
    hide Installed;
    hide InputsOk;
    hide FilesOk;
    hide Ordered;
    InstallKeepsStore(s, level, in0, in1, outs, nextFile);
    var s' := s.(files := Installed(s.files, level, in0, in1, outs), nextFile := nextFile);
    forall l | 0 <= l < NUM_LEVELS
      ensures LiveStep(s.files[l], InstallEdit(level, in0, in1, outs), l) == Installed(s.files, level, in0, in1, outs)[l]
      ensures l > 0 ==> Ordered(Installed(s.files, level, in0, in1, outs)[l])
    {
      EditInstalls(s, level, in0, in1, outs, nextFile, l);
      LevelsSorted(s', l);
    }
  }

  lemma {:induction false} FlushEdits(s: State, level: nat, f: File, l: nat)
    requires FilesOk(s.files, s.nextFile) && level < NUM_LEVELS && l < NUM_LEVELS
    ensures LiveStep(s.files[l], FileEdit({}, [(level, f)]), l) == Flushed(s, level, f).files[l]
  {
    hide SortFiles;
    hide Keep;
    hide ApplyLevel;
    hide FilesOk;
    hide Ordered;
    var news: seq<File> := if l == level then [f] else [];
    LevelsSorted(s, l);
    FlushApplies(level, f, l);
    SaveInstalls(s.files[l], {}, news);
    KeepNone(s.files[l], {});
  }

  lemma {:induction false} FlushApplies(level: nat, f: File, l: nat)
    ensures ApplyLevel(EmptyLevel, FileEdit({}, [(level, f)]), l) == LevelState({}, if l == level then [f] else [])
  {
    hide AddedAt;
    hide Nums;
    AddedAtUniform([(level, f)], [f], level, l);
    var news: seq<File> := if l == level then [f] else [];
    assert NumsAt({}, l) == {};
    assert [] + news == news && ({} + {}) - Nums(news) == {};
  }

  lemma {:induction false} KeepShorter(fs: seq<File>, dead: set<nat>)
    ensures |Keep(fs, dead)| <= |fs|
    ensures (exists f :: f in fs && f.num in dead) ==> |Keep(fs, dead)| < |fs|
  {
    if fs != [] {
      KeepShorter(fs[1..], dead);
    }
  }

  lemma {:induction false} SameEntries(a: State, b: State)
    requires |a.files| == NUM_LEVELS && a.mem == b.mem && a.imm == b.imm && a.files == b.files
    ensures AllEntries(a) == AllEntries(b)
  {
    assert forall i :: 0 <= i < NUM_LAYERS ==> Layer(a, i) == Layer(b, i);
    hide Layer;
  }

  ghost predicate Fewer(was: seq<seq<File>>, now: seq<seq<File>>, level: nat) {
    level < |was| && level < |now| && |now[level]| < |was[level]|
  }

  lemma {:induction false} InputsFit(v: seq<seq<File>>, level: nat, in0: seq<File>, in1: seq<File>)
    requires |v| == NUM_LEVELS && level + 1 < NUM_LEVELS && Separable(v[level], level, in0) && in1 == NextLevelInputs(v, level, in0)
    ensures InputsOk(v, level, in0, in1)
  {
  }

  lemma {:induction false} CompactStepReads(s: State, level: nat, in0: seq<File>, in1: seq<File>, outs: seq<File>, u: Bytes)
    requires StoreOk(s) && InputsOk(s.files, level, in0, in1) && IsOutput(s, level, in0, in1, outs)
    ensures ReadAt(AllEntries(Compacted(s, level, in0, in1, outs)), u, s.lastSeq) == ReadAt(AllEntries(s), u, s.lastSeq)
  {
    hide StoreOk;
    hide InputsOk;
    hide IsOutput;
    hide AllEntries;
    hide ReadAt;
    hide Installed;
    CompactKeepsReads(s, level, in0, in1, outs, u, s.lastSeq);
    SameEntries(s.(files := Installed(s.files, level, in0, in1, outs)), Compacted(s, level, in0, in1, outs));
  }

  lemma {:induction false} CompactStep(s: State, level: nat, in0: seq<File>, in1: seq<File>, outs: seq<File>)
    requires StoreOk(s) && InputsOk(s.files, level, in0, in1) && IsOutput(s, level, in0, in1, outs)
    ensures OutputsFit(s, level, in0, in1, outs, s.nextFile + |outs|)
    ensures StoreOk(Compacted(s, level, in0, in1, outs))
    ensures forall m :: Holds(s, m) ==> Holds(Compacted(s, level, in0, in1, outs), m)
  {
    hide StoreOk;
    hide InputsOk;
    hide IsOutput;
    hide OutputsFit;
    hide AllEntries;
    hide ReadAt;
    hide Installed;
    KeptFits(s, level, in0, in1, outs);
    InstallKeepsStore(s, level, in0, in1, outs, s.nextFile + |outs|);
    forall u
      ensures ReadAt(AllEntries(Compacted(s, level, in0, in1, outs)), u, s.lastSeq) == ReadAt(AllEntries(s), u, s.lastSeq)
    {
      CompactStepReads(s, level, in0, in1, outs, u);
    }
  }

  lemma {:induction false} MoveStep(s: State, level: nat, f: File)
    requires StoreOk(s) && InputsOk(s.files, level, [f], [])
    ensures var s' := s.(files := Installed(s.files, level, [f], [], [f]));
            StoreOk(s') && forall m :: Holds(s, m) ==> Holds(s', m)
  {
    hide StoreOk;
    hide AllEntries;
    hide Installed;
    MoveFits(s, level, f);
    InstallKeepsStore(s, level, [f], [], [f], s.nextFile);
    assert s.(files := Installed(s.files, level, [f], [], [f]), nextFile := s.nextFile)
        == s.(files := Installed(s.files, level, [f], [], [f]));
  }

  lemma {:induction false} FlushStep(s: State, level: nat, f: File)
    requires StoreOk(s) && FlushFile(s, f) && level < NUM_LEVELS && KeepsOrder(s.files, level, f)
    ensures var s' := Flushed(s, level, f);
            && StoreOk(s')
            && (forall m :: Holds(s, m) ==> Holds(s', m))
            && (forall l :: 0 <= l < NUM_LEVELS ==> LiveStep(s.files[l], FileEdit({}, [(level, f)]), l) == s'.files[l])
            && (forall l :: 1 <= l < NUM_LEVELS ==> Ordered(s'.files[l]))
  {
    hide StoreOk;
    hide AllEntries;
    hide LiveStep;
    hide SortFiles;
    hide FilesOk;
    hide FlushFile;
    hide Ordered;
    var s' := Flushed(s, level, f);
    FlushOk(s, level, f);
    FlushKeepsEntries(s, level, f);
    forall l | 0 <= l < NUM_LEVELS
      ensures LiveStep(s.files[l], FileEdit({}, [(level, f)]), l) == s'.files[l]
      ensures l > 0 ==> Ordered(s'.files[l])
    {
      FlushEdits(s, level, f, l);
      LevelsSorted(s', l);
    }
  }

  lemma {:induction false} RotateStep(s: State)
    requires StoreOk(s) && s.imm == []
    ensures StoreOk(s.(mem := [], imm := s.mem))
    ensures forall m :: Holds(s, m) ==> Holds(s.(mem := [], imm := s.mem), m)
  {
    hide StoreOk;
    hide AllEntries;
    RotateOk(s);
  }

  lemma {:induction false} FewerFiles(s: State, level: nat, in0: seq<File>, in1: seq<File>, outs: seq<File>)
    requires |s.files| == NUM_LEVELS && InputsOk(s.files, level, in0, in1)
    ensures |Installed(s.files, level, in0, in1, outs)[level]| < |s.files[level]|
  {
    KeepShorter(s.files[level], Nums(in0));
    assert in0[0] in in0;
  }

  /** A memtable that answers answers rightly; if neither does, neither sees the key. */
  lemma {:induction false} MemAnswers(s: State, u: Bytes, sn: nat)
    requires StoreOk(s)
    ensures var (v, gone) := MemGet(s.mem, u, sn);
            var (w, gone') := MemGet(s.imm, u, sn);
            if v.Some? || gone then !NotInMemory(s, u, sn) && ReadAt(AllEntries(s), u, sn) == v
            else if w.Some? || gone' then !NotInMemory(s, u, sn) && ReadAt(AllEntries(s), u, sn) == w
            else NotInMemory(s, u, sn)
  {
    hide LayersOk;
    hide FilesOk;
    hide AllEntries;
    hide ReadAt;
    hide FirstFrom;
    assert Layer(s, 0) == EntrySet(s.mem) && Layer(s, 1) == EntrySet(s.imm);
    FirstIsNewest(s.mem, u, sn);
    FirstIsNewest(s.imm, u, sn);
    var hit, hit' := FirstFrom(s.mem, Target(u, sn)), FirstFrom(s.imm, Target(u, sn));
    if hit.Some? && hit.value.key.ukey == u {
      MemoryReads(s, 0, u, sn, hit.value);
      assert Visible(EntrySet(s.mem), u, sn, hit.value);
    } else if hit'.Some? && hit'.value.key.ukey == u {
      MemoryReads(s, 1, u, sn, hit'.value);
      assert Visible(EntrySet(s.imm), u, sn, hit'.value);
    }
  }

  /** What the files answer for a key that memory does not have. */
  lemma {:induction false} FileAnswers(reach: Reach, s: State, u: Bytes, sn: nat)
    requires StoreOk(s) && NotInMemory(s, u, sn)
    ensures var probes, want := ProbesFor(s.files, u, sn), ReadAt(AllEntries(s), u, sn);
            && Search(reach, probes, u, sn)
               == (if StopsAtOther(reach, probes, u, sn) then None else ReadAt(Contents(Open(reach, probes)), u, sn))
            && (ReachesSeen(reach, probes, u, sn) ==>
                  (Search(reach, probes, u, sn) == want <==> !(StopsAtOther(reach, probes, u, sn) && want.Some?)))
  {
    hide StoreOk;
    hide AllEntries;
    hide ReadAt;
    hide Search;
    hide StopsAtOther;
    hide ProbesFor;
    hide Open;
    FilesAlone(s);
    var probes := ProbesFor(s.files, u, sn);
    ProbesFit(s.files, u, sn, s.nextFile, s.lastSeq);
    FilesRead(s, probes, u, sn);
    SearchResult(reach, probes, u, sn);
    if ReachesSeen(reach, probes, u, sn) {
      SearchCorrect(reach, probes, u, sn);
    }
  }

  /** The lookups get to every visible version if no table that has one gives up. */
  lemma {:induction false} NoneGivesUp(rd: Reader, s: State, u: Bytes, sn: nat)
    requires StoreOk(s) && forall l, f :: 0 <= l < |s.files| && f in s.files[l] ==> Built(rd, f, u)
    ensures var probes := ProbesFor(s.files, u, sn);
            ReachesSeen(ReachOf(rd, u, sn), probes, u, sn)
            <==> forall f :: f in probes && Sees(f, u, sn) ==> Built(rd, f, u) && !GivesUp(rd, f, u, sn)
  {
    hide StoreOk;
    hide Built;
    hide Sees;
    hide ProbesFor;
    FilesAlone(s);
    ProbesFit(s.files, u, sn, s.nextFile, s.lastSeq);
    var probes := ProbesFor(s.files, u, sn);
    forall f | f in probes ensures Built(rd, f, u) {
      var l :| 0 <= l < |s.files| && f in s.files[l];
    }
    BuiltReaches(rd, probes, u, sn);
  }

  lemma {:induction false} FilesAlone(s: State)
    requires StoreOk(s)
    ensures StoreOk(State([], [], s.files, s.nextFile, s.lastSeq))
  {
    var t := State([], [], s.files, s.nextFile, s.lastSeq);
    assert Layer(t, 0) == {} && Layer(t, 1) == {};
    assert forall i :: 2 <= i < NUM_LAYERS ==> Layer(t, i) == Layer(s, i);
    hide Layer;
    hide FilesOk;
    hide NewerByNumber;
    forall i, j | 0 <= i < j < NUM_LAYERS ensures Newer(Layer(t, i), Layer(t, j)) {
      assert i >= 2 ==> Newer(Layer(s, i), Layer(s, j));
    }
  }

  /**
   * The memtable would pass over level 0, since the test for disjoint files sees no overlap there, although a file
   * there has a version of one of its keys.
   */
  ghost predicate OverlapHidden(v: seq<seq<File>>, es: seq<Entry>)
    requires es != [] && |v| == NUM_LEVELS
  {
    var lo, hi := es[0].key.ukey, es[|es| - 1].key.ukey;
    !DisjointTest(v[0], lo, hi) && PassesOver(v, 0, lo, hi) && !NoSharedKey(Contents(v[0]), EntrySet(es))
  }

  /** Whether some file has a version of a key of the entries. */
  method SharesKey(fs: seq<File>, es: seq<Entry>) returns (r: bool)
    ensures r <==> !NoSharedKey(Contents(fs), EntrySet(es))
  {
    for i := 0 to |fs|
      invariant NoSharedKey(Contents(fs[..i]), EntrySet(es))
    {
      var f := fs[i];
      for j := 0 to |f.entries|
        invariant NoSharedKey(EntrySet(f.entries[..j]), EntrySet(es))
      {
        for k := 0 to |es|
          invariant forall m :: 0 <= m < k ==> f.entries[j].key.ukey != es[m].key.ukey
        {
          if f.entries[j].key.ukey == es[k].key.ukey {
            assert f in fs && f.entries[j] in f.entries && es[k] in es;
            assert f.entries[j] in Contents(fs);
            return true;
          }
        }
        assert EntrySet(f.entries[..j + 1]) == EntrySet(f.entries[..j]) + {f.entries[j]};
      }
      assert f.entries[..|f.entries|] == f.entries;
      assert Contents(fs[..i + 1]) == Contents(fs[..i]) + EntrySet(f.entries);
    }
    assert fs[..|fs|] == fs;
    return false;
  }

  /** On the level picked for it, the table keeps the order if no file of level 0 has one of its keys. */
  lemma {:induction false} PickedKeepsOrder(s: State, level: nat, f: File)
    requires StoreOk(s) && FlushFile(s, f) && level + 2 < NUM_LEVELS
    requires forall l :: 0 <= l < level ==> PassesOver(s.files, l, f.smallest.ukey, f.largest.ukey)
    ensures KeepsOrder(s.files, level, f) <==> level == 0 || NoSharedKey(Contents(s.files[0]), EntrySet(f.entries))
  {
    hide PassesOver;
    hide SortFiles;
    hide NoSharedKey;
    if level > 0 {
      var t := s.(files := s.files[0 := []]);
      UpperEmpty(s);
      PassedIsSafe(s.files, level, f.smallest.ukey, f.largest.ukey);
      assert !AnyInRange(t.files[0], f.smallest.ukey, f.largest.ukey);
      SafeKeepsOrder(t, level, f);
      forall l | 0 < l < level ensures NoSharedKey(Contents(s.files[l]), EntrySet(f.entries)) {
        assert NoSharedKey(Contents(t.files[l]), EntrySet(f.entries));
      }
    }
  }

  lemma {:induction false} UpperEmpty(s: State)
    requires StoreOk(s)
    ensures StoreOk(s.(files := s.files[0 := []]))
  {
    var t := s.(files := s.files[0 := []]);
    assert forall i :: 0 <= i < NUM_LAYERS && i != 2 ==> Layer(t, i) == Layer(s, i);
    assert Layer(t, 2) == {};
    hide Layer;
    forall i, j | 0 <= i < j < NUM_LAYERS ensures Newer(Layer(t, i), Layer(t, j)) {
      assert Newer(Layer(s, i), Layer(s, j));
    }
  }

  /** Whatever the level picked for the table, the builder installs it there and keeps the deeper levels ordered. */
  lemma {:induction false} FlushInstalls(s: State, level: nat, f: File)
    requires StoreOk(s) && FlushFile(s, f) && level + 2 < NUM_LEVELS
    requires forall l :: 0 <= l < level ==> PassesOver(s.files, l, f.smallest.ukey, f.largest.ukey)
    ensures forall l :: 0 <= l < NUM_LEVELS ==> LiveStep(s.files[l], FileEdit({}, [(level, f)]), l) == Flushed(s, level, f).files[l]
    ensures forall l :: 1 <= l < NUM_LEVELS ==> Ordered(Flushed(s, level, f).files[l])
  {
    hide PassesOver;
    hide SortFiles;
    hide NoSharedKey;
    hide LiveStep;
    hide Ordered;
    hide Holds;
    hide AnyInRange;
    hide StoreOk;
    VersionFacts(s);
    if level == 0 {
      FlushStep(s, level, f);
    } else {
      var t := s.(files := s.files[0 := []]);
      UpperEmpty(s);
      PassedIsSafe(s.files, level, f.smallest.ukey, f.largest.ukey);
      assert !AnyInRange([], f.smallest.ukey, f.largest.ukey) by {
        NoneInRange(f.smallest.ukey, f.largest.ukey);
      }
      SafeKeepsOrder(t, level, f);
      FlushStep(t, level, f);
      FlushEdits(s, level, f, 0);
      forall l | 1 <= l < NUM_LEVELS ensures Flushed(s, level, f).files[l] == Flushed(t, level, f).files[l] && s.files[l] == t.files[l] {
      }
    }
  }

  lemma {:induction false} NoneInRange(min: Bytes, max: Bytes)
    ensures !AnyInRange([], min, max)
  {
  }

  /** The flush keeps the store, and then every map it held, exactly if the pending memtable's overlap is not hidden. */
  lemma {:induction false} PickedFlush(s: State, level: nat, f: File)
    requires StoreOk(s) && FlushFile(s, f) && level + 2 < NUM_LEVELS
    requires forall l :: 0 <= l < level ==> PassesOver(s.files, l, f.smallest.ukey, f.largest.ukey)
    ensures StoreOk(Flushed(s, level, f)) <==> level == 0 || NoSharedKey(Contents(s.files[0]), EntrySet(f.entries))
    ensures StoreOk(Flushed(s, level, f)) ==> forall m :: Holds(s, m) ==> Holds(Flushed(s, level, f), m)
  {
    hide PassesOver;
    hide NoSharedKey;
    hide KeepsOrder;
    hide StoreOk;
    hide AllEntries;
    hide SortFiles;
    PickedKeepsOrder(s, level, f);
    FlushOk(s, level, f);
    FlushKeepsEntries(s, level, f);
  }

  /** The store after switching memtables. */
  function Rotated(s: State): State {
    s.(mem := [], imm := s.mem)
  }

  /** A pending memtable that the source flushes below a level-0 file with one of its keys. */
  ghost predicate HidesOverlap(s: State) {
    s.imm != [] && |s.files| == NUM_LEVELS && OverlapHidden(s.files, s.imm)
  }

  /** A table of the pending memtable and the level picked for it. */
  ghost predicate FlushesTo(s: State, l: nat, f: File) {
    |s.files| == NUM_LEVELS && s.imm != [] && FlushFile(s, f) && IsPicked(s.files, f.smallest.ukey, f.largest.ukey, l)
  }

  /** The pending memtable, if there is one, has become a table on the level picked for it. */
  ghost predicate IsFlushed(s: State, t: State) {
    if s.imm == [] then t == s else exists l, f :: FlushesTo(s, l, f) && t == Flushed(s, l, f)
  }

  /** A flush after which the store is out of order. */
  ghost predicate OutOfOrder(s: State, t: State) {
    StoreOk(s) && HidesOverlap(s) && !StoreOk(t) && IsFlushed(s, t)
  }

  /** What an automatic compaction of a file begins with: the file, and on level 0 what overlaps it. */
  ghost predicate PickedStart(v: seq<seq<File>>, level: nat, ix: nat, start: seq<File>)
    requires |v| == NUM_LEVELS && level < NUM_LEVELS && ix < |v[level]|
  {
    var f := v[level][ix];
    if level > 0 then start == [f] else Overlapping(v[0], 0, f.smallest.ukey, f.largest.ukey, start)
  }

  /** The file, if there is such a file, is compacted. */
  ghost predicate FileCompacted(s: State, t: State, level: nat, ix: nat, maxFileSize: nat) {
    if |s.files| == NUM_LEVELS && level + 1 < NUM_LEVELS && ix < |s.files[level]|
    then exists job :: WasCompacted(s, t, job, maxFileSize) && job.level == level && !job.manual
                       && PickedStart(s.files, level, ix, job.start)
    else t == s
  }

  ghost predicate ThenCompacted(s: State, t: State, next: Option<(nat, nat)>, maxFileSize: nat) {
    if next.None? then t == s else FileCompacted(s, t, next.value.0, next.value.1, maxFileSize)
  }

  /** One level has been swept from a key on. */
  ghost predicate IsSwept(s: State, t: State, level: nat, from: InternalKey, to: InternalKey, end: InternalKey, maxFileSize: nat) {
    && |t.files| == NUM_LEVELS && level < NUM_LEVELS && !AnyInRange(t.files[level], end.ukey, to.ukey)
    && exists states, jobs ::
         IsSweep(states, jobs, level, from, to, maxFileSize)
         && states[0] == s && states[|jobs|] == t && end == StartKey(from, jobs, |jobs|)
  }

  /** Where the sweep of a level begins: on level 0 at the range's start, below where the one above ended. */
  function SweepFrom(from: Bytes, ends: seq<InternalKey>, l: nat): InternalKey
    requires l <= |ends|
  {
    if l == 0 then InternalKey(from, MAX_SEQUENCE_NUMBER, TypeValue) else ends[l - 1]
  }

  /** The levels have been swept one after the other, with these stores in between. */
  ghost predicate LevelsSwept(stores: seq<State>, ends: seq<InternalKey>, from: Bytes, to: Bytes, maxFileSize: nat) {
    && |stores| == |ends| + 1
    && forall l :: 0 <= l < |ends| ==>
                     IsSwept(stores[l], stores[l + 1], l, SweepFrom(from, ends, l), InternalKey(to, 0, TypeDeletion), ends[l], maxFileSize)
  }

  /** The deepest level that a compaction of the range goes to: 1, or the last but one at most that has a file in it. */
  ghost predicate IsDeepest(v: seq<seq<File>>, from: Bytes, to: Bytes, level: nat)
    requires |v| == NUM_LEVELS
  {
    && 1 <= level < NUM_LEVELS - 1 && (level > 1 ==> AnyInRange(v[level], from, to))
    && forall l :: level < l < NUM_LEVELS - 1 ==> !AnyInRange(v[l], from, to)
  }

  /** What an operation that succeeds does to the store. */
  ghost predicate OpStep(s: State, op: Op, t: State, maxFileSize: nat) {
    match op
    case WriteBatch(batch) => t == WriteAll(s, batch)
    case MakeRoom(full, next) =>
      if !full || s.mem == [] then t == s
      else exists mid :: IsFlushed(Rotated(s), mid) && ThenCompacted(mid, t, next, maxFileSize)
    case CompactFile(level, ix) => FileCompacted(s, t, level, ix, maxFileSize)
    case CompactRange(from, to, next) =>
      && |s.files| == NUM_LEVELS
      && exists mid, stores, ends ::
           IsFlushed(Rotated(s), mid) && LevelsSwept(stores, ends, from, to, maxFileSize)
           && |ends| > 0 && IsDeepest(s.files, from, to, |ends| - 1)
           && (if s.mem == [] then stores[0] == s else ThenCompacted(mid, stores[0], next, maxFileSize))
           && t == stores[|ends|]
  }

  lemma {:induction false} FlushKeepsLevels(s: State, t: State)
    requires OutOfOrder(s, t) || (IsFlushed(s, t) && |s.files| == NUM_LEVELS)
    ensures |t.files| == NUM_LEVELS && IsFlushed(s, t)
  {
    hide StoreOk;
    hide OverlapHidden;
  }

  lemma {:induction false} StartTaken(s: State, t: State, job: Job, maxFileSize: nat)
    requires WasCompacted(s, t, job, maxFileSize)
    ensures forall f :: f in job.start ==> f in job.in0
  {
    hide IsChosen;
    hide InputsOk;
    hide IsOutput;
    hide Installed;
  }

  lemma {:induction false} JobSpares(s: State, t: State, job: Job, maxFileSize: nat)
    requires WasCompacted(s, t, job, maxFileSize)
    ensures |t.files| == |s.files| == NUM_LEVELS && job.level + 1 < NUM_LEVELS
    ensures forall l :: 0 <= l < job.level ==> t.files[l] == s.files[l]
  {
    JobLeaves(s, t, job, maxFileSize);
    hide IsChosen;
    hide IsOutput;
    hide Installed;
  }

  lemma {:induction false} IsRangeStart(v: seq<seq<File>>, level: nat, from: Bytes, to: Bytes, maxFileSize: nat, start: seq<File>)
    requires |v| == NUM_LEVELS && level < NUM_LEVELS
    requires level == 0 ==> Overlapping(v[0], 0, from, to, start)
    requires level > 0 ==> CutToSize(Select(v[level], from, to), start, maxFileSize)
    ensures RangeStart(v, level, from, to, maxFileSize, start)
  {
  }

  lemma {:induction false} IsRangeJob(s: State, t: State, job: Job, level: nat, from: Bytes, to: Bytes, maxFileSize: nat)
    requires WasCompacted(s, t, job, maxFileSize) && job.level == level && job.manual && |s.files| == NUM_LEVELS && level < NUM_LEVELS
    requires RangeStart(s.files, level, from, to, maxFileSize, job.start)
    ensures IsJob(s, t, job, level, from, to, maxFileSize)
  {
    hide WasCompacted;
    hide RangeStart;
  }

  /** A sweep goes on. */
  lemma {:induction false} SweepMore(states: seq<State>, jobs: seq<Job>, level: nat, from: InternalKey, to: InternalKey,
                                     maxFileSize: nat, t: State, job: Job)
    requires IsSweep(states, jobs, level, from, to, maxFileSize) && StoreOk(t) && job.in0 != []
    requires IsJob(states[|jobs|], t, job, level, StartKey(from, jobs, |jobs|).ukey, to.ukey, maxFileSize)
    ensures IsSweep(states + [t], jobs + [job], level, from, to, maxFileSize)
  {
    hide StoreOk;
    hide IsJob;
    var states', jobs' := states + [t], jobs + [job];
    assert forall i :: 0 <= i < |jobs'| ==> jobs'[i].in0 != [];
    assert forall i :: 0 <= i <= |jobs| ==> StartKey(from, jobs', i) == StartKey(from, jobs, i);
  }

  /** One more level is swept. */
  lemma {:induction false} SweptMore(stores: seq<State>, ends: seq<InternalKey>, from: Bytes, to: Bytes, maxFileSize: nat,
                                     t: State, end: InternalKey)
    requires LevelsSwept(stores, ends, from, to, maxFileSize)
    requires IsSwept(stores[|ends|], t, |ends|, SweepFrom(from, ends, |ends|), InternalKey(to, 0, TypeDeletion), end, maxFileSize)
    ensures LevelsSwept(stores + [t], ends + [end], from, to, maxFileSize)
    ensures forall l :: 0 <= l <= |ends| ==> SweepFrom(from, ends + [end], l) == SweepFrom(from, ends, l)
  {
    hide IsSwept;
  }

  class DB {
    const maxFileSize: nat
    var mem: seq<Entry>
    var imm: Option<seq<Entry>>
    var files: seq<seq<File>>
    var nextFileNum: nat
    var lastSeq: nat

    function S(): State
      reads this
    {
      State(mem, if imm.Some? then imm.value else [], files, nextFileNum, lastSeq)
    }

    ghost predicate Valid()
      reads this
    {
      StoreOk(S()) && (imm.Some? ==> imm.value != [])
    }

    constructor (maxFileSize: nat)
      ensures Valid() && imm == None && lastSeq == 0 && this.maxFileSize == maxFileSize
      ensures S() == State([], [], seq(NUM_LEVELS, _ => []), 2, 0) && Holds(S(), map[])
    {
      this.maxFileSize := maxFileSize;
      mem, imm := [], None;
      files := seq(NUM_LEVELS, _ => []);
      nextFileNum := 2;
      lastSeq := 0;
      new;
      assert forall i :: 0 <= i < NUM_LAYERS ==> Layer(S(), i) == {};
      assert AllEntries(S()) == {};
    }

    /** Applies an edit to the current version. */
    method LogAndApply(edit: FileEdit)
      requires |files| == NUM_LEVELS && EditOk(edit)
      requires forall l :: 0 <= l < NUM_LEVELS ==> SortedBySmallest(files[l])
      requires forall l :: 1 <= l < NUM_LEVELS ==> Ordered(LiveStep(files[l], edit, l))
      modifies this`files
      ensures |files| == NUM_LEVELS
      ensures forall l :: 0 <= l < NUM_LEVELS ==> files[l] == LiveStep(old(files)[l], edit, l)
    {
      var builder := new Builder();
      builder.Apply(edit);
      files := builder.SaveTo(files);
    }

    method Write(batch: seq<Write>)
      requires Valid() && lastSeq + |batch| < MAX_SEQUENCE_NUMBER
      modifies this`mem, this`lastSeq
      ensures Valid() && lastSeq == old(lastSeq) + |batch| && S() == WriteAll(old(S()), batch)
      ensures forall m :: old(Holds(S(), m)) ==> Holds(S(), AppliedAll(m, batch))
    {
      assert |files| == NUM_LEVELS;
      hide StoreOk;
      hide Holds;
      hide InsertEntry;
      for i := 0 to |batch|
        invariant Valid() && |files| == NUM_LEVELS && lastSeq == old(lastSeq) + i && S() == WriteAll(old(S()), batch[..i])
        invariant forall m :: old(Holds(S(), m)) ==> Holds(S(), AppliedAll(m, batch[..i]))
      {
        WriteHolds(S(), batch[i]);
        var s' := WriteOne(S(), batch[i].key, ValueOf(batch[i]));
        mem, lastSeq := s'.mem, s'.lastSeq;
        assert S() == s';
        assert batch[..i + 1][..i] == batch[..i];
      }
      assert batch[..|batch|] == batch;
    }

    /**
     * A key that memory has reads as it must. For any other the files are asked: the answer is nothing if the search
     * stops at the deletion of another key, and else what the tables that the lookups get to say. So it is what a
     * reader at the sequence number must see, unless a table gives up on a version it has, except exactly when the
     * search stops at another key's deletion although there is a value.
     */
    method Get(rd: Reader, key: Bytes, seqno: nat) returns (r: Option<Bytes>)
      requires Valid() && forall l, f :: 0 <= l < |files| && f in files[l] ==> Built(rd, f, key)
      ensures var reach, probes := ReachOf(rd, key, seqno), ProbesFor(files, key, seqno);
              r == if !NotInMemory(S(), key, seqno) then ReadAt(AllEntries(S()), key, seqno)
                   else if StopsAtOther(reach, probes, key, seqno) then None
                   else ReadAt(Contents(Open(reach, probes)), key, seqno)
      ensures var reach, probes, want := ReachOf(rd, key, seqno), ProbesFor(files, key, seqno), ReadAt(AllEntries(S()), key, seqno);
              (forall f :: f in probes && Sees(f, key, seqno) ==> Built(rd, f, key) && !GivesUp(rd, f, key, seqno)) ==>
                (r == want <==> !(NotInMemory(S(), key, seqno) && StopsAtOther(reach, probes, key, seqno) && want.Some?))
    {
      hide StoreOk;
      hide FilesOk;
      hide ReadAt;
      hide StopsAtOther;
      hide Search;
      hide Open;
      hide ProbesFor;
      hide Built;
      MemAnswers(S(), key, seqno);
      var (v, deleted) := MemGet(mem, key, seqno);
      if v.Some? || deleted {
        return v;
      }
      if imm.Some? {
        var (w, gone) := MemGet(imm.value, key, seqno);
        if w.Some? || gone {
          return w;
        }
      }
      r := VersionGet(rd, files, key, seqno);
      FileAnswers(ReachOf(rd, key, seqno), S(), key, seqno);
      NoneGivesUp(rd, S(), key, seqno);
    }

    /**
     * The memtable, if it is full or the switch forced, is switched and flushed, and then a file compacted, if one is
     * named. False if the flush leaves the store out of order.
     */
    method MakeRoomForWrite(force: bool, full: bool, next: Option<(nat, nat)>) returns (ok: bool, ghost mid: State)
      requires Valid() && imm == None
      modifies this
      ensures imm == None && lastSeq == old(lastSeq)
      ensures ok <==> Valid()
      ensures if (!force && !full) || old(mem) == [] then ok && S() == old(S())
              else IsFlushed(Rotated(old(S())), mid) && (if ok then ThenCompacted(mid, S(), next, maxFileSize) else S() == mid)
      ensures !ok ==> OutOfOrder(Rotated(old(S())), S())
      ensures force || full ==> (ok <==> !HidesOverlap(Rotated(old(S()))))
      ensures ok ==> forall m :: old(Holds(S(), m)) ==> Holds(S(), m)
    {
      mid := S();
      if (!force && !full) || mem == [] {
        return true, mid;
      }
      RotateStep(S());
      hide StoreOk;
      hide Holds;
      hide HidesOverlap;
      hide OutOfOrder;
      hide IsFlushed;
      hide ThenCompacted;
      imm := Some(mem);
      mem := [];
      assert S() == Rotated(old(S()));
      ok, mid := MaybeDoCompaction(next);
    }

    /** Flushes a pending memtable, then compacts the file named, if any. */
    method MaybeDoCompaction(next: Option<(nat, nat)>) returns (ok: bool, ghost mid: State)
      requires Valid()
      modifies this
      ensures imm == None && lastSeq == old(lastSeq) && mem == old(mem)
      ensures ok <==> Valid()
      ensures IsFlushed(old(S()), mid) && (if ok then ThenCompacted(mid, S(), next, maxFileSize) else S() == mid)
      ensures ok <==> !HidesOverlap(old(S()))
      ensures !ok ==> OutOfOrder(old(S()), S())
      ensures ok ==> forall m :: old(Holds(S(), m)) ==> Holds(S(), m)
    {
      hide StoreOk;
      hide Holds;
      hide OverlapHidden;
      hide FileCompacted;
      hide FlushesTo;
      hide Flushed;
      ok := true;
      if imm.Some? {
        ghost var level, f;
        ok, level, f := CompactMemtable();
      }
      mid := S();
      if ok && next.Some? {
        CompactFile(next.value.0, next.value.1);
      }
    }

    /**
     * Writes the immutable memtable to a table on the level picked for it. The store stays in order, and every map it
     * held is held, exactly if no level-0 overlap is hidden from the test for disjoint files.
     */
    method CompactMemtable() returns (ok: bool, ghost l: nat, ghost f: File)
      requires Valid() && imm.Some?
      modifies this
      ensures imm == None && lastSeq == old(lastSeq) && mem == old(mem)
      ensures FlushesTo(old(S()), l, f) && S() == Flushed(old(S()), l, f)
      ensures ok <==> Valid()
      ensures ok <==> !HidesOverlap(old(S()))
      ensures ok ==> forall m :: old(Holds(S(), m)) ==> Holds(S(), m)
    {
      hide StoreOk;
      hide Holds;
      hide FilesOk;
      hide AnyInRange;
      hide DisjointTest;
      hide PassesOver;
      hide SortFiles;
      hide NoSharedKey;
      hide LiveStep;
      hide Ordered;
      ghost var s := S();
      VersionFacts(s);
      var es := imm.value;
      var size: nat := *;
      var table := File(nextFileNum, size, es[0].key, es[|es| - 1].key, es);
      var level := PickMemtableOutputLevel(files, table.smallest.ukey, table.largest.ukey);
      var shared := SharesKey(files[0], es);
      l, f := level, table;
      PickedFlush(s, level, f);
      FlushInstalls(s, level, f);
      imm := None;
      nextFileNum := nextFileNum + 1;
      LogAndApply(FileEdit({}, [(level, table)]));
      assert S() == Flushed(s, level, f) by {
        assert files == Flushed(s, level, f).files;
      }
      return level == 0 || !shared, l, f;
    }

    /** An automatic compaction of one file, which leaves its level. */
    method CompactFile(level: nat, ix: nat)
      requires Valid()
      modifies this`files, this`nextFileNum
      ensures Valid() && FileCompacted(old(S()), S(), level, ix, maxFileSize)
      ensures level + 1 < NUM_LEVELS && ix < |old(files)[level]| ==>
                Fewer(old(files), files, level) && old(files)[level][ix] !in files[level]
      ensures forall m :: old(Holds(S(), m)) ==> Holds(S(), m)
    {
      VersionFacts(S());
      hide StoreOk;
      hide Holds;
      hide WasCompacted;
      hide Overlapping;
      hide Separable;
      if level + 1 < NUM_LEVELS && ix < |files[level]| {
        ghost var s := S();
        var start := PickInputs(files, level, ix);
        var _, job := StartCompaction(level, start, false);
        JobLeaves(s, S(), job, maxFileSize);
        StartTaken(s, S(), job, maxFileSize);
      }
    }

    /** Runs a compaction of the chosen files; returns the largest key of the last input on this level. */
    method StartCompaction(level: nat, start: seq<File>, manual: bool) returns (end: InternalKey, ghost job: Job)
      requires |files| == NUM_LEVELS && level + 1 < NUM_LEVELS && Separable(files[level], level, start)
      requires Valid()
      modifies this`files, this`nextFileNum
      ensures WasCompacted(old(S()), S(), job, maxFileSize)
      ensures job.level == level && job.start == start && job.manual == manual
      ensures job.in0 != [] && end == job.in0[|job.in0| - 1].largest
      ensures Valid() && Fewer(old(files), files, level)
      ensures forall m :: old(Holds(S(), m)) ==> Holds(S(), m)
    {
      hide StoreOk;
      hide FilesOk;
      hide LevelsOk;
      hide Holds;
      hide Separable;
      hide InputsOk;
      hide Installed;
      hide IsOutput;
      hide IsChosen;
      hide GrandparentsOf;
      VersionFacts(S());
      StartNotEmpty(files[level], level, start);
      var in0, in1, grandparents := SetupOtherInputs(files, level, start, maxFileSize);
      InputsFit(files, level, in0, in1);
      end := in0[|in0| - 1].largest;
      var inputsSize := TotalSize(grandparents);
      if !manual && |in0| == 1 && |in1| == 0 && inputsSize < 10 * maxFileSize {
        assert in0 == [in0[0]] && in1 == [];
        MoveFile(level, in0[0]);
        job := Job(level, start, manual, in0, in1, in0);
      } else {
        ghost var outs := CompactInputs(level, in0, in1);
        job := Job(level, start, manual, in0, in1, outs);
      }
    }

    /** A trivial move: the file is handed to the next level. */
    method MoveFile(level: nat, f: File)
      requires Valid() && InputsOk(files, level, [f], [])
      modifies this`files
      ensures Valid() && Fewer(old(files), files, level)
      ensures files == Installed(old(files), level, [f], [], [f])
      ensures forall m :: old(Holds(S(), m)) ==> Holds(S(), m)
    {
      hide StoreOk;
      hide Holds;
      hide InputsOk;
      hide OutputsFit;
      hide LiveStep;
      hide Installed;
      hide FilesOk;
      hide LevelsOk;
      hide SortedBySmallest;
      hide Ordered;
      ghost var s := S();
      VersionFacts(s);
      MoveFits(s, level, f);
      MoveStep(s, level, f);
      InstallEdits(s, level, [f], [], [f], nextFileNum);
      FewerFiles(s, level, [f], [], [f]);
      LogAndApply(InstallEdit(level, [f], [], [f]));
      assert files == Installed(s.files, level, [f], [], [f]);
    }

    /** A merging compaction: rewrite the inputs, then install the outputs. */
    method CompactInputs(level: nat, in0: seq<File>, in1: seq<File>) returns (ghost outs: seq<File>)
      requires Valid() && InputsOk(files, level, in0, in1)
      modifies this`files, this`nextFileNum
      ensures Valid() && Fewer(old(files), files, level)
      ensures IsOutput(old(S()), level, in0, in1, outs) && S() == Compacted(old(S()), level, in0, in1, outs)
      ensures forall m :: old(Holds(S(), m)) ==> Holds(S(), m)
    {
      hide StoreOk;
      hide Holds;
      hide InputsOk;
      hide OutputsFit;
      hide LiveStep;
      hide Kept;
      hide MergeAll;
      hide SourcesFor;
      hide SourcesOk;
      hide LevelsOk;
      hide DeepLevelsOk;
      hide OutputsOk;
      hide Flatten;
      hide Installed;
      hide FilesOk;
      hide SortedBySmallest;
      hide Ordered;
      ghost var s := S();
      VersionFacts(s);
      var c := new Compaction(level, files);
      SourcesFit(s, level, in0, in1);
      assert lastSeq < MAX_SEQUENCE_NUMBER;
      var outputs := DoCompactionWork(c, SourcesFor(level, in0, in1), lastSeq, nextFileNum);
      assert IsOutput(s, level, in0, in1, outputs);
      CompactStep(s, level, in0, in1, outputs);
      InstallEdits(s, level, in0, in1, outputs, nextFileNum + |outputs|);
      FewerFiles(s, level, in0, in1, outputs);
      nextFileNum := nextFileNum + |outputs|;
      LogAndApply(InstallEdit(level, in0, in1, outputs));
      assert files == Installed(s.files, level, in0, in1, outputs);
      outs := outputs;
    }

    /** The deepest level but the last with a file in the range; at least 1. */
    method DeepestOverlap(from: Bytes, to: Bytes) returns (level: nat)
      requires |files| == NUM_LEVELS
      ensures IsDeepest(files, from, to, level)
    {
      level := 1;
      for l := 1 to NUM_LEVELS - 1
        invariant 1 <= level < NUM_LEVELS - 1 && level <= l
        invariant level > 1 ==> AnyInRange(files[level], from, to)
        invariant forall m :: level < m < l ==> !AnyInRange(files[m], from, to)
      {
        var overlap := SomeFileOverlapsRange(files[l], from, to);
        if overlap {
          level := l;
        }
      }
    }

    /**
     * A manual compaction of a key range, level by level: no file of a level that it goes through is left in the range
     * from the level's start on, which is the range's start on level 0 and deeper where the level above ended.
     */
    method CompactRange(from: Bytes, to: Bytes, next: Option<(nat, nat)>)
      returns (ok: bool, ghost mid: State, ghost stores: seq<State>, ghost ends: seq<InternalKey>)
      requires Valid() && imm == None
      modifies this
      ensures imm == None && lastSeq == old(lastSeq)
      ensures ok <==> Valid()
      ensures ok <==> !HidesOverlap(Rotated(old(S())))
      ensures !ok ==> OutOfOrder(Rotated(old(S())), S())
      ensures ok ==> forall m :: old(Holds(S(), m)) ==> Holds(S(), m)
      ensures IsFlushed(Rotated(old(S())), mid)
      ensures ok ==> LevelsSwept(stores, ends, from, to, maxFileSize) && S() == stores[|ends|]
      ensures ok ==> if old(mem) == [] then stores[0] == old(S()) else ThenCompacted(mid, stores[0], next, maxFileSize)
      ensures |old(files)| == |files| == NUM_LEVELS
      ensures ok ==> |ends| > 0 && IsDeepest(old(files), from, to, |ends| - 1)
      ensures ok ==> forall l :: 0 <= l < |ends| ==> !AnyInRange(files[l], SweepFrom(from, ends, l).ukey, to)
    {
      hide StoreOk;
      hide FilesOk;
      hide Holds;
      hide HidesOverlap;
      hide OutOfOrder;
      hide AnyInRange;
      hide IsSwept;
      hide ThenCompacted;
      hide FlushesTo;
      VersionFacts(S());
      var maxLevel := DeepestOverlap(from, to);
      ok, mid := MakeRoomForWrite(true, true, next);
      mid := if old(mem) == [] then Rotated(old(S())) else mid;
      stores, ends := [S()], [];
      if !ok {
        FlushKeepsLevels(Rotated(old(S())), S());
        return;
      }
      stores, ends := SweepLevels(from, to, maxLevel);
    }

    /** Compacts a key range on the levels up to one. */
    method SweepLevels(from: Bytes, to: Bytes, maxLevel: nat) returns (ghost stores: seq<State>, ghost ends: seq<InternalKey>)
      requires Valid() && maxLevel + 1 < NUM_LEVELS
      modifies this`files, this`nextFileNum
      ensures Valid() && |files| == NUM_LEVELS && |ends| == maxLevel + 1
      ensures forall m :: old(Holds(S(), m)) ==> Holds(S(), m)
      ensures LevelsSwept(stores, ends, from, to, maxFileSize) && stores[0] == old(S()) && S() == stores[|ends|]
      ensures forall l :: 0 <= l < |ends| ==> !AnyInRange(files[l], SweepFrom(from, ends, l).ukey, to)
    {
      hide StoreOk;
      hide FilesOk;
      hide Holds;
      hide AnyInRange;
      hide IsSwept;
      VersionFacts(S());
      stores, ends := [S()], [];
      var ifrom := InternalKey(from, MAX_SEQUENCE_NUMBER, TypeValue);
      var iend := InternalKey(to, 0, TypeDeletion);
      for l := 0 to maxLevel + 1
        invariant Valid() && |files| == NUM_LEVELS && |ends| == l
        invariant forall m :: old(Holds(S(), m)) ==> Holds(S(), m)
        invariant ifrom == SweepFrom(from, ends, l)
        invariant LevelsSwept(stores, ends, from, to, maxFileSize) && stores[0] == old(S()) && S() == stores[l]
        invariant forall k :: 0 <= k < l ==> !AnyInRange(files[k], SweepFrom(from, ends, k).ukey, to)
      {
        ifrom := CompactLevel(l, ifrom, iend);
        SweptMore(stores, ends, from, to, maxFileSize, S(), ifrom);
        stores, ends := stores + [S()], ends + [ifrom];
      }
    }

    /** Compacts the files of a level in a key range until there is none; each time from the end of the last on. */
    method CompactLevel(level: nat, from: InternalKey, to: InternalKey) returns (end: InternalKey)
      requires Valid() && level + 1 < NUM_LEVELS
      modifies this`files, this`nextFileNum
      ensures Valid() && |files| == |old(files)| == NUM_LEVELS
      ensures forall m :: old(Holds(S(), m)) ==> Holds(S(), m)
      ensures forall l :: 0 <= l < level ==> files[l] == old(files)[l]
      ensures IsSwept(old(S()), S(), level, from, to, end, maxFileSize)
      ensures !AnyInRange(files[level], from.ukey, to.ukey)
    {
      hide StoreOk;
      hide FilesOk;
      hide Holds;
      hide Separable;
      hide InRange;
      hide IsJob;
      hide WasCompacted;
      hide RangeStart;
      hide CutToSize;
      hide Overlapping;
      end := from;
      VersionFacts(S());
      ghost var states, jobs := [S()], [];
      while true
        invariant Valid() && |files| == NUM_LEVELS
        invariant forall m :: old(Holds(S(), m)) ==> Holds(S(), m)
        invariant forall l :: 0 <= l < level ==> files[l] == old(files)[l]
        invariant IsSweep(states, jobs, level, from, to, maxFileSize)
        invariant states[0] == old(S()) && states[|jobs|] == S() && end == StartKey(from, jobs, |jobs|)
        decreases |files[level]|
      {
        VersionFacts(S());
        var inputs := RangeInputs(files, level, end, to, maxFileSize);
        if inputs == [] {
          break;
        }
        ghost var s, key := S(), end.ukey;
        IsRangeStart(s.files, level, key, to.ukey, maxFileSize, inputs);
        ghost var job;
        end, job := StartCompaction(level, inputs, true);
        JobSpares(s, S(), job, maxFileSize);
        IsRangeJob(s, S(), job, level, key, to.ukey, maxFileSize);
        SweepMore(states, jobs, level, from, to, maxFileSize, S(), job);
        states, jobs := states + [S()], jobs + [job];
      }
      SweepClears(states, jobs, level, from, to, maxFileSize);
    }

    /**
     * Any run of writes, memtable switches and compactions, from an empty database: every operation does what it says,
     * and reading every key gives what the plain map of the writes gives. A run is followed up to its first flush below
     * an overlapping level-0 file; what the store was before that flush holds the map of the writes so far.
     */
    method Run(ops: seq<Op>) returns (done: nat, ghost trace: seq<State>)
      requires Valid() && imm == None && lastSeq == 0 && Holds(S(), map[])
      requires Writes(ops) < MAX_SEQUENCE_NUMBER
      modifies this
      ensures done <= |ops| && |trace| == done + 1 && trace[0] == old(S())
      ensures forall i :: 0 <= i < done ==> OpStep(trace[i], ops[i], trace[i + 1], maxFileSize)
      ensures done == |ops| ==> S() == trace[done] && Valid() && Holds(S(), Reference(ops))
      ensures done < |ops| ==>
                && (ops[done].MakeRoom? || ops[done].CompactRange?) && OutOfOrder(Rotated(trace[done]), S())
                && Holds(Rotated(trace[done]), Reference(ops[..done]))
    {
      hide StoreOk;
      hide Holds;
      hide HidesOverlap;
      hide OutOfOrder;
      hide OpStep;
      trace := [S()];
      for i := 0 to |ops|
        invariant Valid() && imm == None && lastSeq == Writes(ops[..i])
        invariant Holds(S(), Reference(ops[..i]))
        invariant |trace| == i + 1 && trace[0] == old(S()) && trace[i] == S()
        invariant forall k :: 0 <= k < i ==> OpStep(trace[k], ops[k], trace[k + 1], maxFileSize)
      {
        assert ops[..i + 1][..i] == ops[..i];
        WritesPrefix(ops, i + 1);
        RotateStep(S());
        var ok := RunOp(ops[i]);
        if !ok {
          return i, trace;
        }
        trace := trace + [S()];
      }
      assert ops[..|ops|] == ops;
      return |ops|, trace;
    }

    method RunOp(op: Op) returns (ok: bool)
      requires Valid() && imm == None && (op.WriteBatch? ==> lastSeq + |op.batch| < MAX_SEQUENCE_NUMBER)
      modifies this
      ensures imm == None && lastSeq == old(lastSeq) + if op.WriteBatch? then |op.batch| else 0
      ensures ok ==> Valid() && OpStep(old(S()), op, S(), maxFileSize)
      ensures ok ==> forall m :: old(Holds(S(), m)) ==> Holds(S(), if op.WriteBatch? then AppliedAll(m, op.batch) else m)
      ensures !ok ==> (op.MakeRoom? || op.CompactRange?) && OutOfOrder(Rotated(old(S())), S())
    {
      hide StoreOk;
      hide Holds;
      hide HidesOverlap;
      hide OutOfOrder;
      hide IsFlushed;
      hide ThenCompacted;
      hide FileCompacted;
      hide LevelsSwept;
      hide IsDeepest;
      hide WriteAll;
      hide AppliedAll;
      hide AnyInRange;
      ok := true;
      match op {
        case WriteBatch(batch) => Write(batch);
        case MakeRoom(full, next) =>
          ghost var mid;
          ok, mid := MakeRoomForWrite(false, full, next);
        case CompactFile(level, ix) => CompactFile(level, ix);
        case CompactRange(from, to, next) =>
          ghost var mid, stores, ends;
          ok, mid, stores, ends := CompactRange(from, to, next);
      }
    }
  }

  lemma {:induction false} WritesPrefix(ops: seq<Op>, n: nat)
    requires n <= |ops|
    ensures Writes(ops[..n]) <= Writes(ops)
  {
    if n < |ops| {
      WritesPrefix(ops[..|ops| - 1], n);
      assert ops[..|ops| - 1][..n] == ops[..n];
    } else {
      assert ops[..n] == ops;
    }
  }
}
