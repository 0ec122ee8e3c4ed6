/** The manifest: a log of version edits, and what recovery reads from it (src/version_set.rs). */
module Manifest {
  import opened Bytes
  import opened Version
  import opened VersionBuilder
  import opened Store
  import opened StoreSteps

  /** A version edit as recorded: file changes and the counters that it sets. */
  datatype Record = Record(edit: FileEdit, logNum: Option<nat>, nextFile: Option<nat>, lastSeq: Option<nat>)

  datatype Meta = Meta(logNum: Option<nat>, nextFile: Option<nat>, lastSeq: Option<nat>)

  /** The last value that each counter was set to. */
  function ReadMeta(recs: seq<Record>): Meta {
    if recs == [] then Meta(None, None, None)
    else
      var m, r := ReadMeta(recs[..|recs| - 1]), recs[|recs| - 1];
      Meta(Override(m.logNum, r.logNum), Override(m.nextFile, r.nextFile), Override(m.lastSeq, r.lastSeq))
  }

  function Edits(recs: seq<Record>): seq<FileEdit> {
    seq(|recs|, i requires 0 <= i < |recs| => recs[i].edit)
  }

  /** The version that one builder over an empty base makes of all the edits. */
  function ReadFiles(recs: seq<Record>): seq<seq<File>> {
    seq(NUM_LEVELS, l requires 0 <= l < NUM_LEVELS => SaveLevel(Replay(Edits(recs), l), []))
  }

  /** The version after one edit in live operation. */
  function LiveFiles(files: seq<seq<File>>, e: FileEdit): (r: seq<seq<File>>)
    requires |files| == NUM_LEVELS
    ensures |r| == NUM_LEVELS
  {
    seq(NUM_LEVELS, l requires 0 <= l < NUM_LEVELS => LiveStep(files[l], e, l))
  }

  /** Reads a manifest back. Fails exactly if no record sets one of the counters. */
  method Recover(recs: seq<Record>) returns (r: Option<(seq<seq<File>>, nat, nat, nat)>)
    requires forall i :: 0 <= i < |recs| ==> EditOk(recs[i].edit)
    requires forall l :: 1 <= l < NUM_LEVELS ==> Ordered(ReadFiles(recs)[l])
    ensures var m := ReadMeta(recs);
            r == if m.logNum.Some? && m.nextFile.Some? && m.lastSeq.Some?
                 then Some((ReadFiles(recs), m.logNum.value, m.nextFile.value + 1, m.lastSeq.value))
                 else None
  {
    var builder := new Builder();
    var logNum, nextFile, lastSeq := None, None, None;
    hide SaveLevel;
    for i := 0 to |recs|
      invariant builder.Valid() && fresh(builder)
      invariant Meta(logNum, nextFile, lastSeq) == ReadMeta(recs[..i])
      invariant forall l :: 0 <= l < NUM_LEVELS ==> builder.State(l) == Replay(Edits(recs[..i]), l)
    {
      EditsPrefix(recs, i);
      builder.Apply(recs[i].edit);
      if recs[i].logNum.Some? {
        logNum := recs[i].logNum;
      }
      if recs[i].nextFile.Some? {
        nextFile := recs[i].nextFile;
      }
      if recs[i].lastSeq.Some? {
        lastSeq := recs[i].lastSeq;
      }
    }
    assert recs[..|recs|] == recs;
    if logNum.None? || nextFile.None? || lastSeq.None? {
      return None;
    }
    assert forall l :: 0 <= l < NUM_LEVELS ==> ReadFiles(recs)[l] == SaveLevel(builder.State(l), []);
    var files := builder.SaveTo(seq(NUM_LEVELS, _ => []));
    assert files == ReadFiles(recs);
    return Some((files, logNum.value, nextFile.value + 1, lastSeq.value));
  }

  lemma {:induction false} EditsPrefix(recs: seq<Record>, i: nat)
    requires i < |recs|
    ensures recs[..i + 1][..i] == recs[..i]
    ensures forall l :: Replay(Edits(recs[..i + 1]), l) == ApplyLevel(Replay(Edits(recs[..i]), l), recs[i].edit, l)
  {
    assert Edits(recs[..i + 1])[..i] == Edits(recs[..i]);
    assert recs[..i + 1][..i] == recs[..i];
  }

  // ----- a manifest that stands for a version -----

  function Added(recs: seq<Record>, level: nat): seq<File> {
    Replay(Edits(recs), level).added
  }

  /** No live file was ever added to a deeper level: files only move down. */
  ghost predicate NotBelow(recs: seq<Record>, files: seq<seq<File>>)
    requires |files| == NUM_LEVELS
  {
    forall m, l, g :: 0 <= m < l < NUM_LEVELS && g in files[m] ==> g.num !in Nums(Added(recs, l))
  }

  /** The manifest replays to exactly these files, and every number in it is below the bound. */
  ghost predicate StandsFor(recs: seq<Record>, files: seq<seq<File>>, bound: nat) {
    && |files| == NUM_LEVELS
    && (forall l :: 0 <= l < NUM_LEVELS ==> AddedOnce(Edits(recs), l))
    && ReadFiles(recs) == files
    && NotBelow(recs, files)
    && (forall l, g :: 0 <= l < NUM_LEVELS && g in Added(recs, l) ==> g.num < bound)
  }

  /** What the edit adds to a level was never added to that level or a deeper one. */
  ghost predicate Unadded(recs: seq<Record>, e: FileEdit) {
    forall m, l, g :: 0 <= m <= l < NUM_LEVELS && g in AddedAt(e.newFiles, m) ==> g.num !in Nums(Added(recs, l))
  }

  ghost predicate AddsOnce(e: FileEdit) {
    forall m :: 0 <= m < NUM_LEVELS ==> NumsDistinct(AddedAt(e.newFiles, m))
  }

  ghost predicate AddsBelow(e: FileEdit, bound: nat) {
    forall m, g :: 0 <= m < NUM_LEVELS && g in AddedAt(e.newFiles, m) ==> g.num < bound
  }

  lemma {:induction false} LiveMembers(base: seq<File>, e: FileEdit, level: nat)
    ensures forall g :: g in AddedAt(e.newFiles, level) ==> g in LiveStep(base, e, level)
    ensures forall g :: g in LiveStep(base, e, level) ==> g in base || g in AddedAt(e.newFiles, level)
  {
    var st := ApplyLevel(EmptyLevel, e, level);
    SortMembers(base + st.added);
    KeepMembers(SortFiles(base + st.added), st.deleted);
    hide SortFiles;
    hide Keep;
    forall g | g in AddedAt(e.newFiles, level) ensures g in LiveStep(base, e, level) {
      assert g.num in Nums(AddedAt(e.newFiles, level));
    }
  }

  lemma {:induction false} DistinctConcat(a: seq<File>, b: seq<File>)
    requires NumsDistinct(a) && NumsDistinct(b) && forall g :: g in b ==> g.num !in Nums(a)
    ensures NumsDistinct(a + b)
  {
    var c := a + b;
    forall i, j | 0 <= i < j < |c| ensures c[i].num != c[j].num {
      if i < |a| <= j {
        assert c[i] in a && c[j] in b;
      }
    }
  }

  lemma {:induction false} AddedAppend(recs: seq<Record>, r: Record, l: nat)
    ensures Edits(recs + [r]) == Edits(recs) + [r.edit]
    ensures Added(recs + [r], l) == Added(recs, l) + AddedAt(r.edit.newFiles, l)
  {
    assert (Edits(recs) + [r.edit])[..|recs|] == Edits(recs);
    assert Edits(recs + [r]) == Edits(recs) + [r.edit];
  }

  /** One more record in the manifest is one more live step. */
  lemma {:induction false} AppendLevel(recs: seq<Record>, r: Record, l: nat)
    requires l < NUM_LEVELS && AddedOnce(Edits(recs), l) && AddsOnce(r.edit) && Unadded(recs, r.edit)
    ensures AddedOnce(Edits(recs + [r]), l)
    ensures ReadFiles(recs + [r])[l] == LiveStep(ReadFiles(recs)[l], r.edit, l)
  {
    hide LiveStep;
    hide SaveLevel;
    AddedAppend(recs, r, l);
    assert NumsDistinct(AddedAt(r.edit.newFiles, l));
    DistinctConcat(Added(recs, l), AddedAt(r.edit.newFiles, l));
    ReplayIsLive(Edits(recs), l);
    ReplayIsLive(Edits(recs + [r]), l);
    assert (Edits(recs) + [r.edit])[..|recs|] == Edits(recs);
  }

  /** Appending a record keeps the manifest in step with the version. */
  lemma {:induction false} AppendStandsFor(recs: seq<Record>, files: seq<seq<File>>, r: Record, bound: nat, bound': nat)
    requires StandsFor(recs, files, bound) && bound <= bound'
    requires AddsOnce(r.edit) && Unadded(recs, r.edit) && AddsBelow(r.edit, bound')
    requires FilesOk(LiveFiles(files, r.edit), bound')
    ensures StandsFor(recs + [r], LiveFiles(files, r.edit), bound')
  {
    hide LiveStep;
    hide SaveLevel;
    hide Replay;
    hide LevelFilesOk;
    var files' := LiveFiles(files, r.edit);
    forall l | 0 <= l < NUM_LEVELS
      ensures AddedOnce(Edits(recs + [r]), l) && ReadFiles(recs + [r])[l] == files'[l]
      ensures Added(recs + [r], l) == Added(recs, l) + AddedAt(r.edit.newFiles, l)
    {
      AppendLevel(recs, r, l);
      AddedAppend(recs, r, l);
    }
    forall m, l, g: File | 0 <= m < l < NUM_LEVELS && g in files'[m] ensures g.num !in Nums(Added(recs + [r], l)) {
      LiveMembers(files[m], r.edit, m);
      LiveMembers(files[l], r.edit, l);
      assert NoSharedNum(files'[m], files'[l]);
      assert Added(recs + [r], l) == Added(recs, l) + AddedAt(r.edit.newFiles, l);
      assert g.num !in Nums(Added(recs, l));
    }
    forall l, g: File | 0 <= l < NUM_LEVELS && g in Added(recs + [r], l) ensures g.num < bound' {
      assert Added(recs + [r], l) == Added(recs, l) + AddedAt(r.edit.newFiles, l);
    }
  }

  /** Added files survive their edit, so a level without a number twice tells that nothing was added twice. */
  lemma {:induction false} AddedSurvive(st: LevelState, e: FileEdit, l: nat)
    requires NumsDistinct(st.added) && NumsDistinct(SaveLevel(ApplyLevel(st, e, l), []))
    ensures NumsDistinct(ApplyLevel(st, e, l).added)
    ensures forall g :: g in AddedAt(e.newFiles, l) ==> g in SaveLevel(ApplyLevel(st, e, l), [])
  {
    hide SortFiles;
    hide Keep;
    hide Nums;
    hide AddedAt;
    hide NumsAt;
    hide NumsDistinct;
    var A, N, dead := st.added, AddedAt(e.newFiles, l), ApplyLevel(st, e, l).deleted;
    assert [] + (A + N) == A + N;
    NumsOf(N);
    KeepSort(A + N, dead);
    KeepConcat(A, N, dead);
    KeepNone(N, dead);
    var kept := Keep(A, dead) + N;
    SortMembers(kept);
    UnsortedDistinct(kept);
    NumsApart(Keep(A, dead), N);
    KeepMembers(A, dead);
    forall g: File | g in N ensures g.num !in Nums(A) {
      NotAmong(A, Keep(A, dead), N, dead, g);
    }
    SuffixDistinct(Keep(A, dead), N);
    DistinctConcat(A, N);
  }

  lemma {:induction false} NotAmong(A: seq<File>, K: seq<File>, N: seq<File>, dead: set<nat>, g: File)
    requires g in N && g.num !in dead && (forall f :: f in K <==> f in A && f.num !in dead)
    requires forall f :: f in K ==> f.num !in Nums(N)
    ensures g.num !in Nums(A)
  {
    forall f | f in A ensures f.num != g.num {
      assert g.num in Nums(N) && (f.num !in dead ==> f in K);
    }
  }

  lemma {:induction false} SuffixDistinct(a: seq<File>, b: seq<File>)
    requires NumsDistinct(a + b)
    ensures NumsDistinct(b)
  {
    assert forall i :: 0 <= i < |b| ==> (a + b)[|a| + i] == b[i];
  }

  /** A record that reads as the same version as another one does as well in its place. */
  lemma {:induction false} SameReading(recs: seq<Record>, r: Record, m: Record, files: seq<seq<File>>, bound: nat)
    requires StandsFor(recs + [r], files, bound) && FilesOk(files, bound) && ReadFiles(recs + [m]) == files
    ensures StandsFor(recs + [m], files, bound)
  {
    hide SaveLevel;
    hide LevelFilesOk;
    hide Replay;
    forall l | 0 <= l < NUM_LEVELS
      ensures AddedOnce(Edits(recs + [m]), l)
      ensures Added(recs + [r], l) == Added(recs, l) + AddedAt(r.edit.newFiles, l)
      ensures Added(recs + [m], l) == Added(recs, l) + AddedAt(m.edit.newFiles, l)
      ensures forall g :: g in AddedAt(m.edit.newFiles, l) ==> g in files[l] && g.num < bound
    {
      AddedAppend(recs, r, l);
      AddedAppend(recs, m, l);
      SameAdded(recs, r, m, files, bound, l);
    }
    forall a, l, g: File | 0 <= a < l < NUM_LEVELS && g in files[a] ensures g.num !in Nums(Added(recs + [m], l)) {
      assert NoSharedNum(files[a], files[l]);
      assert g.num !in Nums(Added(recs + [r], l));
      assert Added(recs + [m], l) == Added(recs, l) + AddedAt(m.edit.newFiles, l);
      assert Added(recs + [r], l) == Added(recs, l) + AddedAt(r.edit.newFiles, l);
    }
    forall l, g: File | 0 <= l < NUM_LEVELS && g in Added(recs + [m], l) ensures g.num < bound {
      assert Added(recs + [m], l) == Added(recs, l) + AddedAt(m.edit.newFiles, l);
      assert g in Added(recs, l) ==> g in Added(recs + [r], l);
    }
  }

  lemma {:induction false} SameAdded(recs: seq<Record>, r: Record, m: Record, files: seq<seq<File>>, bound: nat, l: nat)
    requires l < NUM_LEVELS && AddedOnce(Edits(recs + [r]), l) && FilesOk(files, bound) && ReadFiles(recs + [m]) == files
    ensures AddedOnce(Edits(recs + [m]), l)
    ensures forall g :: g in AddedAt(m.edit.newFiles, l) ==> g in files[l] && g.num < bound
  {
    hide SaveLevel;
    hide ApplyLevel;
    var st := Replay(Edits(recs), l);
    AddedAppend(recs, r, l);
    AddedAppend(recs, m, l);
    assert (Edits(recs) + [m.edit])[..|recs|] == Edits(recs);
    assert LevelFilesOk(files[l], bound);
    assert files[l] == SaveLevel(ApplyLevel(st, m.edit, l), []);
    assert Added(recs + [r], l) == st.added + AddedAt(r.edit.newFiles, l);
    PrefixDistinct(st.added, AddedAt(r.edit.newFiles, l));
    AddedSurvive(st, m.edit, l);
  }

  lemma {:induction false} PrefixDistinct(a: seq<File>, b: seq<File>)
    requires NumsDistinct(a + b)
    ensures NumsDistinct(a)
  {
    assert forall i :: 0 <= i < |a| ==> (a + b)[i] == a[i];
  }

  function SnapshotRecord(files: seq<seq<File>>): Record {
    Record(FileEdit({}, SnapshotFiles(files)), None, None, None)
  }

  lemma {:induction false} SnapshotAdded(files: seq<seq<File>>, l: nat)
    requires |files| == NUM_LEVELS && l < NUM_LEVELS
    ensures Added([SnapshotRecord(files)], l) == files[l]
  {
    var r := SnapshotRecord(files);
    assert [] + [r] == [r];
    AddedAppend([], r, l);
    SnapshotLevel(files, l);
    assert [] + files[l] == files[l];
  }

  /** A fresh manifest that holds only a snapshot stands for the current version. */
  lemma {:induction false} SnapshotStandsFor(files: seq<seq<File>>, bound: nat)
    requires FilesOk(files, bound)
    ensures StandsFor([SnapshotRecord(files)], files, bound)
  {
    hide LiveStep;
    hide SaveLevel;
    hide SortedBySmallest;
    hide Disjoint;
    var recs := [SnapshotRecord(files)];
    forall l | 0 <= l < NUM_LEVELS
      ensures Added(recs, l) == files[l] && AddedOnce(Edits(recs), l) && ReadFiles(recs)[l] == files[l]
    {
      SnapshotAdded(files, l);
      assert LevelFilesOk(files[l], bound);
      LevelsSorted(State([], [], files, bound, 0), l);
      SnapshotReplays(files, l);
    }
    hide Replay;
    forall m, l, g: File | 0 <= m < l < NUM_LEVELS && g in files[m] ensures g.num !in Nums(Added(recs, l)) {
      assert NoSharedNum(files[m], files[l]);
    }
    forall l, g: File | 0 <= l < NUM_LEVELS && g in Added(recs, l) ensures g.num < bound {
      assert LevelFilesOk(files[l], bound);
    }
  }

  lemma {:induction false} SnapshotReplays(files: seq<seq<File>>, l: nat)
    requires |files| == NUM_LEVELS && l < NUM_LEVELS && SortedBySmallest(files[l]) && NumsDistinct(files[l])
    ensures ReadFiles([SnapshotRecord(files)])[l] == files[l]
  {
    hide SaveLevel;
    var recs := [SnapshotRecord(files)];
    SnapshotAdded(files, l);
    assert Edits(recs) == [FileEdit({}, SnapshotFiles(files))] + [];
    ReplayAfterSnapshot(files, [], l);
  }
}
