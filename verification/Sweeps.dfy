/** Compactions as jobs, and the sweep of manual ones over a level (src/db_impl.rs, src/version_set.rs). */
module Sweeps {
  import opened Bytes
  import opened Entries
  import opened Version
  import opened VersionBuilder
  import opened VersionSet
  import opened Store
  import opened StoreSteps

  /** A compaction: the files it begins with, its inputs on both levels, and what takes their place. */
  datatype Job = Job(level: nat, start: seq<File>, manual: bool, in0: seq<File>, in1: seq<File>, outs: seq<File>)

  /** The store after a merging compaction. */
  ghost function Compacted(s: State, level: nat, in0: seq<File>, in1: seq<File>, outs: seq<File>): State
    requires |s.files| == NUM_LEVELS && level + 1 < NUM_LEVELS
  {
    s.(files := Installed(s.files, level, in0, in1, outs), nextFile := s.nextFile + |outs|)
  }

  /** The one input is handed to the next level as it is: not by hand, and it overlaps little two levels down. */
  ghost predicate Moves(v: seq<seq<File>>, job: Job, maxFileSize: nat)
    requires |v| == NUM_LEVELS && job.in0 != []
  {
    && !job.manual && |job.in0| == 1 && job.in1 == []
    && SizeOf(GrandparentsOf(v, job.level, job.in0 + job.in1)) < 10 * maxFileSize
  }

  /** The job takes the store from s to t. */
  ghost predicate WasCompacted(s: State, t: State, job: Job, maxFileSize: nat) {
    && |s.files| == NUM_LEVELS && InputsOk(s.files, job.level, job.in0, job.in1)
    && job.start != [] && IsChosen(s.files, job.level, job.start, job.in0, maxFileSize)
    && (forall f :: f in job.start ==> f in job.in0)
    && if Moves(s.files, job, maxFileSize)
       then job.outs == job.in0 && t == s.(files := Installed(s.files, job.level, job.in0, job.in1, job.outs))
       else IsOutput(s, job.level, job.in0, job.in1, job.outs) && t == Compacted(s, job.level, job.in0, job.in1, job.outs)
  }

  lemma {:induction false} JobInstalls(s: State, t: State, job: Job, maxFileSize: nat)
    requires WasCompacted(s, t, job, maxFileSize)
    ensures t.files == Installed(s.files, job.level, job.in0, job.in1, job.outs)
  {
    hide IsChosen;
    hide InputsOk;
    hide IsOutput;
    hide Moves;
    hide Installed;
  }

  /** The inputs on the level leave it, and nothing else on it or on levels other than the next changes. */
  lemma {:induction false} JobLeaves(s: State, t: State, job: Job, maxFileSize: nat)
    requires WasCompacted(s, t, job, maxFileSize)
    ensures |t.files| == NUM_LEVELS
    ensures forall l :: 0 <= l < NUM_LEVELS && l != job.level && l != job.level + 1 ==> t.files[l] == s.files[l]
    ensures forall f :: f in t.files[job.level] ==> f in s.files[job.level] && f !in job.in0
  {
    hide SortFiles;
    JobInstalls(s, t, job, maxFileSize);
    hide WasCompacted;
    KeepMembers(s.files[job.level], Nums(job.in0));
    assert forall f :: f in job.in0 ==> f.num in Nums(job.in0);
  }

  // ----- one level -----

  /** What a manual compaction of a key range begins with. */
  ghost predicate RangeStart(v: seq<seq<File>>, level: nat, from: Bytes, to: Bytes, maxFileSize: nat, start: seq<File>)
    requires |v| == NUM_LEVELS && level < NUM_LEVELS
  {
    if level == 0 then Overlapping(v[0], 0, from, to, start) else CutToSize(Select(v[level], from, to), start, maxFileSize)
  }

  /** Where the n-th job of a sweep begins: at the range's start, then at the last key of the input that was last. */
  function StartKey(from: InternalKey, jobs: seq<Job>, n: nat): InternalKey
    requires n <= |jobs| && forall i :: 0 <= i < |jobs| ==> jobs[i].in0 != []
  {
    if n == 0 then from else jobs[n - 1].in0[|jobs[n - 1].in0| - 1].largest
  }

  ghost predicate IsJob(s: State, t: State, job: Job, level: nat, from: Bytes, to: Bytes, maxFileSize: nat) {
    && WasCompacted(s, t, job, maxFileSize) && job.level == level && job.manual
    && RangeStart(s.files, level, from, to, maxFileSize, job.start)
  }

  /** Manual compactions of one level, each from where the last one ended. */
  ghost predicate IsSweep(states: seq<State>, jobs: seq<Job>, level: nat, from: InternalKey, to: InternalKey, maxFileSize: nat) {
    && |states| == |jobs| + 1 && (forall i :: 0 <= i < |jobs| ==> jobs[i].in0 != [])
    && (forall i :: 0 <= i < |states| ==> StoreOk(states[i]))
    && forall i :: 0 <= i < |jobs| ==>
                     IsJob(states[i], states[i + 1], jobs[i], level, StartKey(from, jobs, i).ukey, to.ukey, maxFileSize)
  }

  /** A file between two that a range touches is touched by it. */
  lemma {:induction false} BetweenInRange(f: File, g: File, h: File, lo: Bytes, hi: Bytes)
    requires InRange(g, lo, hi) && InRange(h, lo, hi) && !Lt(f.largest.ukey, f.smallest.ukey)
    requires Lt(g.largest.ukey, f.smallest.ukey) && Lt(f.largest.ukey, h.smallest.ukey)
    ensures InRange(f, lo, hi)
  {
    LtOrder();
    hide Lt;
  }

  /** In disjoint files, one that begins behind another has a higher place. */
  lemma {:induction false} PlaceOrder(fs: seq<File>, i: nat, j: nat)
    requires Disjoint(fs) && i < |fs| && j < |fs| && !Lt(fs[i].largest.ukey, fs[i].smallest.ukey)
    requires !Lt(fs[j].largest.ukey, fs[j].smallest.ukey) && Lt(fs[i].largest.ukey, fs[j].smallest.ukey)
    ensures i < j
  {
    LtOrder();
    hide Lt;
  }

  /** The inputs on a deeper level have no gaps. */
  lemma {:induction false} NoGaps(v: seq<seq<File>>, level: nat, from: Bytes, to: Bytes, start: seq<File>, in0: seq<File>,
                                  maxFileSize: nat, f: File, g: File, h: File)
    requires LevelsOk(v) && 0 < level && level + 1 < NUM_LEVELS && start != []
    requires start <= Select(v[level], from, to) && IsChosen(v, level, start, in0, maxFileSize)
    requires f in v[level] && g in in0 && h in in0
    requires Lt(g.largest.ukey, f.smallest.ukey) && Lt(f.largest.ukey, h.smallest.ukey)
    ensures f in in0
  {
    hide Lt;
    hide InRange;
    hide Grows;
    hide RangeOf;
    LevelRanges(v);
    var fs := v[level];
    var sel := Select(fs, from, to);
    if in0 == start {
      assert g in sel && h in sel;
      BetweenInRange(f, g, h, from, to);
      var i :| 0 <= i < |sel| && sel[i] == f;
      var j :| 0 <= j < |start| && start[j] == h;
      SelectDisjoint(fs, from, to);
      PlaceOrder(sel, i, j);
      assert start[i] == f;
    } else {
      assert Larger(v, level, start, in0);
      var all := RangeOf(start + NextLevelInputs(v, level, start));
      BetweenInRange(f, g, h, all.0.ukey, all.1.ukey);
    }
  }

  /** A file in the range that a job leaves lies behind its inputs. */
  lemma {:induction false} LeftBehind(v: seq<seq<File>>, level: nat, from: Bytes, to: Bytes, start: seq<File>, in0: seq<File>,
                                      maxFileSize: nat, f: File)
    requires LevelsOk(v) && 0 < level && level + 1 < NUM_LEVELS && start != [] && in0 != []
    requires start <= Select(v[level], from, to) && IsChosen(v, level, start, in0, maxFileSize)
    requires (forall g :: g in start ==> g in in0) && (forall g :: g in in0 ==> g in v[level])
    requires f in v[level] && f !in in0 && InRange(f, from, to)
    ensures Lt(in0[|in0| - 1].largest.ukey, f.smallest.ukey)
  {
    hide Lt;
    hide InRange;
    hide IsChosen;
    LevelRanges(v);
    var fs, g, h := v[level], start[0], in0[|in0| - 1];
    var sel := Select(fs, from, to);
    SelectDisjoint(fs, from, to);
    assert g in start && h in in0;
    var i :| 0 <= i < |sel| && sel[i] == f;
    assert i >= |start| by {
      assert forall k :: 0 <= k < |start| ==> start[k] == sel[k] && start[k] in start;
    }
    assert Lt(sel[0].largest.ukey, sel[i].smallest.ukey);
    var a :| 0 <= a < |fs| && fs[a] == f;
    var b :| 0 <= b < |fs| && fs[b] == h;
    if a < b {
      assert Lt(fs[a].largest.ukey, fs[b].smallest.ukey);
      NoGaps(v, level, from, to, start, in0, maxFileSize, f, g, h);
    }
    assert b < a;
  }

  /** What a job leaves of the range from the sweep's start on lies in the range from the job's end on. */
  lemma {:induction false} JobClears(s: State, t: State, job: Job, level: nat, key: Bytes, to: Bytes, maxFileSize: nat, f: File)
    requires LevelsOk(s.files) && IsJob(s, t, job, level, key, to, maxFileSize) && job.in0 != []
    requires f in t.files[level] && InRange(f, key, to)
    ensures level > 0 && InRange(f, job.in0[|job.in0| - 1].largest.ukey, to)
  {
    hide IsOutput;
    hide IsChosen;
    hide Moves;
    hide Installed;
    hide NextLevelInputs;
    hide Lt;
    hide InRange;
    JobLeaves(s, t, job, maxFileSize);
    LevelRanges(s.files);
    if level == 0 {
      var a, b :| LeastClosedRange(s.files[0], key, to, a, b) && job.start == Select(s.files[0], a, b);
      LeastRangeEmpty(s.files[0], key, to, a, b);
    } else {
      LeftBehind(s.files, level, key, to, job.start, job.in0, maxFileSize, f);
      BehindInRange(f, job.in0[|job.in0| - 1].largest.ukey, key, to);
    }
  }

  lemma {:induction false} BehindInRange(f: File, k: Bytes, key: Bytes, to: Bytes)
    requires Lt(k, f.smallest.ukey) && InRange(f, key, to) && !Lt(f.largest.ukey, f.smallest.ukey)
    ensures InRange(f, k, to)
  {
    LtOrder();
    hide Lt;
  }

  lemma {:induction false} StoreLevels(s: State)
    requires StoreOk(s)
    ensures LevelsOk(s.files)
  {
    hide LayersOk;
    hide NewerByNumber;
    forall l, f | 0 <= l < NUM_LEVELS && f in s.files[l] ensures !Lt(f.largest.ukey, f.smallest.ukey) {
      assert LevelFilesOk(s.files[l], s.nextFile);
      EntryInFile(f, f.entries[0]);
      LtOrder();
      hide Lt;
    }
    assert LevelFilesOk(s.files[0], s.nextFile);
  }

  lemma {:induction false} JobStays(s: State, t: State, job: Job, level: nat, key: Bytes, to: Bytes, maxFileSize: nat)
    requires IsJob(s, t, job, level, key, to, maxFileSize)
    ensures level + 1 < NUM_LEVELS == |s.files| == |t.files| && forall f :: f in t.files[level] ==> f in s.files[level]
  {
    hide IsOutput;
    hide IsChosen;
    hide Moves;
    hide Installed;
    JobLeaves(s, t, job, maxFileSize);
  }

  lemma {:induction false} SweptSoFar(states: seq<State>, jobs: seq<Job>, level: nat, from: InternalKey, to: InternalKey,
                                      maxFileSize: nat, n: nat, f: File)
    requires IsSweep(states, jobs, level, from, to, maxFileSize) && n <= |jobs|
    requires |states[n].files| == NUM_LEVELS && level < NUM_LEVELS && f in states[n].files[level] && InRange(f, from.ukey, to.ukey)
    ensures InRange(f, StartKey(from, jobs, n).ukey, to.ukey)
  {
    hide StoreOk;
    hide InRange;
    hide IsJob;
    hide LevelsOk;
    if n > 0 {
      var s, t, job := states[n - 1], states[n], jobs[n - 1];
      JobStays(s, t, job, level, StartKey(from, jobs, n - 1).ukey, to.ukey, maxFileSize);
      SweptSoFar(states, jobs, level, from, to, maxFileSize, n - 1, f);
      StoreLevels(s);
      JobClears(s, t, job, level, StartKey(from, jobs, n - 1).ukey, to.ukey, maxFileSize, f);
    }
  }

  /** A sweep that ends where nothing is left in the range from there on has left nothing in the whole range. */
  lemma {:induction false} SweepClears(states: seq<State>, jobs: seq<Job>, level: nat, from: InternalKey, to: InternalKey,
                                       maxFileSize: nat)
    requires IsSweep(states, jobs, level, from, to, maxFileSize) && level < NUM_LEVELS
    requires |states[|jobs|].files| == NUM_LEVELS && !AnyInRange(states[|jobs|].files[level], StartKey(from, jobs, |jobs|).ukey, to.ukey)
    ensures !AnyInRange(states[|jobs|].files[level], from.ukey, to.ukey)
  {
    hide StoreOk;
    hide IsJob;
    hide InRange;
    var fs := states[|jobs|].files[level];
    forall f | f in fs ensures !InRange(f, from.ukey, to.ukey) {
      if InRange(f, from.ukey, to.ukey) {
        SweptSoFar(states, jobs, level, from, to, maxFileSize, |jobs|, f);
      }
    }
  }
}
