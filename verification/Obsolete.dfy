/** Deletion of obsolete files goes all the way: what is left is what the version and its log number need. */
module Obsolete {
  import opened Version
  import opened Manifest
  import opened History
  import opened Durability
  import opened CrashSafety

  ghost predicate Listed(files: seq<seq<File>>, n: nat)
    requires |files| == NUM_LEVELS
  {
    exists l, f: File :: 0 <= l < NUM_LEVELS && f in files[l] && f.num == n
  }

  /** Tables of the version, logs from its log number on, and manifests from the one in use on. */
  ghost predicate Needed(v: VSet, kind: FileKind, n: nat)
    requires |v.files| == NUM_LEVELS
  {
    match kind
    case Log => n >= v.logNum
    case Manifest => n >= v.manifest
    case Table => Listed(v.files, n)
  }

  predicate OnDisk(d: Disk, kind: FileKind, n: nat) {
    match kind
    case Log => n in d.logs
    case Manifest => n in d.manifests
    case Table => n in d.tables
  }

  /** The same file in two disks. */
  predicate SameFile(d: Disk, e: Disk, kind: FileKind, n: nat)
    requires OnDisk(d, kind, n) && OnDisk(e, kind, n)
  {
    match kind
    case Log => d.logs[n] == e.logs[n]
    case Manifest => d.manifests[n] == e.manifests[n]
    case Table => d.tables[n] == e.tables[n]
  }

  /** The process and the batches stay, and of the files just those that are needed, as they were. */
  ghost predicate OnlyNeeded(s: Sys, t: Sys)
    requires s.proc.Up? && |s.proc.v.files| == NUM_LEVELS
  {
    && t == s.(disk := t.disk) && t.disk.current == s.disk.current
    && forall kind, n: nat ::
         && (OnDisk(t.disk, kind, n) <==> OnDisk(s.disk, kind, n) && Needed(s.proc.v, kind, n))
         && (OnDisk(t.disk, kind, n) ==> SameFile(s.disk, t.disk, kind, n))
  }

  /** The tables are those of the version, no log is below its log number, and no manifest below the current one. */
  ghost predicate Tidy(s: Sys)
    requires s.proc.Up? && |s.proc.v.files| == NUM_LEVELS
  {
    && (forall n :: n in s.disk.tables <==> Listed(s.proc.v.files, n))
    && (forall n :: n in s.disk.logs ==> s.proc.v.logNum <= n < s.top)
    && (forall n :: n in s.disk.manifests ==> s.disk.current <= n)
  }

  function FileCount(d: Disk): nat {
    |d.tables| + |d.logs| + |d.manifests|
  }

  function Without(d: Disk, kind: FileKind, n: nat): Disk {
    match kind
    case Log => d.(logs := d.logs - {n})
    case Manifest => d.(manifests := d.manifests - {n})
    case Table => d.(tables := d.tables - {n})
  }

  lemma {:induction false} FewerFiles(d: Disk, kind: FileKind, n: nat)
    requires OnDisk(d, kind, n)
    ensures FileCount(Without(d, kind, n)) < FileCount(d)
  {
    match kind {
      case Log => FewerKeys(d.logs, n);
      case Manifest => FewerKeys(d.manifests, n);
      case Table => FewerKeys(d.tables, n);
    }
  }

  lemma {:induction false} FewerKeys<T>(m: map<nat, T>, n: nat)
    requires n in m
    ensures |m - {n}| < |m|
  {
    assert (m - {n}).Keys == m.Keys - {n};
    assert |m.Keys| == |m| && |(m - {n}).Keys| == |m - {n}|;
  }

  lemma {:induction false} OtherFiles(d: Disk, kind: FileKind, n: nat)
    ensures forall k, i: nat :: OnDisk(Without(d, kind, n), k, i) <==> OnDisk(d, k, i) && !(k == kind && i == n)
    ensures forall k, i: nat :: OnDisk(Without(d, kind, n), k, i) ==> SameFile(d, Without(d, kind, n), k, i)
  {
  }

  /** A file can be deleted exactly if it is not needed. */
  lemma {:induction false} DeletableIs(s: Sys, kind: FileKind, n: nat)
    requires s.proc.Up? && s.proc.pc.Idle? && |s.proc.v.files| == NUM_LEVELS
    ensures (exists t :: Next(s, t, Delete(kind, n))) <==> !Needed(s.proc.v, kind, n)
    ensures !Needed(s.proc.v, kind, n) ==> Next(s, s.(disk := Without(s.disk, kind, n)), Delete(kind, n))
  {
    var a := Delete(kind, n);
    if !Needed(s.proc.v, kind, n) {
      var t := s.(disk := Without(s.disk, kind, n));
      assert t.(torn := s.torn) == t;
      assert Step(s, t, a);
      assert Next(s, t, a);
    } else {
      forall t ensures !Next(s, t, a) {
        assert !DeleteStep(s, t.(torn := s.torn), kind, n);
      }
    }
  }

  /** While the database is idle, deletions lead to a state with just the needed files. */
  lemma {:induction false} DeletionCompletes(s: Sys) returns (t: Sys, actions: seq<Action>)
    requires Inv(s) && s.proc.Up? && s.proc.pc.Idle? && |s.proc.v.files| == NUM_LEVELS
    ensures Reaches(s, t, actions) && forall i :: 0 <= i < |actions| ==> actions[i].Delete?
    ensures OnlyNeeded(s, t) && Inv(t) && Tidy(t)
    decreases FileCount(s.disk)
  {
    hide Inv;
    hide Next;
    hide Reaches;
    hide Needed;
    hide OnDisk;
    hide SameFile;
    hide Without;
    if kind, n: nat :| OnDisk(s.disk, kind, n) && !Needed(s.proc.v, kind, n) {
      var r := s.(disk := Without(s.disk, kind, n));
      DeletableIs(s, kind, n);
      NextKeeps(s, r, Delete(kind, n));
      FewerFiles(s.disk, kind, n);
      t, actions := DeletionCompletes(r);
      ReachesFirst(s, r, t, Delete(kind, n), actions);
      OneLess(s, t, kind, n);
      actions := [Delete(kind, n)] + actions;
    } else {
      t, actions := s, [];
      NoneDeleted(s);
      NeededTidy(s);
    }
  }

  lemma {:induction false} NoneDeleted(s: Sys)
    requires s.proc.Up? && |s.proc.v.files| == NUM_LEVELS
    requires forall kind, n: nat :: OnDisk(s.disk, kind, n) ==> Needed(s.proc.v, kind, n)
    ensures OnlyNeeded(s, s) && Reaches(s, s, [])
  {
    hide Needed;
  }

  lemma {:induction false} OneLess(s: Sys, t: Sys, kind: FileKind, n: nat)
    requires s.proc.Up? && |s.proc.v.files| == NUM_LEVELS && OnDisk(s.disk, kind, n) && !Needed(s.proc.v, kind, n)
    requires OnlyNeeded(s.(disk := Without(s.disk, kind, n)), t)
    ensures OnlyNeeded(s, t)
  {
    hide Needed;
    OtherFiles(s.disk, kind, n);
    var d := Without(s.disk, kind, n);
    assert d.current == s.disk.current;
    hide Without;
    forall k, i: nat
      ensures OnDisk(t.disk, k, i) <==> OnDisk(s.disk, k, i) && Needed(s.proc.v, k, i)
      ensures OnDisk(t.disk, k, i) ==> SameFile(s.disk, t.disk, k, i)
    {
      if OnDisk(t.disk, k, i) {
        assert SameFile(s.disk, d, k, i) && SameFile(d, t.disk, k, i);
      }
    }
  }

  /** An idle database is tidy exactly if no file on disk can be deleted. */
  lemma {:induction false} TidyIs(s: Sys)
    requires Inv(s) && s.proc.Up? && s.proc.pc.Idle? && |s.proc.v.files| == NUM_LEVELS
    ensures Tidy(s) <==> forall kind, n: nat :: OnDisk(s.disk, kind, n) ==> !exists t :: Next(s, t, Delete(kind, n))
  {
    hide Inv;
    hide Listed;
    hide Next;
    forall kind, n: nat ensures (exists t :: Next(s, t, Delete(kind, n))) <==> !Needed(s.proc.v, kind, n) {
      DeletableIs(s, kind, n);
    }
    if forall kind, n: nat :: OnDisk(s.disk, kind, n) ==> Needed(s.proc.v, kind, n) {
      NeededTidy(s);
    }
    AllThere(s);
  }

  lemma {:induction false} NeededTidy(s: Sys)
    requires Inv(s) && s.proc.Up? && s.proc.pc.Idle? && |s.proc.v.files| == NUM_LEVELS
    requires forall kind, n: nat :: OnDisk(s.disk, kind, n) ==> Needed(s.proc.v, kind, n)
    ensures Tidy(s)
  {
    hide Inv;
    hide Listed;
    AllThere(s);
    forall n: nat | n in s.disk.tables ensures Needed(s.proc.v, Table, n) {
      assert OnDisk(s.disk, Table, n);
    }
    forall n: nat | n in s.disk.logs ensures n >= s.proc.v.logNum {
      assert OnDisk(s.disk, Log, n);
    }
    forall n: nat | n in s.disk.manifests ensures n >= s.disk.current {
      assert OnDisk(s.disk, Manifest, n);
    }
  }

  lemma {:induction false} AllThere(s: Sys)
    requires Inv(s) && s.proc.Up? && s.proc.pc.Idle? && |s.proc.v.files| == NUM_LEVELS
    ensures forall n :: Listed(s.proc.v.files, n) ==> n in s.disk.tables
    ensures s.proc.v.manifest == s.disk.current && forall n :: n in s.disk.logs ==> n < s.top
  {
    hide Serving;
    hide StandsFor;
    hide Complete;
    hide InOrder;
    assert TablesHold(s.disk.tables, Cur(s).files, {});
  }
}
