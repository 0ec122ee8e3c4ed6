/** Version edits, the builder that applies them, and the replay of a manifest (src/version_set.rs). */
module VersionBuilder {
  import opened Bytes
  import opened Entries
  import opened Version

  /** The file changes of a version edit: (level, number) pairs to delete, (level, file) pairs to add. */
  datatype FileEdit = FileEdit(deleted: set<(nat, nat)>, newFiles: seq<(nat, File)>)

  ghost predicate EditOk(e: FileEdit) {
    && (forall d :: d in e.deleted ==> d.0 < NUM_LEVELS)
    && (forall i :: 0 <= i < |e.newFiles| ==> e.newFiles[i].0 < NUM_LEVELS)
  }

  function NumsAt(dels: set<(nat, nat)>, level: nat): set<nat> {
    set d | d in dels && d.0 == level :: d.1
  }

  function AddedAt(news: seq<(nat, File)>, level: nat): seq<File> {
    if news == [] then []
    else
      var rest := AddedAt(news[..|news| - 1], level);
      if news[|news| - 1].0 == level then rest + [news[|news| - 1].1] else rest
  }

  function Nums(fs: seq<File>): set<nat> {
    set f | f in fs :: f.num
  }

  // ----- sorting, merging and filtering of one level -----

  ghost predicate SortedBySmallest(fs: seq<File>) {
    forall i, j :: 0 <= i < j < |fs| ==> !KeyLess(fs[j].smallest, fs[i].smallest)
  }

  /** Puts f behind every file that does not start after it. */
  function Insert(fs: seq<File>, f: File): seq<File> {
    if fs == [] then [f]
    else if KeyLess(f.smallest, fs[0].smallest) then [f] + fs
    else [fs[0]] + Insert(fs[1..], f)
  }

  /** The library's stable sort by smallest key. */
  function SortFiles(fs: seq<File>): seq<File> {
    if fs == [] then [] else Insert(SortFiles(fs[..|fs| - 1]), fs[|fs| - 1])
  }

  function Merge(a: seq<File>, b: seq<File>): seq<File> {
    if a == [] then b
    else if b == [] then a
    else if KeyLess(a[0].smallest, b[0].smallest) then [a[0]] + Merge(a[1..], b)
    else [b[0]] + Merge(a, b[1..])
  }

  /** The files whose number is not dead. */
  function Keep(fs: seq<File>, dead: set<nat>): seq<File> {
    if fs == [] then []
    else
      var rest := Keep(fs[1..], dead);
      if fs[0].num in dead then rest else [fs[0]] + rest
  }

  /** Insert puts the file at one place and keeps the others in order. */
  lemma {:induction false} InsertAt(fs: seq<File>, f: File) returns (k: nat)
    ensures k <= |fs| && Insert(fs, f) == fs[..k] + [f] + fs[k..]
    ensures SortedBySmallest(fs) ==> SortedBySmallest(Insert(fs, f))
    ensures forall i :: 0 <= i < k ==> !KeyLess(f.smallest, fs[i].smallest)
    ensures k < |fs| ==> KeyLess(f.smallest, fs[k].smallest)
  {
    hide Insert;
    hide KeyLess;
    hide SortedBySmallest;
    k := InsertPlace(fs, f);
    if SortedBySmallest(fs) {
      InsertSorted(fs, f, k);
    }
  }

  lemma {:induction false} InsertPlace(fs: seq<File>, f: File) returns (k: nat)
    ensures k <= |fs| && Insert(fs, f) == fs[..k] + [f] + fs[k..]
    ensures forall i :: 0 <= i < k ==> !KeyLess(f.smallest, fs[i].smallest)
    ensures k < |fs| ==> KeyLess(f.smallest, fs[k].smallest)
  {
    hide KeyLess;
    if fs == [] || KeyLess(f.smallest, fs[0].smallest) {
      k := 0;
    } else {
      k := InsertPlace(fs[1..], f);
      k := k + 1;
      assert fs[..k] == [fs[0]] + fs[1..][..k - 1] && fs[k..] == fs[1..][k - 1..];
      forall i | 0 <= i < k ensures !KeyLess(f.smallest, fs[i].smallest) {
        assert i > 0 ==> fs[i] == fs[1..][i - 1];
      }
    }
  }

  lemma {:induction false} InsertSorted(fs: seq<File>, f: File, k: nat)
    requires SortedBySmallest(fs) && k <= |fs| && forall i :: 0 <= i < k ==> !KeyLess(f.smallest, fs[i].smallest)
    requires k < |fs| ==> KeyLess(f.smallest, fs[k].smallest)
    ensures SortedBySmallest(fs[..k] + [f] + fs[k..])
  {
    LtOrder();
    hide Lt;
    var r := fs[..k] + [f] + fs[k..];
    assert r[k] == f && (forall i :: 0 <= i < k ==> r[i] == fs[i]) && forall i :: k < i < |r| ==> r[i] == fs[i - 1];
    forall i | k <= i < |fs| ensures KeyLess(f.smallest, fs[i].smallest) {
      assert !KeyLess(fs[i].smallest, fs[k].smallest);
    }
  }

  lemma {:induction false} SortSorts(fs: seq<File>)
    ensures SortedBySmallest(SortFiles(fs))
  {
    if fs != [] {
      SortSorts(fs[..|fs| - 1]);
      var _ := InsertAt(SortFiles(fs[..|fs| - 1]), fs[|fs| - 1]);
    }
  }

  lemma {:induction false} InsertMembers(fs: seq<File>, f: File)
    ensures forall g :: g in Insert(fs, f) <==> g in fs || g == f
    ensures NumsDistinct(fs) && (forall g :: g in fs ==> g.num != f.num) ==> NumsDistinct(Insert(fs, f))
  {
    hide KeyLess;
    if fs != [] && !KeyLess(f.smallest, fs[0].smallest) {
      InsertMembers(fs[1..], f);
      var t := Insert(fs[1..], f);
      assert forall i :: 0 <= i < |t| ==> t[i] in t;
    }
  }

  lemma {:induction false} InsertDistinct(fs: seq<File>, f: File)
    requires NumsDistinct(Insert(fs, f))
    ensures NumsDistinct(fs) && forall g :: g in fs ==> g.num != f.num
  {
    hide Insert;
    hide KeyLess;
    var k := InsertPlace(fs, f);
    var r := Insert(fs, f);
    assert r[k] == f && (forall i :: 0 <= i < k ==> r[i] == fs[i]) && forall i :: k <= i < |fs| ==> r[i + 1] == fs[i];
  }

  lemma {:induction false} UnsortedDistinct(fs: seq<File>)
    requires NumsDistinct(SortFiles(fs))
    ensures NumsDistinct(fs)
  {
    if fs != [] {
      hide Insert;
      var init, x := fs[..|fs| - 1], fs[|fs| - 1];
      InsertDistinct(SortFiles(init), x);
      UnsortedDistinct(init);
      SortMembers(init);
    }
  }

  lemma {:induction false} SortMembers(fs: seq<File>)
    ensures forall f :: f in SortFiles(fs) <==> f in fs
    ensures NumsDistinct(fs) ==> NumsDistinct(SortFiles(fs))
  {
    if fs != [] {
      hide Insert;
      var init, x := fs[..|fs| - 1], fs[|fs| - 1];
      assert forall f :: f in fs <==> f in init || f == x;
      SortMembers(init);
      InsertMembers(SortFiles(init), x);
    }
  }

  /** Appending a largest file to a sorted list is inserting it. */
  lemma {:induction false} InsertLast(fs: seq<File>, f: File)
    requires SortedBySmallest(fs + [f])
    ensures Insert(fs, f) == fs + [f]
  {
    if fs != [] {
      assert (fs + [f])[1..] == fs[1..] + [f];
      assert (fs + [f])[|fs|] == f && (fs + [f])[0] == fs[0];
      InsertLast(fs[1..], f);
    }
  }

  lemma {:induction false} SortOfSorted(fs: seq<File>)
    requires SortedBySmallest(fs)
    ensures SortFiles(fs) == fs
  {
    if fs != [] {
      var init, last := fs[..|fs| - 1], fs[|fs| - 1];
      assert fs == init + [last];
      SortOfSorted(init);
      InsertLast(init, last);
    }
  }

  lemma {:induction false} SortSnoc(fs: seq<File>, x: File)
    ensures SortFiles(fs + [x]) == Insert(SortFiles(fs), x)
  {
    assert (fs + [x])[..|fs|] == fs;
  }

  /** Sorting a prefix first does not change the sort of the whole. */
  lemma {:induction false} SortPrefix(a: seq<File>, b: seq<File>)
    ensures SortFiles(SortFiles(a) + b) == SortFiles(a + b)
  {
    var s := SortFiles(a);
    if b == [] {
      assert a + b == a && s + b == s;
      SortSorts(a);
      SortOfSorted(s);
    } else {
      var init, x := b[..|b| - 1], b[|b| - 1];
      SortPrefix(a, init);
      assert s + b == (s + init) + [x] && a + b == (a + init) + [x];
      SortSnoc(s + init, x);
      SortSnoc(a + init, x);
    }
  }

  lemma {:induction false} MergeInsert(a: seq<File>, x: File, b: seq<File>)
    requires SortedBySmallest(a + [x]) && SortedBySmallest(b)
    ensures Merge(a + [x], b) == Insert(Merge(a, b), x)
    decreases |a| + |b|
  {
    var ax := a + [x];
    if a == [] {
      if b != [] && !KeyLess(x.smallest, b[0].smallest) {
        MergeInsert(a, x, b[1..]);
        assert Merge(a, b) == b && Merge(a, b[1..]) == b[1..];
      }
    } else if b == [] {
      InsertLast(a, x);
    } else {
      assert ax[1..] == a[1..] + [x] && ax[0] == a[0] && ax[|a|] == x;
      if KeyLess(a[0].smallest, b[0].smallest) {
        MergeInsert(a[1..], x, b);
        assert Merge(a, b)[1..] == Merge(a[1..], b);
      } else {
        MergeInsert(a, x, b[1..]);
        assert Merge(a, b)[1..] == Merge(a, b[1..]);
        KeyOrder();
        LtOrder();
        hide Lt;
        assert !KeyLess(x.smallest, b[0].smallest);
      }
    }
  }

  /** Merging sorted additions into a sorted base gives the stable sort of base followed by additions. */
  lemma {:induction false} MergeIsSort(added: seq<File>, base: seq<File>)
    requires SortedBySmallest(base)
    ensures Merge(SortFiles(added), base) == SortFiles(base + added)
  {
    SortSorts(added);
    MergeSorted(SortFiles(added), base);
    SortSwap(base, added);
  }

  lemma {:induction false} MergeNothing(base: seq<File>)
    ensures Merge([], base) == base
  {
  }

  lemma {:induction false} MergeSorted(a: seq<File>, base: seq<File>)
    requires SortedBySmallest(a) && SortedBySmallest(base)
    ensures Merge(a, base) == SortFiles(base + a)
  {
    hide Insert;
    hide Merge;
    if a == [] {
      SortOfSorted(base);
      assert base + a == base;
      MergeNothing(base);
    } else {
      var init := a[..|a| - 1];
      assert a == init + [a[|a| - 1]];
      MergeSorted(init, base);
      MergeInsert(init, a[|a| - 1], base);
      assert (base + a)[..|base + a| - 1] == base + init;
    }
  }

  /** Sorting the additions among themselves first does not change the result. */
  lemma {:induction false} SortSwap(base: seq<File>, added: seq<File>)
    ensures SortFiles(base + SortFiles(added)) == SortFiles(base + added)
  {
    hide Insert;
    hide SortFiles;
    if added == [] {
      SortNothing();
    } else {
      var init, x := added[..|added| - 1], added[|added| - 1];
      SortSwap(base, init);
      SortSorts(init);
      SortInsert(base, SortFiles(init), x);
      assert added == init + [x] && base + added == (base + init) + [x];
      SortSnoc(base + init, x);
      SortSnoc(init, x);
    }
  }

  lemma {:induction false} SortNothing()
    ensures SortFiles([]) == []
  {
  }

  lemma {:induction false} SortInsert(base: seq<File>, s: seq<File>, x: File)
    requires SortedBySmallest(s)
    ensures SortFiles(base + Insert(s, x)) == Insert(SortFiles(base + s), x)
    decreases |s|
  {
    if s == [] {
      assert base + s == base && Insert(s, x) == [x];
      SortSnoc(base, x);
    } else {
      var init, last := s[..|s| - 1], s[|s| - 1];
      assert s == init + [last] && base + s == (base + init) + [last];
      if KeyLess(x.smallest, last.smallest) {
        InsertBeforeLast(init, last, x);
        assert base + Insert(s, x) == (base + Insert(init, x)) + [last];
        SortInsert(base, init, x);
        SortSnoc(base + Insert(init, x), last);
        SortSnoc(base + init, last);
        SortSorts(base + init);
        InsertsCommute(SortFiles(base + init), x, last);
      } else {
        SortedSnoc(s, x);
        InsertLast(s, x);
        assert base + Insert(s, x) == (base + s) + [x];
        SortSnoc(base + s, x);
      }
    }
  }

  lemma {:induction false} SortedSnoc(s: seq<File>, x: File)
    requires s != [] && SortedBySmallest(s) && !KeyLess(x.smallest, s[|s| - 1].smallest)
    ensures SortedBySmallest(s + [x])
  {
    LtOrder();
    hide Lt;
  }

  lemma {:induction false} InsertBeforeLast(init: seq<File>, last: File, x: File)
    requires SortedBySmallest(init + [last]) && KeyLess(x.smallest, last.smallest)
    ensures Insert(init + [last], x) == Insert(init, x) + [last]
  {
    if init != [] {
      assert (init + [last])[1..] == init[1..] + [last];
      InsertBeforeLast(init[1..], last, x);
    }
  }

  lemma {:induction false} InsertsCommute(fs: seq<File>, x: File, y: File)
    requires SortedBySmallest(fs) && KeyLess(x.smallest, y.smallest)
    ensures Insert(Insert(fs, x), y) == Insert(Insert(fs, y), x)
  {
    KeyOrder();
    hide KeyLess;
    if fs != [] {
      InsertsCommute(fs[1..], x, y);
      assert ([fs[0]] + Insert(fs[1..], x))[1..] == Insert(fs[1..], x);
      assert ([fs[0]] + Insert(fs[1..], y))[1..] == Insert(fs[1..], y);
      assert ([x] + fs)[1..] == fs && ([y] + fs)[1..] == fs;
    }
  }

  lemma {:induction false} KeepConcat(a: seq<File>, b: seq<File>, dead: set<nat>)
    ensures Keep(a + b, dead) == Keep(a, dead) + Keep(b, dead)
  {
    if a == [] {
      assert a + b == b;
    } else {
      assert (a + b)[1..] == a[1..] + b;
      KeepConcat(a[1..], b, dead);
    }
  }

  lemma {:induction false} KeepMembers(fs: seq<File>, dead: set<nat>)
    ensures forall f :: f in Keep(fs, dead) <==> f in fs && f.num !in dead
  {
    if fs != [] {
      KeepMembers(fs[1..], dead);
    }
  }

  lemma {:induction false} KeepNumsDistinct(fs: seq<File>, dead: set<nat>)
    requires NumsDistinct(fs)
    ensures NumsDistinct(Keep(fs, dead))
  {
    if fs != [] {
      KeepNumsDistinct(fs[1..], dead);
      KeepMembers(fs[1..], dead);
      var r := Keep(fs[1..], dead);
      forall i | 0 <= i < |r| ensures r[i].num != fs[0].num {
        assert r[i] in r;
      }
    }
  }

  lemma {:induction false} KeepTwice(fs: seq<File>, x: set<nat>, y: set<nat>)
    ensures Keep(Keep(fs, x), y) == Keep(fs, x + y)
  {
    if fs != [] {
      KeepTwice(fs[1..], x, y);
      KeepConcat([fs[0]], Keep(fs[1..], x), y);
    }
  }

  lemma {:induction false} KeepSame(fs: seq<File>, x: set<nat>, y: set<nat>)
    requires forall f :: f in fs ==> (f.num in x <==> f.num in y)
    ensures Keep(fs, x) == Keep(fs, y)
  {
    if fs != [] {
      KeepSame(fs[1..], x, y);
    }
  }

  lemma {:induction false} KeepMiddle(a: seq<File>, f: File, b: seq<File>, dead: set<nat>)
    ensures Keep(a + [f] + b, dead) == Keep(a, dead) + Keep([f], dead) + Keep(b, dead)
  {
    KeepConcat(a + [f], b, dead);
    KeepConcat(a, [f], dead);
  }

  lemma {:induction false} KeepInsert(fs: seq<File>, f: File, dead: set<nat>)
    requires SortedBySmallest(fs)
    ensures Keep(Insert(fs, f), dead) == if f.num in dead then Keep(fs, dead) else Insert(Keep(fs, dead), f)
  {
    hide Insert;
    hide Keep;
    hide KeyLess;
    var k := InsertAt(fs, f);
    var a, b := fs[..k], fs[k..];
    assert fs == a + b;
    KeepMiddle(a, f, b, dead);
    KeepConcat(a, b, dead);
    KeepOne(f, dead);
    if f.num in dead {
      assert Keep(a, dead) + [] + Keep(b, dead) == Keep(a, dead) + Keep(b, dead);
    } else {
      LaterAll(fs, f, k);
      KeepMembers(a, dead);
      KeepMembers(b, dead);
      InsertBetween(Keep(a, dead), f, Keep(b, dead));
    }
  }

  lemma {:induction false} KeepOne(f: File, dead: set<nat>)
    ensures Keep([f], dead) == if f.num in dead then [] else [f]
  {
  }

  lemma {:induction false} LaterAll(fs: seq<File>, f: File, k: nat)
    requires SortedBySmallest(fs) && k <= |fs| && (k < |fs| ==> KeyLess(f.smallest, fs[k].smallest))
    requires forall i :: 0 <= i < k ==> !KeyLess(f.smallest, fs[i].smallest)
    ensures forall g :: g in fs[k..] ==> KeyLess(f.smallest, g.smallest)
    ensures forall g :: g in fs[..k] ==> !KeyLess(f.smallest, g.smallest)
  {
    LtOrder();
    hide Lt;
  }

  lemma {:induction false} InsertBetween(a: seq<File>, f: File, b: seq<File>)
    requires forall g :: g in a ==> !KeyLess(f.smallest, g.smallest)
    requires forall g :: g in b ==> KeyLess(f.smallest, g.smallest)
    ensures Insert(a + b, f) == a + [f] + b
  {
    if a == [] {
      assert a + b == b;
    } else {
      assert (a + b)[1..] == a[1..] + b;
      InsertBetween(a[1..], f, b);
    }
  }

  /** Dropping deleted files before or after sorting is the same. */
  lemma {:induction false} KeepSort(fs: seq<File>, dead: set<nat>)
    ensures Keep(SortFiles(fs), dead) == SortFiles(Keep(fs, dead))
  {
    hide Insert;
    if fs != [] {
      var init, x := fs[..|fs| - 1], fs[|fs| - 1];
      assert fs == init + [x];
      KeepSort(init, dead);
      SortSorts(init);
      KeepInsert(SortFiles(init), x, dead);
      KeepConcat(init, [x], dead);
      assert Keep([x], dead) == if x.num in dead then [] else [x];
      SortSnoc(Keep(init, dead), x);
      assert Keep(init, dead) + [] == Keep(init, dead);
    }
  }

  // ----- one level of the builder -----

  datatype LevelState = LevelState(deleted: set<nat>, added: seq<File>)

  function ApplyLevel(st: LevelState, e: FileEdit, level: nat): LevelState {
    var news := AddedAt(e.newFiles, level);
    LevelState((st.deleted + NumsAt(e.deleted, level)) - Nums(news), st.added + news)
  }

  function SaveLevel(st: LevelState, base: seq<File>): seq<File> {
    Keep(SortFiles(base + st.added), st.deleted)
  }

  const EmptyLevel := LevelState({}, [])

  /** What log_and_apply makes of one level. */
  function LiveStep(base: seq<File>, e: FileEdit, level: nat): seq<File> {
    SaveLevel(ApplyLevel(EmptyLevel, e, level), base)
  }

  function Live(base: seq<File>, edits: seq<FileEdit>, level: nat): seq<File> {
    if edits == [] then base
    else LiveStep(Live(base, edits[..|edits| - 1], level), edits[|edits| - 1], level)
  }

  /** What recovery makes of one level: every edit goes through one builder over an empty base. */
  function Replay(edits: seq<FileEdit>, level: nat): LevelState {
    if edits == [] then EmptyLevel
    else ApplyLevel(Replay(edits[..|edits| - 1], level), edits[|edits| - 1], level)
  }

  /** No number is added to the level twice. */
  ghost predicate AddedOnce(edits: seq<FileEdit>, level: nat) {
    NumsDistinct(Replay(edits, level).added)
  }

  /** Folding all edits through one builder gives the same files, in the same order, as applying them one by one. */
  lemma {:induction false} ReplayIsLive(edits: seq<FileEdit>, level: nat)
    requires AddedOnce(edits, level)
    ensures SaveLevel(Replay(edits, level), []) == Live([], edits, level)
  {
    if edits == [] {
      assert SortFiles([]) == [];
    } else {
      var init, e := edits[..|edits| - 1], edits[|edits| - 1];
      var st := Replay(init, level);
      assert AddedOnce(init, level) by {
        assert forall i :: 0 <= i < |st.added| ==> Replay(edits, level).added[i] == st.added[i];
      }
      ReplayIsLive(init, level);
      LiveAbsorbs(st, e, level);
      assert [] + st.added == st.added;
    }
  }

  lemma {:induction false} NumsOf(fs: seq<File>)
    ensures forall f :: f in fs ==> f.num in Nums(fs)
  {
  }

  /** One live step on a saved state is one more edit in the builder. */
  lemma {:induction false} LiveAbsorbs(st: LevelState, e: FileEdit, level: nat)
    requires NumsDistinct(ApplyLevel(st, e, level).added)
    ensures LiveStep(Keep(SortFiles(st.added), st.deleted), e, level) == SaveLevel(ApplyLevel(st, e, level), [])
  {
    hide SortFiles;
    hide Keep;
    hide Nums;
    hide NumsDistinct;
    hide AddedAt;
    hide NumsAt;
    var A, N, D, del := st.added, AddedAt(e.newFiles, level), st.deleted, NumsAt(e.deleted, level);
    var dead := D - Nums(N);
    NumsApart(A, N);
    KeepSort(A, D);
    SortPrefix(Keep(A, D), N);
    assert Keep(A, D) + N == Keep(A + N, dead) by {
      KeepConcat(A, N, dead);
      KeepSame(A, D, dead);
      NumsOf(N);
      KeepNone(N, dead);
    }
    KeepSort(A + N, dead);
    KeepTwice(SortFiles(A + N), dead, del - Nums(N));
    assert dead + (del - Nums(N)) == (D + del) - Nums(N);
    assert [] + (A + N) == A + N && [] + N == N && {} + del == del;
  }

  lemma {:induction false} NumsApart(a: seq<File>, b: seq<File>)
    requires NumsDistinct(a + b)
    ensures forall f :: f in a ==> f.num !in Nums(b)
  {
    forall f | f in a ensures f.num !in Nums(b) {
      var i :| 0 <= i < |a| && a[i] == f;
      assert (a + b)[i] == f;
      assert forall j :: 0 <= j < |b| ==> (a + b)[|a| + j] == b[j];
    }
  }

  lemma {:induction false} KeepNone(fs: seq<File>, dead: set<nat>)
    requires forall f :: f in fs ==> f.num !in dead
    ensures Keep(fs, dead) == fs
  {
    if fs != [] {
      KeepNone(fs[1..], dead);
    }
  }

  // ----- a manifest that starts with a snapshot of the current version -----

  /** The edit write_snapshot records: every file of every level, level by level. */
  function SnapshotFiles(v: seq<seq<File>>): seq<(nat, File)> {
    if v == [] then []
    else
      var top := |v| - 1;
      SnapshotFiles(v[..top]) + seq(|v[top]|, i requires 0 <= i < |v[top]| => (top, v[top][i]))
  }

  lemma {:induction false} AddedAtConcat(a: seq<(nat, File)>, b: seq<(nat, File)>, level: nat)
    ensures AddedAt(a + b, level) == AddedAt(a, level) + AddedAt(b, level)
  {
    if b == [] {
      assert a + b == a;
    } else {
      assert (a + b)[..|a + b| - 1] == a + b[..|b| - 1];
      AddedAtConcat(a, b[..|b| - 1], level);
    }
  }

  lemma {:induction false} AddedAtUniform(news: seq<(nat, File)>, fs: seq<File>, top: nat, level: nat)
    requires |news| == |fs| && forall i :: 0 <= i < |fs| ==> news[i] == (top, fs[i])
    ensures AddedAt(news, level) == if level == top then fs else []
  {
    if fs != [] {
      AddedAtUniform(news[..|fs| - 1], fs[..|fs| - 1], top, level);
    }
  }

  lemma {:induction false} SnapshotLevel(v: seq<seq<File>>, level: nat)
    ensures AddedAt(SnapshotFiles(v), level) == if level < |v| then v[level] else []
  {
    if v != [] {
      var top := |v| - 1;
      var news := seq(|v[top]|, i requires 0 <= i < |v[top]| => (top, v[top][i]));
      SnapshotLevel(v[..top], level);
      AddedAtConcat(SnapshotFiles(v[..top]), news, level);
      AddedAtUniform(news, v[top], top, level);
    }
  }

  lemma {:induction false} LiveConcat(base: seq<File>, a: seq<FileEdit>, b: seq<FileEdit>, level: nat)
    ensures Live(base, a + b, level) == Live(Live(base, a, level), b, level)
  {
    if b == [] {
      assert a + b == a;
    } else {
      assert (a + b)[..|a + b| - 1] == a + b[..|b| - 1];
      LiveConcat(base, a, b[..|b| - 1], level);
    }
  }

  /** A manifest that starts with a snapshot of v and goes on with edits replays to what live operation made of v. */
  lemma {:induction false} ReplayAfterSnapshot(v: seq<seq<File>>, edits: seq<FileEdit>, level: nat)
    requires level < |v| && SortedBySmallest(v[level])
    requires AddedOnce([FileEdit({}, SnapshotFiles(v))] + edits, level)
    ensures SaveLevel(Replay([FileEdit({}, SnapshotFiles(v))] + edits, level), []) == Live(v[level], edits, level)
  {
    var snap := FileEdit({}, SnapshotFiles(v));
    ReplayIsLive([snap] + edits, level);
    LiveConcat([], [snap], edits, level);
    assert Live([], [snap], level) == LiveStep(Live([], [], level), snap, level);
    SnapshotLevel(v, level);
    SortOfSorted(v[level]);
    assert [] + ([] + v[level]) == v[level];
    KeepNone(v[level], {});
    assert ({} + NumsAt(snap.deleted, level)) - Nums(v[level]) == {};
  }

  // ----- the builder -----

  /** Consecutive files of a level are ordered by internal key: what the source asserts while it saves. */
  ghost predicate Ordered(fs: seq<File>) {
    forall i :: 1 <= i < |fs| ==> KeyLess(fs[i - 1].largest, fs[i].smallest)
  }

  method MergeIters(a: seq<File>, b: seq<File>) returns (out: seq<File>)
    ensures out == Merge(a, b)
  {
    hide Merge;
    hide KeyLess;
    out := [];
    var i, j := 0, 0;
    MergeWhole(a, b);
    while i < |a| && j < |b|
      invariant i <= |a| && j <= |b|
      invariant out + Merge(a[i..], b[j..]) == Merge(a, b)
    {
      MergeHead(a, i, b, j, out);
      if KeyLess(a[i].smallest, b[j].smallest) {
        out := out + [a[i]];
        i := i + 1;
      } else {
        out := out + [b[j]];
        j := j + 1;
      }
    }
    MergeTail(a, i, b, j, out);
    out := out + a[i..] + b[j..];
  }

  lemma {:induction false} MergeWhole(a: seq<File>, b: seq<File>)
    ensures [] + Merge(a[0..], b[0..]) == Merge(a, b)
  {
    assert a[0..] == a && b[0..] == b;
  }

  lemma {:induction false} MergeTail(a: seq<File>, i: nat, b: seq<File>, j: nat, out: seq<File>)
    requires i <= |a| && j <= |b| && (i == |a| || j == |b|)
    ensures out + Merge(a[i..], b[j..]) == out + a[i..] + b[j..]
  {
  }

  lemma {:induction false} MergeHead(a: seq<File>, i: nat, b: seq<File>, j: nat, out: seq<File>)
    requires i < |a| && j < |b|
    ensures out + Merge(a[i..], b[j..])
         == if KeyLess(a[i].smallest, b[j].smallest) then (out + [a[i]]) + Merge(a[i + 1..], b[j..])
            else (out + [b[j]]) + Merge(a[i..], b[j + 1..])
  {
    assert a[i..][1..] == a[i + 1..] && b[j..][1..] == b[j + 1..];
  }

  class Builder {
    var deleted: seq<set<nat>>
    var added: seq<seq<File>>

    ghost predicate Valid()
      reads this
    {
      |deleted| == |added| == NUM_LEVELS
    }

    ghost function State(level: nat): LevelState
      reads this
      requires Valid() && level < NUM_LEVELS
    {
      LevelState(deleted[level], added[level])
    }

    constructor ()
      ensures Valid()
      ensures forall l :: 0 <= l < NUM_LEVELS ==> State(l) == EmptyLevel
    {
      deleted := seq(NUM_LEVELS, _ => {});
      added := seq(NUM_LEVELS, _ => []);
    }

    method Apply(edit: FileEdit)
      requires Valid() && EditOk(edit)
      modifies this
      ensures Valid()
      ensures forall l :: 0 <= l < NUM_LEVELS ==> State(l) == ApplyLevel(old(State(l)), edit, l)
    {
      DeleteFiles(edit.deleted);
      AddFiles(edit.newFiles);
    }

    method DeleteFiles(dels: set<(nat, nat)>)
      requires Valid() && forall d :: d in dels ==> d.0 < NUM_LEVELS
      modifies this`deleted
      ensures Valid()
      ensures forall l :: 0 <= l < NUM_LEVELS ==> deleted[l] == old(deleted)[l] + NumsAt(dels, l)
    {
      var todo := dels;
      while todo != {}
        invariant Valid() && todo <= dels
        invariant forall l :: 0 <= l < NUM_LEVELS ==> deleted[l] + NumsAt(todo, l) == old(deleted)[l] + NumsAt(dels, l)
      {
        var d :| d in todo;
        forall l | 0 <= l < NUM_LEVELS
          ensures NumsAt(todo, l) == NumsAt(todo - {d}, l) + if d.0 == l then {d.1} else {}
        {
          assert todo == (todo - {d}) + {d};
        }
        deleted := deleted[d.0 := deleted[d.0] + {d.1}];
        todo := todo - {d};
      }
      assert forall l :: 0 <= l < NUM_LEVELS ==> NumsAt({}, l) == {};
    }

    /** A file that is added again is no longer deleted. */
    method AddFiles(news: seq<(nat, File)>)
      requires Valid() && forall i :: 0 <= i < |news| ==> news[i].0 < NUM_LEVELS
      modifies this
      ensures Valid()
      ensures forall l :: 0 <= l < NUM_LEVELS ==> added[l] == old(added)[l] + AddedAt(news, l)
      ensures forall l :: 0 <= l < NUM_LEVELS ==> deleted[l] == old(deleted)[l] - Nums(AddedAt(news, l))
    {
      for i := 0 to |news|
        invariant Valid()
        invariant forall l :: 0 <= l < NUM_LEVELS ==> added[l] == old(added)[l] + AddedAt(news[..i], l)
        invariant forall l :: 0 <= l < NUM_LEVELS ==> deleted[l] == old(deleted)[l] - Nums(AddedAt(news[..i], l))
      {
        var (level, f) := news[i];
        deleted := deleted[level := deleted[level] - {f.num}];
        added := added[level := added[level] + [f]];
        assert news[..i + 1][..i] == news[..i];
      }
      assert news[..|news|] == news;
    }

    /** Adds f to a level unless it is deleted; the order of files above level 0 is asserted, as in the source. */
    method MaybeAddFile(fs: seq<File>, level: nat, f: File) returns (r: seq<File>)
      requires Valid() && level < NUM_LEVELS
      requires level > 0 && f.num !in deleted[level] ==> Ordered(fs + [f])
      ensures r == fs + Keep([f], deleted[level])
    {
      if f.num in deleted[level] {
        return fs;
      }
      if level > 0 && fs != [] {
        assert (fs + [f])[|fs| - 1] == fs[|fs| - 1] && (fs + [f])[|fs|] == f;
        assert KeyLess(fs[|fs| - 1].largest, f.smallest);
      }
      return fs + [f];
    }

    method SaveOneLevel(level: nat, base: seq<File>) returns (fs: seq<File>)
      requires Valid() && level < NUM_LEVELS
      requires SortedBySmallest(base)
      requires level > 0 ==> Ordered(SaveLevel(State(level), base))
      ensures fs == SaveLevel(State(level), base)
    {
      MergeIsSort(added[level], base);
      SortOfSorted(base);
      var merged := MergeIters(SortFiles(added[level]), SortFiles(base));
      hide SortFiles;
      hide Ordered;
      fs := [];
      for i := 0 to |merged|
        invariant fs == Keep(merged[..i], deleted[level])
      {
        KeepStep(merged, i, deleted[level]);
        fs := MaybeAddFile(fs, level, merged[i]);
      }
      assert merged[..|merged|] == merged;
    }

    /** Saves the edits into a new version on top of base. */
    method SaveTo(base: seq<seq<File>>) returns (v: seq<seq<File>>)
      requires Valid() && |base| == NUM_LEVELS
      requires forall l :: 0 <= l < NUM_LEVELS ==> SortedBySmallest(base[l])
      requires forall l :: 1 <= l < NUM_LEVELS ==> Ordered(SaveLevel(State(l), base[l]))
      ensures |v| == NUM_LEVELS
      ensures forall l :: 0 <= l < NUM_LEVELS ==> v[l] == SaveLevel(State(l), base[l])
    {
      hide SaveLevel;
      v := [];
      for level := 0 to NUM_LEVELS
        invariant |v| == level
        invariant forall l :: 0 <= l < level ==> v[l] == SaveLevel(State(l), base[l])
      {
        var fs := SaveOneLevel(level, base[level]);
        v := v + [fs];
      }
    }
  }

  lemma {:induction false} KeepStep(fs: seq<File>, i: nat, dead: set<nat>)
    requires i < |fs|
    ensures Keep(fs[..i + 1], dead) == Keep(fs[..i], dead) + Keep([fs[i]], dead)
    ensures Ordered(Keep(fs, dead)) ==> Ordered(Keep(fs[..i + 1], dead))
    ensures fs[i].num !in dead ==> Keep([fs[i]], dead) == [fs[i]]
  {
    assert fs[..i + 1] == fs[..i] + [fs[i]];
    assert fs == fs[..i + 1] + fs[i + 1..];
    KeepConcat(fs[..i], [fs[i]], dead);
    KeepConcat(fs[..i + 1], fs[i + 1..], dead);
    OrderedPrefix(Keep(fs[..i + 1], dead), Keep(fs[i + 1..], dead));
  }

  lemma {:induction false} OrderedPrefix(a: seq<File>, b: seq<File>)
    ensures Ordered(a + b) ==> Ordered(a)
  {
    assert forall i :: 0 <= i < |a| ==> (a + b)[i] == a[i];
  }
}
