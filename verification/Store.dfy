/** The log-structured store as a value: its layers, its invariant, and what each background step keeps (src/db_impl.rs). */
module Store {
  import opened Bytes
  import opened Entries
  import opened Version
  import opened VersionBuilder
  import opened VersionSet

  /** Memtable, immutable memtable (empty if there is none), the levels, and the counters. */
  datatype State = State(mem: seq<Entry>, imm: seq<Entry>, files: seq<seq<File>>, nextFile: nat, lastSeq: nat)

  /** Every version of a user key in A is newer than every version of it in B. */
  ghost predicate Newer(A: set<Entry>, B: set<Entry>) {
    forall e, f :: e in A && f in B && e.key.ukey == f.key.ukey ==> e.key.seqno > f.key.seqno
  }

  const NUM_LAYERS: nat := NUM_LEVELS + 2

  /** The layers from the newest to the oldest. */
  function Layer(s: State, i: nat): set<Entry>
    requires |s.files| == NUM_LEVELS && i < NUM_LAYERS
  {
    if i == 0 then EntrySet(s.mem) else if i == 1 then EntrySet(s.imm) else Contents(s.files[i - 2])
  }

  function AllEntries(s: State): set<Entry>
    requires |s.files| == NUM_LEVELS
  {
    set i, e | 0 <= i < NUM_LAYERS && e in Layer(s, i) :: e
  }

  ghost predicate LevelFilesOk(fs: seq<File>, nextFile: nat) {
    && (forall f :: f in fs ==> FileOk(f) && f.num < nextFile)
    && NumsDistinct(fs)
  }

  ghost predicate NoSharedNum(a: seq<File>, b: seq<File>) {
    forall f, g :: f in a && g in b ==> f.num != g.num
  }

  ghost predicate FilesOk(v: seq<seq<File>>, nextFile: nat): (ok: bool)
    ensures ok ==> |v| == NUM_LEVELS && forall l :: 0 <= l < NUM_LEVELS ==> LevelFilesOk(v[l], nextFile)
  {
    && |v| == NUM_LEVELS
    && (forall l :: 0 <= l < NUM_LEVELS ==> LevelFilesOk(v[l], nextFile))
    && (forall l, m :: 0 <= l < m < NUM_LEVELS ==> NoSharedNum(v[l], v[m]))
    && (forall l :: 1 <= l < NUM_LEVELS ==> Disjoint(v[l]))
    && SortedBySmallest(v[0])
  }

  /** Among level-0 files the higher number holds the newer versions. */
  ghost predicate NewerByNumber(fs: seq<File>) {
    forall f, g :: f in fs && g in fs && f.num > g.num ==> Newer(EntrySet(f.entries), EntrySet(g.entries))
  }

  ghost predicate LayersOk(s: State)
    requires |s.files| == NUM_LEVELS
  {
    && (forall i, j :: 0 <= i < j < NUM_LAYERS ==> Newer(Layer(s, i), Layer(s, j)))
    && (forall i, e :: 0 <= i < NUM_LAYERS && e in Layer(s, i) ==> 0 < e.key.seqno <= s.lastSeq)
  }

  ghost predicate StoreOk(s: State): (ok: bool)
    ensures ok ==> FilesOk(s.files, s.nextFile) && s.lastSeq < MAX_SEQUENCE_NUMBER
  {
    && FilesOk(s.files, s.nextFile)
    && NewerByNumber(s.files[0])
    && Sorted(s.mem)
    && Sorted(s.imm)
    && LayersOk(s)
    && s.lastSeq < MAX_SEQUENCE_NUMBER
  }

  // ----- entries of files -----

  lemma {:induction false} FlattenSet(fs: seq<File>)
    ensures EntrySet(Flatten(fs)) == Contents(fs)
  {
    if fs != [] {
      FlattenSet(fs[..|fs| - 1]);
      assert fs == fs[..|fs| - 1] + [fs[|fs| - 1]];
      var a, b := EntrySet(Flatten(fs)), Contents(fs);
      forall e ensures e in a <==> e in b {
        assert e in a <==> e in EntrySet(Flatten(fs[..|fs| - 1])) || e in fs[|fs| - 1].entries;
      }
    }
  }

  /** Every entry of a file lies in the file's user-key range. */
  lemma {:induction false} EntryInFile(f: File, e: Entry)
    requires FileOk(f) && e in f.entries
    ensures !Lt(e.key.ukey, f.smallest.ukey) && !Lt(f.largest.ukey, e.key.ukey)
  {
    LtOrder();
    hide Lt;
    var i :| 0 <= i < |f.entries| && f.entries[i] == e;
    assert i == 0 || KeyLess(f.entries[0].key, f.entries[i].key);
    assert i == |f.entries| - 1 || KeyLess(f.entries[i].key, f.entries[|f.entries| - 1].key);
  }

  /** Files with separate ranges share no user key. */
  lemma {:induction false} ApartFiles(f: File, g: File, e: Entry, e': Entry)
    requires FileOk(f) && FileOk(g) && Apart(f, g) && e in f.entries && e' in g.entries
    ensures e.key.ukey != e'.key.ukey
  {
    EntryInFile(f, e);
    EntryInFile(g, e');
    LtOrder();
    hide Lt;
  }

  lemma {:induction false} SortedConcat(a: seq<Entry>, b: seq<Entry>)
    requires Sorted(a) && Sorted(b) && forall e, f :: e in a && f in b ==> KeyLess(e.key, f.key)
    ensures Sorted(a + b)
  {
  }

  lemma {:induction false} FlattenSorted(fs: seq<File>)
    requires Disjoint(fs) && forall f :: f in fs ==> FileOk(f)
    ensures Sorted(Flatten(fs))
  {
    if fs != [] {
      var init, last := fs[..|fs| - 1], fs[|fs| - 1];
      assert last in fs;
      FlattenSorted(init);
      FlattenSet(init);
      forall e, e' | e in Flatten(init) && e' in last.entries ensures KeyLess(e.key, e'.key) {
        assert e in EntrySet(Flatten(init));
        var f :| f in init && e in f.entries;
        EntryInFile(f, e);
        EntryInFile(last, e');
        LtOrder();
        hide Lt;
      }
      SortedConcat(Flatten(init), last.entries);
    }
  }

  lemma {:induction false} FilesDistinct(fs: seq<File>)
    requires forall f :: f in fs ==> FileOk(f)
    requires forall f, g :: f in fs && g in fs && f != g ==> Apart(f, g) || Newer(EntrySet(f.entries), EntrySet(g.entries))
                                                             || Newer(EntrySet(g.entries), EntrySet(f.entries))
    ensures Distinct(Contents(fs))
  {
    var S := Contents(fs);
    forall e, e' | e in S && e' in S && e.key.ukey == e'.key.ukey && e.key.seqno == e'.key.seqno ensures e == e' {
      var f :| f in fs && e in f.entries;
      var g :| g in fs && e' in g.entries;
      if f == g {
        SortedDistinct(f.entries);
        assert e in EntrySet(f.entries) && e' in EntrySet(f.entries);
      } else {
        assert e in EntrySet(f.entries) && e' in EntrySet(g.entries);
        assert !Apart(f, g) by {
          if Apart(f, g) { ApartFiles(f, g, e, e'); }
        }
      }
    }
  }

  lemma {:induction false} NumsPick(fs: seq<File>, f: File, g: File)
    requires NumsDistinct(fs) && f in fs && g in fs && f != g
    ensures f.num != g.num
  {
    var i :| 0 <= i < |fs| && fs[i] == f;
    var j :| 0 <= j < |fs| && fs[j] == g;
    assert i < j || j < i;
  }

  lemma {:induction false} LayerDistinct(s: State, i: nat)
    requires StoreOk(s) && i < NUM_LAYERS
    ensures Distinct(Layer(s, i))
  {
    if i == 0 {
      SortedDistinct(s.mem);
    } else if i == 1 {
      SortedDistinct(s.imm);
    } else {
      var fs := s.files[i - 2];
      forall f, g | f in fs && g in fs && f != g
        ensures Apart(f, g) || Newer(EntrySet(f.entries), EntrySet(g.entries)) || Newer(EntrySet(g.entries), EntrySet(f.entries))
      {
        NumsPick(fs, f, g);
        if i > 2 {
          DisjointApart(fs, f, g);
        }
      }
      FilesDistinct(fs);
    }
  }

  lemma {:induction false} DisjointApart(fs: seq<File>, f: File, g: File)
    requires Disjoint(fs) && f in fs && g in fs && f != g
    ensures Apart(f, g)
  {
    var i :| 0 <= i < |fs| && fs[i] == f;
    var j :| 0 <= j < |fs| && fs[j] == g;
    assert i < j || j < i;
  }

  /** User key and sequence number identify an entry of the store. */
  lemma {:induction false} StoreDistinct(s: State)
    requires StoreOk(s)
    ensures Distinct(AllEntries(s))
  {
    var S := AllEntries(s);
    forall e, f | e in S && f in S && e.key.ukey == f.key.ukey && e.key.seqno == f.key.seqno ensures e == f {
      var i :| 0 <= i < NUM_LAYERS && e in Layer(s, i);
      var j :| 0 <= j < NUM_LAYERS && f in Layer(s, j);
      hide Layer;
      LayerDistinct(s, i);
    }
  }

  // ----- reading layer by layer -----

  /** What a search of the layers from i on finds: the newest visible version of the first layer that has one. */
  ghost function SearchLayers(s: State, i: nat, u: Bytes, sn: nat): Option<Bytes>
    requires |s.files| == NUM_LEVELS && i <= NUM_LAYERS
    decreases NUM_LAYERS - i
  {
    if i == NUM_LAYERS then None
    else if exists e :: Visible(Layer(s, i), u, sn, e) then ReadAt(Layer(s, i), u, sn)
    else SearchLayers(s, i + 1, u, sn)
  }

  /** Stopping at the first layer that knows the key is as good as reading all layers. */
  lemma {:induction false} SearchIsRead(s: State, i: nat, u: Bytes, sn: nat)
    requires StoreOk(s) && i <= NUM_LAYERS
    requires forall j, e :: 0 <= j < i ==> !Visible(Layer(s, j), u, sn, e)
    ensures SearchLayers(s, i, u, sn) == ReadAt(AllEntries(s), u, sn)
    decreases NUM_LAYERS - i
  {
    hide Layer;
    hide FilesOk;
    hide NewerByNumber;
    hide ReadAt;
    var S := AllEntries(s);
    if i == NUM_LAYERS {
      forall e ensures !Visible(S, u, sn, e) {
        if e in S {
          var j :| 0 <= j < NUM_LAYERS && e in Layer(s, j);
          assert !Visible(Layer(s, j), u, sn, e);
        }
      }
      ReadNothing(S, u, sn);
    } else if e :| Visible(Layer(s, i), u, sn, e) {
      FirstKnows(s, i, u, sn, e);
    } else {
      SearchIsRead(s, i + 1, u, sn);
    }
  }

  /** The first layer that has a visible version of the key has the newest. */
  lemma {:induction false} FirstKnows(s: State, i: nat, u: Bytes, sn: nat, e: Entry)
    requires StoreOk(s) && i < NUM_LAYERS && Visible(Layer(s, i), u, sn, e)
    requires forall j, e :: 0 <= j < i ==> !Visible(Layer(s, j), u, sn, e)
    ensures ReadAt(Layer(s, i), u, sn) == ReadAt(AllEntries(s), u, sn)
  {
    hide Layer;
    hide FilesOk;
    hide NewerByNumber;
    hide ReadAt;
    hide Distinct;
    var S, L := AllEntries(s), Layer(s, i);
    NewestExists(L, u, sn, e);
    var n :| IsNewest(L, u, sn, n);
    LayerDistinct(s, i);
    ReadIs(L, u, sn, n);
    StoreDistinct(s);
    forall f | Visible(S, u, sn, f) ensures f.key.seqno <= n.key.seqno {
      var j :| 0 <= j < NUM_LAYERS && f in Layer(s, j);
      assert Visible(Layer(s, j), u, sn, f);
      assert i < j ==> Newer(Layer(s, i), Layer(s, j));
    }
    ReadIs(S, u, sn, n);
  }

  // ----- installing a compaction -----

  /** The inputs of a compaction of level: separable there, and on the next level all that overlap them. */
  ghost predicate InputsOk(v: seq<seq<File>>, level: nat, in0: seq<File>, in1: seq<File>): (ok: bool)
    requires |v| == NUM_LEVELS
    ensures ok ==> level + 1 < NUM_LEVELS && in0 != []
  {
    && level + 1 < NUM_LEVELS
    && Separable(v[level], level, in0)
    && in1 == NextLevelInputs(v, level, in0)
  }

  ghost predicate OutputsFit(s: State, level: nat, in0: seq<File>, in1: seq<File>, outs: seq<File>, nextFile: nat)
    requires |s.files| == NUM_LEVELS && level < NUM_LEVELS
  {
    && s.nextFile <= nextFile
    && (forall o :: o in outs ==> FileOk(o) && o.num < nextFile)
    && NumsDistinct(outs)
    && Disjoint(outs)
    && Contents(outs) <= Contents(in0) + Contents(in1)
    && (forall l :: 0 <= l < NUM_LEVELS && l != level ==> NoSharedNum(outs, s.files[l]))
    && (forall o, g :: o in outs && g in s.files[level] && g.num == o.num ==> g in in0)
  }

  /** The version in which outs on the next level replaces in0 and in1. */
  function Installed(v: seq<seq<File>>, level: nat, in0: seq<File>, in1: seq<File>, outs: seq<File>): (r: seq<seq<File>>)
    requires |v| == NUM_LEVELS && level + 1 < NUM_LEVELS
    ensures |r| == NUM_LEVELS
  {
    v[level := Keep(v[level], Nums(in0))][level + 1 := SortFiles(Keep(v[level + 1], Nums(in1)) + outs)]
  }

  lemma {:induction false} KeepOthers(fs: seq<File>, picked: seq<File>)
    requires NumsDistinct(fs) && forall f :: f in picked ==> f in fs
    ensures forall f :: f in Keep(fs, Nums(picked)) <==> f in fs && f !in picked
  {
    KeepMembers(fs, Nums(picked));
    forall f | f in fs ensures f.num in Nums(picked) <==> f in picked {
      if f.num in Nums(picked) {
        var g :| g in picked && g.num == f.num;
        if f != g { NumsPick(fs, f, g); }
      }
    }
  }

  /** v' is v with outs on the next level instead of in0 and in1, as far as membership goes. */
  ghost predicate Replaces(v: seq<seq<File>>, v': seq<seq<File>>, level: nat, in0: seq<File>, in1: seq<File>, outs: seq<File>)
    requires |v| == NUM_LEVELS && level + 1 < NUM_LEVELS
  {
    && |v'| == NUM_LEVELS
    && (forall l :: 0 <= l < NUM_LEVELS && l != level && l != level + 1 ==> v'[l] == v[l])
    && (forall f :: f in v'[level] <==> f in v[level] && f !in in0)
    && (forall f :: f in v'[level + 1] <==> (f in v[level + 1] && f !in in1) || f in outs)
  }

  lemma {:induction false} InstalledReplaces(s: State, level: nat, in0: seq<File>, in1: seq<File>, outs: seq<File>)
    requires StoreOk(s) && InputsOk(s.files, level, in0, in1)
    ensures Replaces(s.files, Installed(s.files, level, in0, in1, outs), level, in0, in1, outs)
  {
    KeepOthers(s.files[level], in0);
    KeepOthers(s.files[level + 1], in1);
    SortMembers(Keep(s.files[level + 1], Nums(in1)) + outs);
    hide StoreOk;
    hide InputsOk;
    hide Keep;
    hide SortFiles;
  }

  /** g ends before the entry, if it ends before the range of in0; else it starts behind the entry. */
  predicate Beside(g: File, lo: Bytes, e: Entry) {
    if Lt(g.largest.ukey, lo) then Lt(g.largest.ukey, e.key.ukey) else Lt(e.key.ukey, g.smallest.ukey)
  }

  lemma {:induction false} BesideNear(in0: seq<File>, g: File, f: File, e: Entry)
    requires in0 != [] && f in in0 && FileOk(f) && e in f.entries
    requires !InRange(g, RangeOf(in0).0.ukey, RangeOf(in0).1.ukey)
    ensures Beside(g, RangeOf(in0).0.ukey, e)
  {
    RangeBounds(in0);
    EntryInFile(f, e);
    LtOrder();
    hide Lt;
    hide RangeOf;
  }

  lemma {:induction false} BesideNext(lo: Bytes, hi: Bytes, g: File, f: File, e: Entry)
    requires FileOk(f) && e in f.entries && Apart(f, g) && !Lt(g.largest.ukey, g.smallest.ukey)
    requires !InRange(g, lo, hi) && InRange(f, lo, hi)
    ensures Beside(g, lo, e)
  {
    EntryInFile(f, e);
    LtOrder();
    hide Lt;
  }

  /** A file of the next level that is not an input lies wholly before or wholly behind all input entries. */
  lemma {:induction false} OutsideInputs(s: State, level: nat, in0: seq<File>, in1: seq<File>, g: File)
    requires StoreOk(s) && InputsOk(s.files, level, in0, in1) && g in s.files[level + 1] && g !in in1
    ensures forall e :: e in Contents(in0) + Contents(in1) ==> Beside(g, RangeOf(in0).0.ukey, e)
  {
    var lo, hi := RangeOf(in0).0.ukey, RangeOf(in0).1.ukey;
    assert FileOk(g) && forall f :: f in in0 || f in in1 ==> FileOk(f);
    EntryInFile(g, g.entries[0]);
    hide LayersOk;
    hide FileOk;
    forall e | e in Contents(in0) + Contents(in1) ensures Beside(g, lo, e) {
      if e in Contents(in0) {
        var f :| f in in0 && e in f.entries;
        BesideNear(in0, g, f, e);
      } else {
        var f :| f in in1 && e in f.entries;
        DisjointApart(s.files[level + 1], f, g);
        BesideNext(lo, hi, g, f, e);
      }
    }
  }

  lemma {:induction false} DisjointFromApart(fs: seq<File>)
    requires SortedBySmallest(fs) && NumsDistinct(fs)
    requires forall f :: f in fs ==> FileOk(f)
    requires forall f, g :: f in fs && g in fs && f.num != g.num ==> Apart(f, g)
    ensures Disjoint(fs)
  {
    forall i, j | 0 <= i < j < |fs| ensures Lt(fs[i].largest.ukey, fs[j].smallest.ukey) {
      assert Apart(fs[i], fs[j]) && FileOk(fs[i]) && FileOk(fs[j]);
      EntryInFile(fs[j], fs[j].entries[0]);
      EntryInFile(fs[i], fs[i].entries[0]);
      LtOrder();
      hide Lt;
    }
  }

  /** The outputs and the files left on the next level do not touch. */
  lemma {:induction false} OutputApart(s: State, level: nat, in0: seq<File>, in1: seq<File>, o: File, g: File)
    requires StoreOk(s) && InputsOk(s.files, level, in0, in1) && g in s.files[level + 1] && g !in in1
    requires FileOk(o) && EntrySet(o.entries) <= Contents(in0) + Contents(in1)
    ensures Apart(o, g)
  {
    OutsideInputs(s, level, in0, in1, g);
    hide StoreOk;
    hide InputsOk;
    var a, b := o.entries[0], o.entries[|o.entries| - 1];
    assert a in EntrySet(o.entries) && b in EntrySet(o.entries);
    assert Beside(g, RangeOf(in0).0.ukey, a) && Beside(g, RangeOf(in0).0.ukey, b);
  }

  lemma {:induction false} OutputWithin(outs: seq<File>, S: set<Entry>, o: File)
    requires Contents(outs) <= S && o in outs
    ensures EntrySet(o.entries) <= S
  {
    forall e | e in EntrySet(o.entries) ensures e in S {
      assert e in Contents(outs);
    }
  }

  lemma {:induction false} NextLevelDisjoint(s: State, level: nat, in0: seq<File>, in1: seq<File>, outs: seq<File>, nextFile: nat)
    requires StoreOk(s) && InputsOk(s.files, level, in0, in1) && OutputsFit(s, level, in0, in1, outs, nextFile)
    ensures var fs := Installed(s.files, level, in0, in1, outs)[level + 1];
            NumsDistinct(fs) && Disjoint(fs) && forall f :: f in fs ==> FileOk(f)
  {
    var v := s.files;
    var fs := Installed(v, level, in0, in1, outs)[level + 1];
    InstalledReplaces(s, level, in0, in1, outs);
    var rest := Keep(v[level + 1], Nums(in1));
    KeepNumsDistinct(v[level + 1], Nums(in1));
    KeepOthers(v[level + 1], in1);
    assert NumsDistinct(rest + outs) by {
      forall i, j | 0 <= i < |rest| && 0 <= j < |outs| ensures rest[i].num != outs[j].num {
        assert rest[i] in rest && outs[j] in outs;
      }
    }
    SortMembers(rest + outs);
    SortSorts(rest + outs);
    forall f, g | f in fs && g in fs && f.num != g.num ensures Apart(f, g) {
      if f in outs && g in outs {
        DisjointApart(outs, f, g);
      } else if f in outs {
        OutputWithin(outs, Contents(in0) + Contents(in1), f);
        OutputApart(s, level, in0, in1, f, g);
      } else if g in outs {
        OutputWithin(outs, Contents(in0) + Contents(in1), g);
        OutputApart(s, level, in0, in1, g, f);
      } else {
        DisjointApart(v[level + 1], f, g);
      }
    }
    DisjointFromApart(fs);
  }

  lemma {:induction false} KeepDisjoint(fs: seq<File>, dead: set<nat>)
    requires Disjoint(fs)
    ensures Disjoint(Keep(fs, dead))
  {
    if fs != [] {
      KeepDisjoint(fs[1..], dead);
      KeepMembers(fs[1..], dead);
      var r := Keep(fs[1..], dead);
      assert forall i :: 0 <= i < |r| ==> r[i] in fs[1..];
    }
  }

  lemma {:induction false} NumsAcross(s: State, v': seq<seq<File>>, level: nat, in0: seq<File>, in1: seq<File>, outs: seq<File>, nextFile: nat, l: nat, m: nat)
    requires FilesOk(s.files, s.nextFile) && level + 1 < NUM_LEVELS && OutputsFit(s, level, in0, in1, outs, nextFile)
    requires Replaces(s.files, v', level, in0, in1, outs) && l < m < NUM_LEVELS
    ensures NoSharedNum(v'[l], v'[m])
  {
    assert NoSharedNum(s.files[l], s.files[m]);
    assert l != level ==> NoSharedNum(outs, s.files[l]);
    assert m != level ==> NoSharedNum(outs, s.files[m]);
    hide LevelFilesOk;
  }

  lemma {:induction false} InstallFilesOk(s: State, v': seq<seq<File>>, level: nat, in0: seq<File>, in1: seq<File>, outs: seq<File>, nextFile: nat)
    requires FilesOk(s.files, s.nextFile) && NewerByNumber(s.files[0]) && level + 1 < NUM_LEVELS
    requires OutputsFit(s, level, in0, in1, outs, nextFile) && Replaces(s.files, v', level, in0, in1, outs)
    requires v'[level] == Keep(s.files[level], Nums(in0))
    requires NumsDistinct(v'[level + 1]) && Disjoint(v'[level + 1])
    ensures FilesOk(v', nextFile) && NewerByNumber(v'[0])
  {
    var v := s.files;
    KeepNumsDistinct(v[level], Nums(in0));
    if level > 0 {
      KeepDisjoint(v[level], Nums(in0));
    } else {
      KeepSort(v[0], Nums(in0));
      SortOfSorted(v[0]);
      SortSorts(Keep(v[0], Nums(in0)));
    }
    forall l, m | 0 <= l < m < NUM_LEVELS ensures NoSharedNum(v'[l], v'[m]) {
      NumsAcross(s, v', level, in0, in1, outs, nextFile, l, m);
    }
    hide FileOk;
    hide Keep;
    hide SortFiles;
    hide Disjoint;
    hide NumsDistinct;
    hide SortedBySmallest;
    hide NoSharedNum;
    hide Newer;
    forall l | 0 <= l < NUM_LEVELS ensures LevelFilesOk(v'[l], nextFile) {
      assert LevelFilesOk(v[l], s.nextFile);
    }
  }

  /** After an install every entry is where it was, or has moved with in0 to the next level. */
  ghost predicate Moved(s: State, v': seq<seq<File>>, level: nat, in0: seq<File>)
    requires |s.files| == |v'| == NUM_LEVELS && level + 1 < NUM_LEVELS
  {
    && Contents(in0) <= Layer(s, level + 2)
    && forall i :: 0 <= i < NUM_LAYERS ==>
                     Layer(s.(files := v'), i) <= Layer(s, i) + if i == level + 3 then Contents(in0) else {}
  }

  lemma {:induction false} InstallMoves(s: State, v': seq<seq<File>>, level: nat, in0: seq<File>, in1: seq<File>, outs: seq<File>)
    requires |s.files| == NUM_LEVELS && InputsOk(s.files, level, in0, in1)
    requires Replaces(s.files, v', level, in0, in1, outs) && Contents(outs) <= Contents(in0) + Contents(in1)
    ensures Moved(s, v', level, in0)
  {
    var v := s.files;
    assert forall f :: f in in0 ==> f in v[level];
    assert forall f :: f in in1 ==> f in v[level + 1];
    assert Contents(in0) <= Contents(v[level]) && Contents(in1) <= Contents(v[level + 1]);
    hide InputsOk;
    forall l | 0 <= l < NUM_LEVELS ensures MovedAt(v, v', l, level, in0) {
      forall e | e in Contents(v'[l]) ensures e in Contents(v[l]) || (l == level + 1 && e in Contents(in0)) {
        var f :| f in v'[l] && e in f.entries;
        if f !in v[l] {
          assert e in Contents(outs);
        }
      }
    }
    LevelsMoved(s, v', level, in0);
  }

  /** What a level has then was there before, or has come down with in0. */
  ghost predicate MovedAt(v: seq<seq<File>>, v': seq<seq<File>>, l: nat, level: nat, in0: seq<File>)
    requires l < |v| == |v'|
  {
    forall e :: e in Contents(v'[l]) ==> e in Contents(v[l]) || (l == level + 1 && e in Contents(in0))
  }

  lemma {:induction false} LevelsMoved(s: State, v': seq<seq<File>>, level: nat, in0: seq<File>)
    requires |s.files| == |v'| == NUM_LEVELS && level + 1 < NUM_LEVELS && Contents(in0) <= Contents(s.files[level])
    requires forall l :: 0 <= l < NUM_LEVELS ==> MovedAt(s.files, v', l, level, in0)
    ensures Moved(s, v', level, in0)
  {
    hide Contents;
    hide MovedAt;
    assert Layer(s, level + 2) == Contents(s.files[level]);
    hide Layer;
    forall i | 0 <= i < NUM_LAYERS
      ensures Layer(s.(files := v'), i) <= Layer(s, i) + if i == level + 3 then Contents(in0) else {}
    {
      LayerMoved(s, v', level, in0, i);
    }
  }

  lemma {:induction false} LayerMoved(s: State, v': seq<seq<File>>, level: nat, in0: seq<File>, i: nat)
    requires |s.files| == |v'| == NUM_LEVELS && i < NUM_LAYERS
    requires i >= 2 ==> MovedAt(s.files, v', i - 2, level, in0)
    ensures Layer(s.(files := v'), i) <= Layer(s, i) + if i == level + 3 then Contents(in0) else {}
  {
    hide Contents;
  }

  /** An entry left on the level shares no user key with one that moved. */
  lemma {:induction false} StayedApart(s: State, v': seq<seq<File>>, level: nat, in0: seq<File>, in1: seq<File>, outs: seq<File>, e: Entry, f: Entry)
    requires StoreOk(s) && InputsOk(s.files, level, in0, in1) && Replaces(s.files, v', level, in0, in1, outs)
    requires e in Contents(v'[level]) && f in Contents(in0)
    ensures e.key.ukey != f.key.ukey
  {
    var g :| g in v'[level] && e in g.entries;
    var h :| h in in0 && f in h.entries;
    assert Apart(g, h) && FileOk(g) && FileOk(h);
    ApartFiles(g, h, e, f);
  }

  lemma {:induction false} InstallLayersOk(s: State, v': seq<seq<File>>, level: nat, in0: seq<File>, in1: seq<File>, outs: seq<File>)
    requires StoreOk(s) && InputsOk(s.files, level, in0, in1)
    requires Replaces(s.files, v', level, in0, in1, outs) && Contents(outs) <= Contents(in0) + Contents(in1)
    ensures LayersOk(s.(files := v'))
  {
    var s' := s.(files := v');
    InstallMoves(s, v', level, in0, in1, outs);
    forall e, f | e in Layer(s', level + 2) && f in Contents(in0) ensures e.key.ukey != f.key.ukey {
      StayedApart(s, v', level, in0, in1, outs, e, f);
    }
    MovedLayersOk(s, v', level, in0);
  }

  lemma {:induction false} MovedLayersOk(s: State, v': seq<seq<File>>, level: nat, in0: seq<File>)
    requires |s.files| == |v'| == NUM_LEVELS && level + 1 < NUM_LEVELS
    requires LayersOk(s) && Moved(s, v', level, in0)
    requires forall e, f :: e in Layer(s.(files := v'), level + 2) && f in Contents(in0) ==> e.key.ukey != f.key.ukey
    ensures LayersOk(s.(files := v'))
  {
    var s' := s.(files := v');
    hide Layer;
    hide Contents;
    forall i, j | 0 <= i < j < NUM_LAYERS ensures Newer(Layer(s', i), Layer(s', j)) {
      assert Newer(Layer(s, i), Layer(s, j));
      assert i < level + 2 ==> Newer(Layer(s, i), Layer(s, level + 2));
      assert j > level + 2 ==> Newer(Layer(s, level + 2), Layer(s, j));
    }
  }

  /** Installing a compaction keeps the store's invariant. */
  lemma {:induction false} InstallKeepsStore(s: State, level: nat, in0: seq<File>, in1: seq<File>, outs: seq<File>, nextFile: nat)
    requires StoreOk(s) && InputsOk(s.files, level, in0, in1) && OutputsFit(s, level, in0, in1, outs, nextFile)
    ensures StoreOk(s.(files := Installed(s.files, level, in0, in1, outs), nextFile := nextFile))
  {
    var v' := Installed(s.files, level, in0, in1, outs);
    assert v'[level] == Keep(s.files[level], Nums(in0));
    InstalledReplaces(s, level, in0, in1, outs);
    NextLevelDisjoint(s, level, in0, in1, outs, nextFile);
    InstallFilesOk(s, v', level, in0, in1, outs, nextFile);
    InstallLayersOk(s, v', level, in0, in1, outs);
    LayersOnly(s.(files := v'), nextFile);
    hide FilesOk;
    hide NewerByNumber;
    hide LayersOk;
    hide InputsOk;
    hide OutputsFit;
    hide Replaces;
    hide Sorted;
    hide Installed;
  }

  lemma {:induction false} LayersOnly(s: State, nextFile: nat)
    requires |s.files| == NUM_LEVELS && LayersOk(s)
    ensures LayersOk(s.(nextFile := nextFile))
  {
    assert forall i :: 0 <= i < NUM_LAYERS ==> Layer(s, i) == Layer(s.(nextFile := nextFile), i);
    hide Layer;
  }

  // ----- small stores -----

  /** Files on level 0 only. */
  function TopOnly(top: seq<File>): (v: seq<seq<File>>)
    ensures |v| == NUM_LEVELS && v[0] == top && forall l :: 1 <= l < NUM_LEVELS ==> v[l] == []
  {
    seq(NUM_LEVELS, l requires 0 <= l < NUM_LEVELS => if l == 0 then top else [])
  }

  lemma {:induction false} TopStoreOk(imm: seq<Entry>, top: seq<File>, next: nat, q: nat)
    requires Sorted(imm) && LevelFilesOk(top, next) && SortedBySmallest(top) && NewerByNumber(top) && q < MAX_SEQUENCE_NUMBER
    requires Newer(EntrySet(imm), Contents(top))
    requires forall e :: e in EntrySet(imm) + Contents(top) ==> 0 < e.key.seqno <= q
    ensures StoreOk(State([], imm, TopOnly(top), next, q))
    ensures AllEntries(State([], imm, TopOnly(top), next, q)) == EntrySet(imm) + Contents(top)
  {
    hide NewerByNumber;
    hide FileOk;
    hide SortedBySmallest;
    hide TopOnly;
    var s := State([], imm, TopOnly(top), next, q);
    assert forall i :: 0 <= i < NUM_LAYERS ==> Layer(s, i) == if i == 1 then EntrySet(imm) else if i == 2 then Contents(top) else {};
    hide Layer;
    assert FilesOk(s.files, next) by {
      hide LevelFilesOk;
      assert LevelFilesOk([], next);
      forall l, m | 0 <= l < m < NUM_LEVELS ensures NoSharedNum(s.files[l], s.files[m]) {
      }
    }
    hide FilesOk;
    assert forall e :: e in AllEntries(s) <==> e in Layer(s, 1) || e in Layer(s, 2);
  }
}
