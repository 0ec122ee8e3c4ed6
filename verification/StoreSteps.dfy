/** What writes, flushes, moves and compactions do to the store (src/db_impl.rs). */
module StoreSteps {
  import opened Bytes
  import opened Entries
  import opened Version
  import opened VersionBuilder
  import opened VersionSet
  import opened CompactionWork
  import opened MergingIterator
  import opened Store

  // ----- the input of a compaction -----

  /** One source per level-0 table, one concatenated source per level above. */
  function SourcesFor(level: nat, in0: seq<File>, in1: seq<File>): seq<seq<Entry>> {
    (if level == 0 then seq(|in0|, i requires 0 <= i < |in0| => in0[i].entries) else [Flatten(in0)])
    + (if in1 == [] then [] else [Flatten(in1)])
  }

  lemma {:induction false} NewerNoShared(a: seq<Entry>, b: seq<Entry>)
    requires Newer(EntrySet(a), EntrySet(b)) || Newer(EntrySet(b), EntrySet(a))
    ensures NoSharedVersion(a, b)
  {
    assert forall e :: e in a ==> e in EntrySet(a);
    assert forall e :: e in b ==> e in EntrySet(b);
  }

  lemma {:induction false} NextNoShared(s: State, level: nat, in0: seq<File>, in1: seq<File>, a: seq<Entry>)
    requires StoreOk(s) && InputsOk(s.files, level, in0, in1)
    requires EntrySet(a) <= Contents(in0)
    ensures NoSharedVersion(a, Flatten(in1))
  {
    FlattenSet(in1);
    assert Newer(Layer(s, level + 2), Layer(s, level + 3));
    assert Contents(in0) <= Contents(s.files[level]) && Contents(in1) <= Contents(s.files[level + 1]);
    hide Contents;
    NewerNoShared(a, Flatten(in1));
  }

  lemma {:induction false} LevelZeroNoShared(s: State, in0: seq<File>, i: nat, j: nat)
    requires StoreOk(s) && Separable(s.files[0], 0, in0) && i < j < |in0|
    ensures NoSharedVersion(in0[i].entries, in0[j].entries)
  {
    assert in0[i] in in0 && in0[j] in in0;
    NewerNoShared(in0[i].entries, in0[j].entries);
  }

  lemma {:induction false} SourcesFit(s: State, level: nat, in0: seq<File>, in1: seq<File>)
    requires StoreOk(s) && InputsOk(s.files, level, in0, in1)
    ensures SourcesOk(SourcesFor(level, in0, in1))
  {
    var rs := SourcesFor(level, in0, in1);
    assert LevelFilesOk(s.files[level], s.nextFile) && LevelFilesOk(s.files[level + 1], s.nextFile);
    SelectDisjoint(s.files[level + 1], RangeOf(in0).0.ukey, RangeOf(in0).1.ukey);
    FlattenSorted(in1);
    FlattenSet(in0);
    var n := if level == 0 then |in0| else 1;
    forall i | 0 <= i < n ensures Sorted(rs[i]) && EntrySet(rs[i]) <= Contents(in0) {
      if level > 0 {
        FlattenSorted(in0);
      } else {
        assert in0[i] in in0 && rs[i] == in0[i].entries;
        OutputWithin(in0, Contents(in0), in0[i]);
      }
    }
    forall i, j | 0 <= i < j < |rs| ensures NoSharedVersion(rs[i], rs[j]) {
      if j < n {
        LevelZeroNoShared(s, in0, i, j);
      } else {
        NextNoShared(s, level, in0, in1, rs[i]);
      }
    }
  }

  /** The source that holds an entry of the input files. */
  lemma {:induction false} SourceOf(level: nat, in0: seq<File>, in1: seq<File>, e: Entry) returns (i: nat)
    requires e in Contents(in0) + Contents(in1) && in0 != []
    ensures i < |SourcesFor(level, in0, in1)| && e in SourcesFor(level, in0, in1)[i]
  {
    var rs := SourcesFor(level, in0, in1);
    if e in Contents(in1) {
      FlattenSet(in1);
      assert e in EntrySet(Flatten(in1));
      i := |rs| - 1;
    } else if level == 0 {
      var f :| f in in0 && e in f.entries;
      i :| 0 <= i < |in0| && in0[i] == f;
    } else {
      FlattenSet(in0);
      assert e in EntrySet(Flatten(in0));
      i := 0;
    }
  }

  lemma {:induction false} SourceWithin(level: nat, in0: seq<File>, in1: seq<File>, i: nat, e: Entry)
    requires in0 != [] && i < |SourcesFor(level, in0, in1)| && e in SourcesFor(level, in0, in1)[i]
    ensures e in Contents(in0) + Contents(in1)
  {
    if level == 0 && i < |in0| {
      assert in0[i] in in0 && e in in0[i].entries;
    } else if i == 0 {
      FlattenSet(in0);
      assert e in EntrySet(Flatten(in0));
    } else {
      FlattenSet(in1);
      assert e in EntrySet(Flatten(in1));
    }
  }

  /** The merged input holds exactly the entries of the input files. */
  lemma {:induction false} InputSet(s: State, level: nat, in0: seq<File>, in1: seq<File>)
    requires StoreOk(s) && InputsOk(s.files, level, in0, in1)
    ensures Sorted(MergeAll(SourcesFor(level, in0, in1)))
    ensures EntrySet(MergeAll(SourcesFor(level, in0, in1))) == Contents(in0) + Contents(in1)
  {
    var rs := SourcesFor(level, in0, in1);
    SourcesFit(s, level, in0, in1);
    assert in0 != [];
    hide StoreOk;
    hide InputsOk;
    MergeAllIsMerge(rs);
    hide MergeAll;
    hide SourcesFor;
    hide Contents;
    forall e ensures e in MergeAll(rs) <==> e in Contents(in0) + Contents(in1) {
      if e in MergeAll(rs) {
        var i :| 0 <= i < |rs| && e in rs[i];
        SourceWithin(level, in0, in1, i, e);
      }
      if e in Contents(in0) + Contents(in1) {
        var i := SourceOf(level, in0, in1, e);
      }
    }
  }

  // ----- the output of a compaction -----

  ghost predicate StrictKeys(es: seq<Entry>) {
    forall i, j :: 0 <= i < j < |es| ==> Lt(es[i].key.ukey, es[j].key.ukey)
  }

  /** If every input is visible to every snapshot, one version of each user key is kept. */
  lemma {:induction false} KeptStrict(input: seq<Entry>, n: nat, smallest: nat, v: seq<seq<File>>, level: nat)
    requires |v| == NUM_LEVELS && n <= |input| && Sorted(input)
    requires forall i :: 0 <= i < |input| ==> input[i].key.seqno <= smallest
    ensures StrictKeys(Kept(input, n, smallest, v, level))
  {
    if n > 0 {
      var k := Kept(input, n - 1, smallest, v, level);
      KeptStrict(input, n - 1, smallest, v, level);
      KeptMembers(input, n - 1, smallest, v, level);
      if Retained(input, n - 1, smallest, v, level) {
        forall i | 0 <= i < |k| ensures Lt(k[i].key.ukey, input[n - 1].key.ukey) {
          assert k[i] in k;
          var j :| 0 <= j < n - 1 && input[j] == k[i];
          assert KeyLess(input[j].key, input[n - 1].key);
        }
        hide Retained;
      }
    }
  }

  lemma {:induction false} StrictSplit(a: seq<Entry>, b: seq<Entry>)
    requires StrictKeys(a + b)
    ensures StrictKeys(a) && StrictKeys(b) && Sorted(b)
    ensures forall e, f :: e in a && f in b ==> Lt(e.key.ukey, f.key.ukey)
  {
    hide Lt;
    var ab := a + b;
    assert forall i :: 0 <= i < |a| ==> ab[i] == a[i];
    assert forall i :: 0 <= i < |b| ==> b[i] == ab[|a| + i];
    forall e, f | e in a && f in b ensures Lt(e.key.ukey, f.key.ukey) {
      var i :| 0 <= i < |a| && a[i] == e;
      var j :| 0 <= j < |b| && b[j] == f;
      assert Lt(ab[i].key.ukey, ab[|a| + j].key.ukey);
    }
  }

  lemma {:induction false} OutputFiles(outs: seq<File>, first: nat)
    requires OutputsOk(outs, first) && StrictKeys(Flatten(outs))
    ensures forall o :: o in outs ==> FileOk(o)
    ensures Disjoint(outs) && NumsDistinct(outs)
  {
    if outs != [] {
      var init, last := outs[..|outs| - 1], outs[|outs| - 1];
      StrictSplit(Flatten(init), last.entries);
      OutputFiles(init, first);
      assert FileOk(last) && outs == init + [last];
      FlattenSet(init);
      hide Flatten;
      hide StrictKeys;
      forall f | f in init ensures Lt(f.largest.ukey, last.smallest.ukey) {
        var e := f.entries[|f.entries| - 1];
        assert f in init && e in f.entries;
        assert e in EntrySet(Flatten(init));
      }
    }
  }

  /** outs is what the compaction loop writes for these inputs when there is no snapshot. */
  ghost predicate IsOutput(s: State, level: nat, in0: seq<File>, in1: seq<File>, outs: seq<File>)
    requires |s.files| == NUM_LEVELS
  {
    var input := MergeAll(SourcesFor(level, in0, in1));
    OutputsOk(outs, s.nextFile) && Flatten(outs) == Kept(input, |input|, s.lastSeq, s.files, level)
  }

  lemma {:induction false} FreshNums(s: State, outs: seq<File>, l: nat)
    requires FilesOk(s.files, s.nextFile) && OutputsOk(outs, s.nextFile) && l < NUM_LEVELS
    ensures NoSharedNum(outs, s.files[l]) && forall o :: o in outs ==> o.num < s.nextFile + |outs|
  {
    assert LevelFilesOk(s.files[l], s.nextFile);
  }

  /** The outputs of a compaction without live snapshots can be installed. */
  lemma {:induction false} KeptFits(s: State, level: nat, in0: seq<File>, in1: seq<File>, outs: seq<File>)
    requires StoreOk(s) && InputsOk(s.files, level, in0, in1) && IsOutput(s, level, in0, in1, outs)
    ensures OutputsFit(s, level, in0, in1, outs, s.nextFile + |outs|)
  {
    hide StoreOk;
    hide InputsOk;
    hide MergeAll;
    hide SourcesFor;
    hide Kept;
    hide Flatten;
    hide OutputsOk;
    hide FileOk;
    hide FilesOk;
    var input := MergeAll(SourcesFor(level, in0, in1));
    InputSet(s, level, in0, in1);
    InputSeqs(s, level, in0, in1);
    forall l | 0 <= l < NUM_LEVELS
      ensures NoSharedNum(outs, s.files[l]) && forall o :: o in outs ==> o.num < s.nextFile + |outs|
    {
      FreshNums(s, outs, l);
    }
    KeptStrict(input, |input|, s.lastSeq, s.files, level);
    KeptMembers(input, |input|, s.lastSeq, s.files, level);
    OutputFiles(outs, s.nextFile);
    FlattenSet(outs);
    forall e | e in Contents(outs) ensures e in Contents(in0) + Contents(in1) {
      assert e in EntrySet(Flatten(outs));
      assert e in EntrySet(input);
    }
    assert forall o, g :: o in outs && g in s.files[level] ==> o.num != g.num by {
      assert NoSharedNum(outs, s.files[level]);
    }
  }

  lemma {:induction false} InputSeqs(s: State, level: nat, in0: seq<File>, in1: seq<File>)
    requires StoreOk(s) && InputsOk(s.files, level, in0, in1)
    ensures forall e :: e in Contents(in0) ==> e in Layer(s, level + 2)
    ensures forall e :: e in Contents(in1) ==> e in Layer(s, level + 3)
    ensures forall e :: e in MergeAll(SourcesFor(level, in0, in1)) ==> 0 < e.key.seqno <= s.lastSeq
  {
    hide MergeAll;
    hide SourcesFor;
    hide FilesOk;
    hide NewerByNumber;
    hide Newer;
    InputSet(s, level, in0, in1);
    InputsWithin(s, level, in0, in1);
    hide InputsOk;
    hide Layer;
    forall e | e in MergeAll(SourcesFor(level, in0, in1)) ensures 0 < e.key.seqno <= s.lastSeq {
      assert e in EntrySet(MergeAll(SourcesFor(level, in0, in1)));
      assert e in Layer(s, level + 2) || e in Layer(s, level + 3);
    }
  }

  lemma {:induction false} InputsWithin(s: State, level: nat, in0: seq<File>, in1: seq<File>)
    requires |s.files| == NUM_LEVELS && InputsOk(s.files, level, in0, in1)
    ensures forall e :: e in Contents(in0) ==> e in Layer(s, level + 2)
    ensures forall e :: e in Contents(in1) ==> e in Layer(s, level + 3)
  {
    assert (forall f :: f in in0 ==> f in s.files[level]) && (forall f :: f in in1 ==> f in s.files[level + 1]);
  }

  // ----- a compaction changes no read -----

  /** What a compaction leaves alone. */
  ghost function Rest(s: State, level: nat, in0: seq<File>, in1: seq<File>): State
    requires |s.files| == NUM_LEVELS && level + 1 < NUM_LEVELS
  {
    s.(files := Installed(s.files, level, in0, in1, []))
  }

  lemma {:induction false} ContentsUnion(fs: seq<File>, a: seq<File>, b: seq<File>)
    requires forall f :: f in fs <==> f in a || f in b
    ensures Contents(fs) == Contents(a) + Contents(b)
  {
    forall e ensures e in Contents(fs) <==> e in Contents(a) + Contents(b) {
      if e in Contents(fs) {
        var f :| f in fs && e in f.entries;
      }
    }
  }

  /** Level by level, the files of an install are the outputs and what was left alone. */
  lemma {:induction false} InstalledContents(v: seq<seq<File>>, v': seq<seq<File>>, r: seq<seq<File>>, level: nat,
                                             in0: seq<File>, in1: seq<File>, outs: seq<File>, l: nat)
    requires |v| == NUM_LEVELS && level + 1 < NUM_LEVELS && l < NUM_LEVELS
    requires Replaces(v, v', level, in0, in1, outs) && Replaces(v, r, level, in0, in1, [])
    requires (forall f :: f in in0 ==> f in v[level]) && (forall f :: f in in1 ==> f in v[level + 1])
    ensures Contents(v'[l]) == Contents(r[l]) + if l == level + 1 then Contents(outs) else {}
    ensures Contents(v[l]) == Contents(r[l])
                              + if l == level + 1 then Contents(in1) else if l == level then Contents(in0) else {}
  {
    var none: seq<File> := [];
    if l == level + 1 {
      forall f
        ensures f in v'[l] <==> f in r[l] || f in outs
        ensures f in v[l] <==> f in r[l] || f in in1
      {
        assert f !in none;
        assert f in r[level + 1] <==> f in v[level + 1] && f !in in1;
      }
      ContentsUnion(v'[l], r[l], outs);
      ContentsUnion(v[l], r[l], in1);
    } else if l == level {
      ContentsUnion(v'[l], r[l], []);
      ContentsUnion(v[l], r[l], in0);
    }
  }

  lemma {:induction false} LayersUnion(s: State, r: State, k: nat, X: set<Entry>, Y: set<Entry>)
    requires |s.files| == |r.files| == NUM_LEVELS && k + 1 < NUM_LAYERS
    requires forall i :: 0 <= i < NUM_LAYERS ==> Layer(s, i) == Layer(r, i) + if i == k then X else if i == k + 1 then Y else {}
    ensures AllEntries(s) == X + Y + AllEntries(r)
  {
    hide Layer;
    forall e ensures e in AllEntries(s) <==> e in X + Y + AllEntries(r) {
      if e in AllEntries(s) {
        var i :| 0 <= i < NUM_LAYERS && e in Layer(s, i);
        assert e in Layer(r, i) || e in X + Y;
      }
      if e in AllEntries(r) {
        var i :| 0 <= i < NUM_LAYERS && e in Layer(r, i);
        assert e in Layer(s, i);
      }
      assert e in X ==> e in Layer(s, k);
      assert e in Y ==> e in Layer(s, k + 1);
    }
  }

  lemma {:induction false} InstalledLayer(s: State, v': seq<seq<File>>, r: seq<seq<File>>, level: nat,
                                          in0: seq<File>, in1: seq<File>, outs: seq<File>, i: nat)
    requires |s.files| == NUM_LEVELS && level + 1 < NUM_LEVELS && i < NUM_LAYERS
    requires Replaces(s.files, v', level, in0, in1, outs) && Replaces(s.files, r, level, in0, in1, [])
    requires (forall f :: f in in0 ==> f in s.files[level]) && (forall f :: f in in1 ==> f in s.files[level + 1])
    ensures Layer(s.(files := v'), i) == Layer(s.(files := r), i)
                                         + if i == level + 2 then {} else if i == level + 3 then Contents(outs) else {}
    ensures Layer(s, i) == Layer(s.(files := r), i)
                           + if i == level + 2 then Contents(in0) else if i == level + 3 then Contents(in1) else {}
  {
    if i >= 2 {
      InstalledContents(s.files, v', r, level, in0, in1, outs, i - 2);
    }
    hide Replaces;
    hide Contents;
  }

  lemma {:induction false} InstalledEntries(s: State, level: nat, in0: seq<File>, in1: seq<File>, outs: seq<File>)
    requires StoreOk(s) && InputsOk(s.files, level, in0, in1)
    ensures AllEntries(s.(files := Installed(s.files, level, in0, in1, outs)))
         == Contents(outs) + AllEntries(Rest(s, level, in0, in1))
    ensures AllEntries(s) == Contents(in0) + Contents(in1) + AllEntries(Rest(s, level, in0, in1))
  {
    hide StoreOk;
    hide AllEntries;
    hide Installed;
    var s', r := s.(files := Installed(s.files, level, in0, in1, outs)), Rest(s, level, in0, in1);
    InstalledReplaces(s, level, in0, in1, outs);
    InstalledReplaces(s, level, in0, in1, []);
    assert (forall f :: f in in0 ==> f in s.files[level]) && (forall f :: f in in1 ==> f in s.files[level + 1]);
    UnionsAfter(s, s'.files, r.files, level, in0, in1, outs);
  }

  lemma {:induction false} UnionsAfter(s: State, v': seq<seq<File>>, v: seq<seq<File>>, level: nat,
                                       in0: seq<File>, in1: seq<File>, outs: seq<File>)
    requires |s.files| == |v| == |v'| == NUM_LEVELS && level + 1 < NUM_LEVELS
    requires Replaces(s.files, v', level, in0, in1, outs) && Replaces(s.files, v, level, in0, in1, [])
    requires (forall f :: f in in0 ==> f in s.files[level]) && (forall f :: f in in1 ==> f in s.files[level + 1])
    ensures AllEntries(s.(files := v')) == Contents(outs) + AllEntries(s.(files := v))
    ensures AllEntries(s) == Contents(in0) + Contents(in1) + AllEntries(s.(files := v))
  {
    hide Layer;
    hide Contents;
    hide Replaces;
    hide AllEntries;
    var s', r := s.(files := v'), s.(files := v);
    forall i | 0 <= i < NUM_LAYERS
      ensures Layer(s', i) == Layer(r, i) + if i == level + 2 then {} else if i == level + 3 then Contents(outs) else {}
      ensures Layer(s, i) == Layer(r, i)
                             + if i == level + 2 then Contents(in0) else if i == level + 3 then Contents(in1) else {}
    {
      InstalledLayer(s, s'.files, r.files, level, in0, in1, outs, i);
    }
    LayersUnion(s', r, level + 2, {}, Contents(outs));
    LayersUnion(s, r, level + 2, Contents(in0), Contents(in1));
  }

  /** A file left on the next level shares no user key with the inputs. */
  lemma {:induction false} NextSharesNone(s: State, level: nat, in0: seq<File>, in1: seq<File>, e: Entry, g: File, f: Entry)
    requires StoreOk(s) && InputsOk(s.files, level, in0, in1) && e in Contents(in0) + Contents(in1)
    requires g in s.files[level + 1] && g !in in1 && f in g.entries
    ensures f.key.ukey != e.key.ukey
  {
    OutsideInputs(s, level, in0, in1, g);
    assert LevelFilesOk(s.files[level + 1], s.nextFile);
    EntryInFile(g, f);
    assert Beside(g, RangeOf(in0).0.ukey, e);
    hide StoreOk;
    hide InputsOk;
    hide RangeOf;
    LtOrder();
    hide Lt;
  }

  lemma {:induction false} LayerNewer(s: State, i: nat, j: nat, e: Entry, f: Entry)
    requires StoreOk(s) && i < j < NUM_LAYERS && e in Layer(s, i) && f in Layer(s, j) && e.key.ukey == f.key.ukey
    ensures e.key.seqno > f.key.seqno
  {
    hide FilesOk;
    hide Layer;
    assert Newer(Layer(s, i), Layer(s, j));
  }

  /** Where an entry that a compaction leaves alone is found. */
  lemma {:induction false} RestPlace(s: State, level: nat, in0: seq<File>, in1: seq<File>, f: Entry) returns (j: nat, g: File)
    requires StoreOk(s) && InputsOk(s.files, level, in0, in1)
    requires f in AllEntries(Rest(s, level, in0, in1))
    ensures j < NUM_LAYERS && f in Layer(s, j)
    ensures j == level + 2 ==> f in Contents(Rest(s, level, in0, in1).files[level])
    ensures j == level + 3 ==> g in s.files[level + 1] && g !in in1 && f in g.entries
  {
    hide StoreOk;
    hide InputsOk;
    hide Installed;
    var r := Rest(s, level, in0, in1);
    InstalledReplaces(s, level, in0, in1, []);
    assert Contents([]) == {};
    InstallMoves(s, r.files, level, in0, in1, []);
    j :| 0 <= j < NUM_LAYERS && f in Layer(r, j);
    if j == level + 3 {
      assert f in Contents(r.files[level + 1]);
      g :| g in r.files[level + 1] && f in g.entries;
      assert g !in [];
      assert f in Contents(s.files[level + 1]);
    } else {
      g := File(0, 0, f.key, f.key, []);
    }
  }

  /** Below a tombstone that may be dropped there is no older version elsewhere in the store. */
  lemma {:induction false} NothingOlder(s: State, level: nat, in0: seq<File>, in1: seq<File>, e: Entry, f: Entry)
    requires StoreOk(s) && InputsOk(s.files, level, in0, in1)
    requires e in Contents(in0) + Contents(in1) && BaseLevelFor(s.files, level, e.key.ukey)
    requires f in AllEntries(Rest(s, level, in0, in1)) && f.key.ukey == e.key.ukey
    ensures f.key.seqno >= e.key.seqno
  {
    hide StoreOk;
    hide InputsOk;
    hide FilesOk;
    hide AllEntries;
    hide BaseLevelFor;
    hide Installed;
    hide Contents;
    InputSeqs(s, level, in0, in1);
    var j, g := RestPlace(s, level, in0, in1, f);
    var i := if e in Contents(in0) then level + 2 else level + 3;
    assert e in Layer(s, i);
    if j < i {
      LayerNewer(s, j, i, f, e);
    } else if j == level + 2 {
      InstalledReplaces(s, level, in0, in1, []);
      StayedApart(s, Rest(s, level, in0, in1).files, level, in0, in1, [], f, e);
    } else if j == level + 3 {
      NextSharesNone(s, level, in0, in1, e, g, f);
    } else {
      DeepHasNone(s, level, e.key.ukey, j - 2);
    }
  }

  lemma {:induction false} DeepHasNone(s: State, level: nat, k: Bytes, l: nat)
    requires FilesOk(s.files, s.nextFile) && BaseLevelFor(s.files, level, k) && level + 2 <= l < NUM_LEVELS
    ensures forall f :: f in Contents(s.files[l]) ==> f.key.ukey != k
  {
    assert LevelFilesOk(s.files[l], s.nextFile);
    forall f | f in Contents(s.files[l]) ensures f.key.ukey != k {
      var g :| g in s.files[l] && f in g.entries;
      var i :| 0 <= i < |s.files[l]| && s.files[l][i] == g;
      OutsideFile(g, k);
    }
  }

  lemma {:induction false} InputFacts(s: State, level: nat, in0: seq<File>, in1: seq<File>)
    requires StoreOk(s) && InputsOk(s.files, level, in0, in1)
    ensures var input := MergeAll(SourcesFor(level, in0, in1));
            && Sorted(input)
            && EntrySet(input) == Contents(in0) + Contents(in1)
            && (forall i :: 0 <= i < |input| ==> input[i].key.seqno > 0)
            && Distinct(EntrySet(input) + AllEntries(Rest(s, level, in0, in1)))
  {
    hide StoreOk;
    hide InputsOk;
    hide MergeAll;
    hide SourcesFor;
    hide AllEntries;
    hide Layer;
    hide Rest;
    InputSet(s, level, in0, in1);
    InputSeqs(s, level, in0, in1);
    InstalledEntries(s, level, in0, in1, []);
    StoreDistinct(s);
    var input := MergeAll(SourcesFor(level, in0, in1));
    assert forall i :: 0 <= i < |input| ==> input[i] in input;
  }

  /** A compaction without live snapshots changes no read of the present or of any later state. */
  lemma {:induction false} CompactKeepsReads(s: State, level: nat, in0: seq<File>, in1: seq<File>, outs: seq<File>, u: Bytes, sn: nat)
    requires StoreOk(s) && InputsOk(s.files, level, in0, in1) && IsOutput(s, level, in0, in1, outs) && s.lastSeq <= sn
    ensures ReadAt(AllEntries(s.(files := Installed(s.files, level, in0, in1, outs))), u, sn) == ReadAt(AllEntries(s), u, sn)
  {
    hide StoreOk;
    hide InputsOk;
    hide MergeAll;
    hide SourcesFor;
    hide AllEntries;
    hide BaseLevelFor;
    hide Installed;
    hide Kept;
    hide ReadAt;
    hide Contents;
    var input := MergeAll(SourcesFor(level, in0, in1));
    var R := AllEntries(Rest(s, level, in0, in1));
    InputFacts(s, level, in0, in1);
    InstalledEntries(s, level, in0, in1, outs);
    FlattenSet(outs);
    forall e, f | e in input && f in R && f.key.ukey == e.key.ukey && BaseLevelFor(s.files, level, e.key.ukey)
      ensures f.key.seqno >= e.key.seqno
    {
      assert e in EntrySet(input);
      NothingOlder(s, level, in0, in1, e, f);
    }
    KeptPreservesReads(input, s.files, level, s.lastSeq, R, u, sn);
  }

  // ----- a trivial move -----

  lemma {:induction false} MoveFits(s: State, level: nat, f: File)
    requires StoreOk(s) && InputsOk(s.files, level, [f], [])
    ensures OutputsFit(s, level, [f], [], [f], s.nextFile)
    ensures AllEntries(s.(files := Installed(s.files, level, [f], [], [f]))) == AllEntries(s)
  {
    hide LayersOk;
    hide FileOk;
    hide Installed;
    var v := s.files;
    InstalledEntries(s, level, [f], [], [f]);
    assert Contents([]) == {};
    assert f in [f];
    assert LevelFilesOk(v[level], s.nextFile);
    forall l | 0 <= l < NUM_LEVELS && l != level ensures NoSharedNum([f], v[l]) {
      assert if l < level then NoSharedNum(v[l], v[level]) else NoSharedNum(v[level], v[l]);
    }
    forall g: File | g in v[level] && g.num == f.num ensures g == f {
      if g != f { NumsPick(v[level], g, f); }
    }
  }

  // ----- the edit that installs a compaction -----

  function InstallEdit(level: nat, in0: seq<File>, in1: seq<File>, outs: seq<File>): FileEdit {
    FileEdit((set f | f in in0 :: (level, f.num)) + (set f | f in in1 :: (level + 1, f.num)),
             seq(|outs|, i requires 0 <= i < |outs| => (level + 1, outs[i])))
  }

  lemma {:induction false} DisjointSorts(fs: seq<File>)
    requires Disjoint(fs) && forall f :: f in fs ==> FileOk(f)
    ensures SortedBySmallest(fs) && Ordered(fs)
  {
    forall i, j | 0 <= i < j < |fs| ensures !KeyLess(fs[j].smallest, fs[i].smallest) {
      assert fs[i] in fs;
      EntryInFile(fs[i], fs[i].entries[0]);
      LtOrder();
      hide Lt;
    }
  }

  lemma {:induction false} LevelsSorted(s: State, l: nat)
    requires FilesOk(s.files, s.nextFile) && l < NUM_LEVELS
    ensures SortedBySmallest(s.files[l]) && (l > 0 ==> Ordered(s.files[l]))
  {
    if l > 0 {
      assert LevelFilesOk(s.files[l], s.nextFile);
      DisjointSorts(s.files[l]);
    }
  }

  /** What the builder makes of one level under an install edit. */
  lemma {:induction false} SaveInstalls(fs: seq<File>, dead: set<nat>, outs: seq<File>)
    requires SortedBySmallest(fs) && forall o :: o in outs ==> o.num !in dead
    ensures Keep(SortFiles(fs + outs), dead) == SortFiles(Keep(fs, dead) + outs)
    ensures Keep(SortFiles(fs + []), dead) == Keep(fs, dead)
    ensures Keep(SortFiles(fs + []), {}) == fs
  {
    KeepSort(fs + outs, dead);
    KeepConcat(fs, outs, dead);
    KeepNone(outs, dead);
    SortOfSorted(fs);
    KeepNone(fs, {});
    assert fs + [] == fs;
  }

  lemma {:induction false} LiveInstalls(fs: seq<File>, level: nat, in0: seq<File>, in1: seq<File>, outs: seq<File>, l: nat)
    requires SortedBySmallest(fs) && forall o :: o in outs ==> o.num !in Nums(in1)
    ensures LiveStep(fs, InstallEdit(level, in0, in1, outs), l)
         == if l == level then Keep(fs, Nums(in0))
            else if l == level + 1 then SortFiles(Keep(fs, Nums(in1)) + outs)
            else fs
  {
    var edit := InstallEdit(level, in0, in1, outs);
    AddedAtUniform(edit.newFiles, outs, level + 1, l);
    EditNums(level, in0, in1, outs, l);
    hide AddedAt;
    hide NumsAt;
    var news: seq<File> := if l == level + 1 then outs else [];
    var dead := if l == level then Nums(in0) else if l == level + 1 then Nums(in1) else {};
    assert dead - Nums(news) == dead;
    assert ApplyLevel(EmptyLevel, edit, l) == LevelState(dead, news) by {
      assert [] + news == news && {} + dead == dead;
    }
    hide ApplyLevel;
    SaveInstalls(fs, dead, news);
    hide SortFiles;
    hide Keep;
  }

  lemma {:induction false} OutputNumsApart(s: State, level: nat, in0: seq<File>, in1: seq<File>, outs: seq<File>, nextFile: nat)
    requires |s.files| == NUM_LEVELS && InputsOk(s.files, level, in0, in1) && OutputsFit(s, level, in0, in1, outs, nextFile)
    ensures forall o :: o in outs ==> o.num !in Nums(in1)
  {
    assert NoSharedNum(outs, s.files[level + 1]);
    assert forall f :: f in in1 ==> f in s.files[level + 1];
  }

  lemma {:induction false} EditInstalls(s: State, level: nat, in0: seq<File>, in1: seq<File>, outs: seq<File>, nextFile: nat, l: nat)
    requires StoreOk(s) && InputsOk(s.files, level, in0, in1) && OutputsFit(s, level, in0, in1, outs, nextFile)
    requires l < NUM_LEVELS
    ensures LiveStep(s.files[l], InstallEdit(level, in0, in1, outs), l) == Installed(s.files, level, in0, in1, outs)[l]
  {
    hide InputsOk;
    hide OutputsFit;
    hide LiveStep;
    hide Keep;
    hide SortFiles;
    hide FilesOk;
    hide LayersOk;
    hide InstallEdit;
    LevelsSorted(s, l);
    OutputNumsApart(s, level, in0, in1, outs, nextFile);
    LiveInstalls(s.files[l], level, in0, in1, outs, l);
  }

  lemma {:induction false} EditNums(level: nat, in0: seq<File>, in1: seq<File>, outs: seq<File>, l: nat)
    ensures NumsAt(InstallEdit(level, in0, in1, outs).deleted, l)
         == if l == level then Nums(in0) else if l == level + 1 then Nums(in1) else {}
  {
    var D := InstallEdit(level, in0, in1, outs).deleted;
    forall f | f in in0 ensures f.num in NumsAt(D, level) { assert (level, f.num) in D; }
    forall f | f in in1 ensures f.num in NumsAt(D, level + 1) { assert (level + 1, f.num) in D; }
  }
}
