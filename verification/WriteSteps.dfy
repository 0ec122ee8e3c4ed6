/** What a write, a memtable switch and a flush do to the store (src/db_impl.rs). */
module WriteSteps {
  import opened Bytes
  import opened Entries
  import opened Version
  import opened VersionBuilder
  import opened Store
  import opened StoreSteps

  // ----- one write -----

  /** The memtable with e at its place in key order. */
  function InsertEntry(mem: seq<Entry>, e: Entry): seq<Entry> {
    if mem == [] then [e]
    else if KeyLess(e.key, mem[0].key) then [e] + mem
    else [mem[0]] + InsertEntry(mem[1..], e)
  }

  lemma {:induction false} SortedFront(e: Entry, es: seq<Entry>)
    requires Sorted(es) && (es == [] || KeyLess(e.key, es[0].key))
    ensures Sorted([e] + es)
  {
    KeyOrder();
    hide KeyLess;
    forall i | 0 <= i < |es| ensures KeyLess(e.key, es[i].key) {
      assert i > 0 ==> KeyLess(es[0].key, es[i].key);
    }
  }

  lemma {:induction false} InsertEntrySorted(mem: seq<Entry>, e: Entry)
    requires Sorted(mem) && forall m :: m in mem && m.key.ukey == e.key.ukey ==> m.key.seqno != e.key.seqno
    ensures Sorted(InsertEntry(mem, e))
    ensures EntrySet(InsertEntry(mem, e)) == EntrySet(mem) + {e}
  {
    hide KeyLess;
    if mem != [] {
      KeyOrder();
      var h, r := mem[0], mem[1..];
      assert mem == [h] + r && h in mem;
      if KeyLess(e.key, h.key) {
        SortedFront(e, mem);
        assert EntrySet([e] + mem) == {e} + EntrySet(mem);
      } else {
        InsertEntrySorted(r, e);
        var t := InsertEntry(r, e);
        assert KeyLess(h.key, e.key);
        forall x | x in t ensures KeyLess(h.key, x.key) {
          assert x in EntrySet(t);
        }
        SortedFront(h, t);
        assert EntrySet([h] + t) == {h} + EntrySet(t) && EntrySet(mem) == {h} + EntrySet(r);
      }
    }
  }

  /** The store after one entry with the next sequence number. */
  function WriteOne(s: State, u: Bytes, value: Option<Bytes>): State {
    var e := match value
             case Some(v) => Entry(InternalKey(u, s.lastSeq + 1, TypeValue), v)
             case None => Entry(InternalKey(u, s.lastSeq + 1, TypeDeletion), []);
    s.(mem := InsertEntry(s.mem, e), lastSeq := s.lastSeq + 1)
  }

  /** A write keeps the invariant; the written key reads as written and every other key as before. */
  lemma {:induction false} WriteOneOk(s: State, u: Bytes, value: Option<Bytes>, k: Bytes)
    requires StoreOk(s) && s.lastSeq + 1 < MAX_SEQUENCE_NUMBER
    ensures StoreOk(WriteOne(s, u, value))
    ensures ReadAt(AllEntries(WriteOne(s, u, value)), k, s.lastSeq + 1)
         == if k == u then value else ReadAt(AllEntries(s), k, s.lastSeq)
  {
    hide StoreOk;
    hide AllEntries;
    hide InsertEntry;
    hide ReadAt;
    hide Distinct;
    var e := match value
             case Some(v) => Entry(InternalKey(u, s.lastSeq + 1, TypeValue), v)
             case None => Entry(InternalKey(u, s.lastSeq + 1, TypeDeletion), []);
    LevelsCounted(s);
    WriteEntryOk(s, e);
    StoreDistinct(s);
    StoreDistinct(WriteOne(s, u, value));
    if k == u {
      NewestWritten(AllEntries(s), e, s.lastSeq);
    } else {
      OtherKeys(AllEntries(s), e, k, s.lastSeq);
    }
  }

  lemma {:induction false} LevelsCounted(s: State)
    requires StoreOk(s)
    ensures |s.files| == NUM_LEVELS
  {
  }

  lemma {:induction false} NewestWritten(A: set<Entry>, e: Entry, sn: nat)
    requires Distinct(A + {e}) && e.key.seqno == sn + 1 && forall x :: x in A ==> x.key.seqno <= sn
    ensures ReadAt(A + {e}, e.key.ukey, sn + 1) == Meaning(e)
  {
    hide Distinct;
    hide ReadAt;
    assert IsNewest(A + {e}, e.key.ukey, sn + 1, e);
    ReadIs(A + {e}, e.key.ukey, sn + 1, e);
  }

  lemma {:induction false} OtherKeys(A: set<Entry>, e: Entry, k: Bytes, sn: nat)
    requires Distinct(A) && Distinct(A + {e}) && k != e.key.ukey && forall x :: x in A ==> x.key.seqno <= sn
    ensures ReadAt(A + {e}, k, sn + 1) == ReadAt(A, k, sn)
  {
    var B := A + {e};
    assert forall x :: Visible(B, k, sn + 1, x) <==> Visible(A, k, sn, x);
    if n :| IsNewest(A, k, sn, n) {
      ReadIs(A, k, sn, n);
      assert IsNewest(B, k, sn + 1, n);
      ReadIs(B, k, sn + 1, n);
    } else {
      var t := sn + 1;
      forall x ensures !IsNewest(B, k, t, x) {
        assert !IsNewest(A, k, sn, x);
      }
    }
  }

  lemma {:induction false} WriteEntryOk(s: State, e: Entry)
    requires StoreOk(s) && e.key.seqno == s.lastSeq + 1 < MAX_SEQUENCE_NUMBER
    ensures StoreOk(s.(mem := InsertEntry(s.mem, e), lastSeq := s.lastSeq + 1))
    ensures AllEntries(s.(mem := InsertEntry(s.mem, e), lastSeq := s.lastSeq + 1)) == AllEntries(s) + {e}
    ensures forall x :: x in AllEntries(s) ==> x.key.seqno <= s.lastSeq
  {
    var s' := s.(mem := InsertEntry(s.mem, e), lastSeq := s.lastSeq + 1);
    forall m | m in s.mem ensures m.key.seqno != e.key.seqno {
      assert m in Layer(s, 0);
    }
    InsertEntrySorted(s.mem, e);
    forall i | 0 <= i < NUM_LAYERS ensures Layer(s', i) == Layer(s, i) + if i == 0 then {e} else if i == 1 then {} else {} {
    }
    LayersUnion(s', s, 0, {e}, {});
    hide Layer;
    hide FilesOk;
    hide NewerByNumber;
    hide InsertEntry;
    forall i, j | 0 <= i < j < NUM_LAYERS ensures Newer(Layer(s', i), Layer(s', j)) {
      assert Newer(Layer(s, i), Layer(s, j));
    }
  }

  // ----- switching memtables -----

  lemma {:induction false} RotateOk(s: State)
    requires StoreOk(s) && s.imm == []
    ensures StoreOk(s.(mem := [], imm := s.mem))
    ensures AllEntries(s.(mem := [], imm := s.mem)) == AllEntries(s)
  {
    var s' := s.(mem := [], imm := s.mem);
    assert Layer(s', 0) == {} && Layer(s', 1) == Layer(s, 0) && Layer(s, 1) == {};
    assert forall i :: 2 <= i < NUM_LAYERS ==> Layer(s', i) == Layer(s, i);
    assert AllEntries(s') == AllEntries(s) by {
      hide Layer;
      forall e ensures e in AllEntries(s') <==> e in AllEntries(s) {
        if e in AllEntries(s') {
          var i :| 0 <= i < NUM_LAYERS && e in Layer(s', i);
          assert e in Layer(s, if i == 1 then 0 else i);
        }
        if e in AllEntries(s) {
          var i :| 0 <= i < NUM_LAYERS && e in Layer(s, i);
          assert e in Layer(s', if i == 0 then 1 else i);
        }
      }
    }
    hide Layer;
    hide FilesOk;
    hide NewerByNumber;
    forall i, j | 0 <= i < j < NUM_LAYERS ensures Newer(Layer(s', i), Layer(s', j)) {
      assert i == 1 ==> Newer(Layer(s, 0), Layer(s, j));
      assert i >= 2 ==> Newer(Layer(s, i), Layer(s, j));
    }
  }

  // ----- flushing the immutable memtable -----

  ghost predicate FlushFile(s: State, f: File) {
    && s.imm != [] && f.num == s.nextFile && f.entries == s.imm
    && f.smallest == s.imm[0].key && f.largest == s.imm[|s.imm| - 1].key
  }

  function Flushed(s: State, level: nat, f: File): State
    requires |s.files| == NUM_LEVELS && level < NUM_LEVELS
  {
    s.(imm := [], files := s.files[level := SortFiles(s.files[level] + [f])], nextFile := s.nextFile + 1)
  }

  ghost predicate NoSharedKey(A: set<Entry>, B: set<Entry>) {
    forall e, f :: e in A && f in B ==> e.key.ukey != f.key.ukey
  }

  /** A table on this level lies below no version of its keys and leaves the level disjoint. */
  ghost predicate KeepsOrder(v: seq<seq<File>>, level: nat, f: File)
    requires |v| == NUM_LEVELS && level < NUM_LEVELS
  {
    level == 0 || ((forall l :: 0 <= l < level ==> NoSharedKey(Contents(v[l]), EntrySet(f.entries)))
                   && Disjoint(SortFiles(v[level] + [f])))
  }

  /** Where a flush is safe, no file on the chosen level or above shares a user key with the table. */
  lemma {:induction false} FlushApart(s: State, level: nat, f: File, l: nat, g: File)
    requires |s.files| == NUM_LEVELS && FlushFile(s, f) && SafeFlush(s.files, level, f.smallest.ukey, f.largest.ukey)
    requires 0 < level && l <= level && g in s.files[l]
    ensures Apart(g, f)
  {
    assert !InRange(g, f.smallest.ukey, f.largest.ukey);
  }

  /** Below level 0, the flushed file lies apart from the level's files. */
  lemma {:induction false} FlushDisjoint(s: State, level: nat, f: File, fs: seq<File>)
    requires StoreOk(s) && FlushFile(s, f) && SafeFlush(s.files, level, f.smallest.ukey, f.largest.ukey) && 0 < level
    requires SortedBySmallest(fs) && LevelFilesOk(fs, s.nextFile + 1)
    requires forall g :: g in fs ==> g in s.files[level] || g == f
    ensures Disjoint(fs)
  {
    hide Apart;
    hide FlushFile;
    hide FilesOk;
    hide LayersOk;
    LevelDisjoint(s, level);
    forall g, h | g in fs && h in fs && g.num != h.num ensures Apart(g, h) {
      if g in s.files[level] && h in s.files[level] {
        DisjointApart(s.files[level], g, h);
      } else if g in s.files[level] {
        FlushApart(s, level, f, level, g);
      } else {
        FlushApart(s, level, f, level, h);
        ApartBoth(h, g);
      }
    }
    DisjointFromApart(fs);
  }

  lemma {:induction false} LevelDisjoint(s: State, level: nat)
    requires StoreOk(s) && 0 < level < NUM_LEVELS
    ensures Disjoint(s.files[level])
  {
  }

  lemma {:induction false} ApartBoth(f: File, g: File)
    requires Apart(f, g)
    ensures Apart(g, f)
  {
  }

  /** On level 0, the flushed file has the highest number and the newest versions. */
  lemma {:induction false} FlushNewest(s: State, f: File, fs: seq<File>)
    requires StoreOk(s) && FlushFile(s, f) && forall g :: g in fs ==> g in s.files[0] || g == f
    ensures NewerByNumber(fs)
  {
    hide FileOk;
    hide Disjoint;
    assert LevelFilesOk(s.files[0], s.nextFile);
    assert Newer(Layer(s, 1), Layer(s, 2));
    forall g: File | g in s.files[0] ensures Newer(EntrySet(f.entries), EntrySet(g.entries)) {
      OutputWithin(s.files[0], Contents(s.files[0]), g);
    }
  }

  /** The flushed file fits among the files of any level. */
  lemma {:induction false} FlushedLevelOk(s: State, level: nat, f: File)
    requires StoreOk(s) && FlushFile(s, f) && level < NUM_LEVELS
    ensures var fs := SortFiles(s.files[level] + [f]);
            && SortedBySmallest(fs) && LevelFilesOk(fs, s.nextFile + 1)
            && forall g :: g in fs <==> g in s.files[level] || g == f
  {
    assert FileOk(f);
    hide Disjoint;
    hide LayersOk;
    hide SortFiles;
    hide SortedBySmallest;
    assert LevelFilesOk(s.files[level], s.nextFile);
    SortMembers(s.files[level] + [f]);
    SortSorts(s.files[level] + [f]);
  }

  lemma {:induction false} FlushFilesOk(s: State, level: nat, f: File)
    requires StoreOk(s) && FlushFile(s, f) && level < NUM_LEVELS && KeepsOrder(s.files, level, f)
    ensures FilesOk(Flushed(s, level, f).files, s.nextFile + 1)
    ensures NewerByNumber(Flushed(s, level, f).files[0])
    ensures forall g :: g in Flushed(s, level, f).files[level] <==> g in s.files[level] || g == f
  {
    hide FilesOk;
    hide LayersOk;
    hide NewerByNumber;
    hide LevelFilesOk;
    hide SortFiles;
    hide SortedBySmallest;
    hide Disjoint;
    FlushedLevelOk(s, level, f);
    var fs := SortFiles(s.files[level] + [f]);
    if level == 0 {
      FlushNewest(s, f, fs);
    }
    FlushNums(s, level, f, fs);
  }

  lemma {:induction false} FlushNums(s: State, level: nat, f: File, fs: seq<File>)
    requires FilesOk(s.files, s.nextFile) && level < NUM_LEVELS && f.num == s.nextFile
    requires LevelFilesOk(fs, s.nextFile + 1) && (forall g :: g in fs ==> g in s.files[level] || g == f)
    requires if level > 0 then Disjoint(fs) else SortedBySmallest(fs)
    ensures FilesOk(s.files[level := fs], s.nextFile + 1)
  {
    var v, v' := s.files, s.files[level := fs];
    forall l | 0 <= l < NUM_LEVELS ensures LevelFilesOk(v'[l], s.nextFile + 1) {
      assert LevelFilesOk(v[l], s.nextFile);
    }
    forall l, m | 0 <= l < m < NUM_LEVELS ensures NoSharedNum(v'[l], v'[m]) {
      assert NoSharedNum(v[l], v[m]) && LevelFilesOk(v[l], s.nextFile) && LevelFilesOk(v[m], s.nextFile);
    }
  }

  /** s' is s with the immutable memtable's entries on a level instead. */
  ghost predicate FlushedLayers(s: State, s': State, level: nat) {
    && |s.files| == |s'.files| == NUM_LEVELS && level < NUM_LEVELS
    && Layer(s', 0) == Layer(s, 0)
    && Layer(s', 1) == {}
    && Layer(s', level + 2) == Layer(s, level + 2) + Layer(s, 1)
    && forall i :: 2 <= i < NUM_LAYERS && i != level + 2 ==> Layer(s', i) == Layer(s, i)
  }

  lemma {:induction false} FlushMovesLayers(s: State, level: nat, f: File)
    requires |s.files| == NUM_LEVELS && level < NUM_LEVELS && FlushFile(s, f)
    ensures FlushedLayers(s, Flushed(s, level, f), level)
  {
    var s' := Flushed(s, level, f);
    SortMembers(s.files[level] + [f]);
    assert forall g :: g in s'.files[level] <==> g in s.files[level] || g in [f];
    ContentsUnion(s'.files[level], s.files[level], [f]);
    assert Contents([f]) == EntrySet(s.imm) by {
      assert f in [f];
    }
    hide SortFiles;
    hide Contents;
    assert forall l :: 0 <= l < NUM_LEVELS && l != level ==> s'.files[l] == s.files[l];
  }

  /** A flush keeps the invariant if and only if the table keeps the order of the layers. */
  lemma {:induction false} FlushOk(s: State, level: nat, f: File)
    requires StoreOk(s) && FlushFile(s, f) && level < NUM_LEVELS
    ensures StoreOk(Flushed(s, level, f)) <==> KeepsOrder(s.files, level, f)
  {
    if KeepsOrder(s.files, level, f) {
      FlushFilesOk(s, level, f);
      FlushKeepsLayers(s, level, f);
      hide LayersOk;
      hide FilesOk;
      hide NewerByNumber;
      hide Sorted;
    } else if StoreOk(Flushed(s, level, f)) {
      FlushedKeepsOrder(s, level, f);
    }
  }

  lemma {:induction false} FlushedKeepsOrder(s: State, level: nat, f: File)
    requires StoreOk(s) && FlushFile(s, f) && level < NUM_LEVELS && StoreOk(Flushed(s, level, f))
    ensures KeepsOrder(s.files, level, f)
  {
    hide NewerByNumber;
    hide SortFiles;
    hide LayersOk;
    hide NoSharedKey;
    var s' := Flushed(s, level, f);
    FlushMovesLayers(s, level, f);
    hide FlushedLayers;
    forall l | 0 <= l < level ensures NoSharedKey(Contents(s.files[l]), EntrySet(f.entries)) {
      NoneAbove(s, s', level, l + 2);
    }
  }

  /** A version of one of the table's keys above it would be older. */
  lemma {:induction false} NoneAbove(s: State, s': State, level: nat, i: nat)
    requires FlushedLayers(s, s', level) && LayersOk(s) && LayersOk(s') && 2 <= i < level + 2
    ensures NoSharedKey(Layer(s, i), Layer(s, 1))
  {
    hide Layer;
    assert Newer(Layer(s, 1), Layer(s, i)) && Newer(Layer(s', i), Layer(s', level + 2));
    assert Layer(s', i) == Layer(s, i);
  }

  lemma {:induction false} FlushKeepsLayers(s: State, level: nat, f: File)
    requires StoreOk(s) && FlushFile(s, f) && level < NUM_LEVELS && KeepsOrder(s.files, level, f)
    ensures LayersOk(Flushed(s, level, f))
  {
    FlushMovesLayers(s, level, f);
    hide Disjoint;
    hide SortFiles;
    forall i | 2 <= i < level + 2 ensures NoSharedKey(Layer(s, i), Layer(s, 1)) {
      assert NoSharedKey(Contents(s.files[i - 2]), EntrySet(f.entries));
    }
    hide NoSharedKey;
    FlushLayersOk(s, Flushed(s, level, f), level);
  }

  /** A flush to level 0, or where no file on the level or above overlaps, keeps the order. */
  lemma {:induction false} SafeKeepsOrder(s: State, level: nat, f: File)
    requires StoreOk(s) && FlushFile(s, f) && SafeFlush(s.files, level, f.smallest.ukey, f.largest.ukey)
    ensures KeepsOrder(s.files, level, f)
  {
    hide Disjoint;
    hide SortFiles;
    hide LayersOk;
    hide SafeFlush;
    SafeLevel(s.files, level, f);
    FlushedLevelOk(s, level, f);
    if level > 0 {
      FlushDisjoint(s, level, f, SortFiles(s.files[level] + [f]));
      forall l | 0 <= l < level ensures NoSharedKey(Contents(s.files[l]), EntrySet(f.entries)) {
        FlushSharesNone(s, level, f, l + 2);
      }
    }
  }

  lemma {:induction false} SafeLevel(v: seq<seq<File>>, level: nat, f: File)
    requires |v| == NUM_LEVELS && SafeFlush(v, level, f.smallest.ukey, f.largest.ukey)
    ensures level < NUM_LEVELS
  {
  }

  /** A flush keeps the entries of the store. */
  lemma {:induction false} FlushKeepsEntries(s: State, level: nat, f: File)
    requires |s.files| == NUM_LEVELS && level < NUM_LEVELS && FlushFile(s, f)
    ensures AllEntries(Flushed(s, level, f)) == AllEntries(s)
  {
    FlushMovesLayers(s, level, f);
    FlushMoves(s, Flushed(s, level, f), level);
  }

  lemma {:induction false} FlushSharesNone(s: State, level: nat, f: File, i: nat)
    requires StoreOk(s) && FlushFile(s, f) && SafeFlush(s.files, level, f.smallest.ukey, f.largest.ukey)
    requires 2 <= i < level + 2
    ensures NoSharedKey(Layer(s, i), Layer(s, 1))
  {
    assert FileOk(f);
    assert LevelFilesOk(s.files[i - 2], s.nextFile);
    forall e, e' | e in Layer(s, i) && e' in Layer(s, 1) ensures e.key.ukey != e'.key.ukey {
      var g :| g in s.files[i - 2] && e in g.entries;
      FlushApart(s, level, f, i - 2, g);
      ApartFiles(g, f, e, e');
    }
  }

  lemma {:induction false} FlushMoves(s: State, s': State, level: nat)
    requires FlushedLayers(s, s', level)
    ensures AllEntries(s') == AllEntries(s)
  {
    hide Layer;
    forall e ensures e in AllEntries(s') <==> e in AllEntries(s) {
      if e in AllEntries(s') {
        var i :| 0 <= i < NUM_LAYERS && e in Layer(s', i);
        assert e in Layer(s, i) || e in Layer(s, 1);
      }
      if e in AllEntries(s) {
        var i :| 0 <= i < NUM_LAYERS && e in Layer(s, i);
        assert e in Layer(s', if i == 1 then level + 2 else i);
      }
    }
  }

  lemma {:induction false} FlushLayersOk(s: State, s': State, level: nat)
    requires FlushedLayers(s, s', level) && LayersOk(s) && s'.lastSeq == s.lastSeq
    requires forall i :: 2 <= i < level + 2 ==> NoSharedKey(Layer(s, i), Layer(s, 1))
    ensures LayersOk(s')
  {
    hide Layer;
    forall i, j | 0 <= i < j < NUM_LAYERS ensures Newer(Layer(s', i), Layer(s', j)) {
      FlushNewer(s, s', level, i, j);
    }
    hide Newer;
    forall i, e | 0 <= i < NUM_LAYERS && e in Layer(s', i) ensures 0 < e.key.seqno <= s.lastSeq {
      assert e in Layer(s, i) || e in Layer(s, 1);
    }
  }

  lemma {:induction false} FlushNewer(s: State, s': State, level: nat, i: nat, j: nat)
    requires FlushedLayers(s, s', level) && LayersOk(s) && i < j < NUM_LAYERS
    requires forall i :: 2 <= i < level + 2 ==> NoSharedKey(Layer(s, i), Layer(s, 1))
    ensures Newer(Layer(s', i), Layer(s', j))
  {
    var k, I := level + 2, Layer(s, 1);
    assert Newer(Layer(s, i), Layer(s, j));
    if i == k {
      assert Newer(I, Layer(s, j));
    } else if j == k {
      assert i == 0 ==> Newer(Layer(s, 0), I);
      assert 2 <= i ==> NoSharedKey(Layer(s, i), I);
    }
    hide Layer;
    hide LayersOk;
  }
}
