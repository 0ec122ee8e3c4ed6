/** The choice of compaction inputs (src/version_set.rs). */
module VersionSet {
  import opened Bytes
  import opened Entries
  import opened Version

  /** Every file's range is a range, and levels above 0 are in order without user-key overlap. */
  ghost predicate LevelsOk(v: seq<seq<File>>): (ok: bool)
    ensures ok ==> |v| == NUM_LEVELS
  {
    && |v| == NUM_LEVELS
    && (forall l, f :: 0 <= l < NUM_LEVELS && f in v[l] ==> !Lt(f.largest.ukey, f.smallest.ukey))
    && (forall l :: 1 <= l < NUM_LEVELS ==> Disjoint(v[l]))
    && NumsDistinct(v[0])
  }

  /** The range of a list of files: the first smallest and the first largest key. */
  function RangeOf(fs: seq<File>): (r: (InternalKey, InternalKey))
    requires fs != []
  {
    var f := fs[|fs| - 1];
    if |fs| == 1 then (f.smallest, f.largest)
    else
      var (s, l) := RangeOf(fs[..|fs| - 1]);
      (if KeyLess(f.smallest, s) then f.smallest else s, if KeyLess(l, f.largest) then f.largest else l)
  }

  lemma {:induction false} RangeBounds(fs: seq<File>)
    requires fs != []
    ensures forall f :: f in fs ==> !KeyLess(f.smallest, RangeOf(fs).0) && !KeyLess(RangeOf(fs).1, f.largest)
    ensures forall f :: f in fs ==> !Lt(f.smallest.ukey, RangeOf(fs).0.ukey) && !Lt(RangeOf(fs).1.ukey, f.largest.ukey)
    ensures exists f :: f in fs && f.smallest == RangeOf(fs).0
    ensures exists f :: f in fs && f.largest == RangeOf(fs).1
  {
    LtOrder();
    hide Lt;
    if |fs| > 1 {
      var init, f := fs[..|fs| - 1], fs[|fs| - 1];
      assert forall g :: g in fs <==> g in init || g == f;
      RangeBounds(init);
      var g :| g in init && g.smallest == RangeOf(init).0;
      var h :| h in init && h.largest == RangeOf(init).1;
      assert g in fs && h in fs && f in fs;
    } else {
      assert fs[0] in fs;
    }
  }

  method GetRange(fs: seq<File>) returns (smallest: InternalKey, largest: InternalKey)
    requires fs != []
    ensures (smallest, largest) == RangeOf(fs)
  {
    smallest, largest := fs[0].smallest, fs[0].largest;
    for i := 1 to |fs|
      invariant (smallest, largest) == RangeOf(fs[..i])
    {
      assert fs[..i + 1][..i] == fs[..i];
      if KeyLess(fs[i].smallest, smallest) {
        smallest := fs[i].smallest;
      }
      if KeyLess(largest, fs[i].largest) {
        largest := fs[i].largest;
      }
    }
    assert fs[..|fs|] == fs;
  }

  /** Files of one level that can be compacted without splitting a user key: no other file of the level touches them. */
  ghost predicate Separable(fs: seq<File>, level: nat, in0: seq<File>) {
    && in0 != []
    && (forall f :: f in in0 ==> f in fs)
    && (if level > 0 then Disjoint(in0) else NumsDistinct(in0))
    && (forall f, g :: f in fs && f !in in0 && g in in0 ==> Apart(f, g))
  }

  lemma {:induction false} SelectDisjoint(fs: seq<File>, lo: Bytes, hi: Bytes)
    requires Disjoint(fs)
    ensures Disjoint(Select(fs, lo, hi))
  {
    if fs != [] {
      SelectDisjoint(fs[..|fs| - 1], lo, hi);
      hide InRange;
      var r := Select(fs[..|fs| - 1], lo, hi);
      forall i | 0 <= i < |r| ensures Lt(r[i].largest.ukey, fs[|fs| - 1].smallest.ukey) {
        assert r[i] in fs[..|fs| - 1];
      }
    }
  }

  lemma {:induction false} SelectNumsDistinct(fs: seq<File>, lo: Bytes, hi: Bytes)
    requires NumsDistinct(fs)
    ensures NumsDistinct(Select(fs, lo, hi))
  {
    if fs != [] {
      SelectNumsDistinct(fs[..|fs| - 1], lo, hi);
      hide InRange;
      var r := Select(fs[..|fs| - 1], lo, hi);
      forall i | 0 <= i < |r| ensures r[i].num != fs[|fs| - 1].num {
        assert r[i] in fs[..|fs| - 1];
      }
    }
  }

  /** Above level 0 any non-empty selection in order is separable. */
  lemma {:induction false} DisjointSeparable(fs: seq<File>, level: nat, in0: seq<File>)
    requires level > 0 && Disjoint(fs) && Disjoint(in0) && in0 != [] && forall f :: f in in0 ==> f in fs
    ensures Separable(fs, level, in0)
  {
    forall f, g | f in fs && f !in in0 && g in in0 ensures Apart(f, g) {
      var i :| 0 <= i < |fs| && fs[i] == f;
      var j :| 0 <= j < |fs| && fs[j] == g;
      assert i < j || j < i;
    }
  }

  /** On level 0 a selection by a range that no file straddles is separable. */
  lemma {:induction false} ClosedSeparable(fs: seq<File>, lo: Bytes, hi: Bytes)
    requires NumsDistinct(fs) && ClosedRange(fs, lo, hi) && Select(fs, lo, hi) != []
    ensures Separable(fs, 0, Select(fs, lo, hi))
  {
    SelectNumsDistinct(fs, lo, hi);
    LtOrder();
    hide Lt;
    var r := Select(fs, lo, hi);
    forall f, g | f in fs && f !in r && g in r ensures Apart(f, g) {
      assert !InRange(f, lo, hi) && Within(g, lo, hi);
    }
  }

  lemma {:induction false} SelectSeparable(v: seq<seq<File>>, level: nat, lo: Bytes, hi: Bytes)
    requires LevelsOk(v) && level < NUM_LEVELS && Select(v[level], lo, hi) != []
    requires level == 0 ==> ClosedRange(v[level], lo, hi)
    ensures Separable(v[level], level, Select(v[level], lo, hi))
  {
    if level == 0 {
      ClosedSeparable(v[0], lo, hi);
    } else {
      SelectDisjoint(v[level], lo, hi);
      DisjointSeparable(v[level], level, Select(v[level], lo, hi));
    }
  }

  /** Files inside a range are selected by every range around it. */
  lemma {:induction false} CoveredSelected(fs: seq<File>, all: seq<File>, in0: seq<File>, lo: Bytes, hi: Bytes)
    requires all != [] && (forall f :: f in in0 ==> f in fs && f in all)
    requires forall f :: f in fs ==> !Lt(f.largest.ukey, f.smallest.ukey)
    requires Covers(lo, hi, RangeOf(all).0.ukey, RangeOf(all).1.ukey)
             || (lo == RangeOf(all).0.ukey && hi == RangeOf(all).1.ukey)
    ensures forall f :: f in in0 ==> f in Select(fs, lo, hi)
  {
    RangeBounds(all);
    LtOrder();
    hide Lt;
  }

  /** The next level's files for a given choice: exactly those that overlap the range of in0. */
  ghost function NextLevelInputs(v: seq<seq<File>>, level: nat, in0: seq<File>): seq<File>
    requires |v| == NUM_LEVELS && level + 1 < NUM_LEVELS && in0 != []
  {
    Select(v[level + 1], RangeOf(in0).0.ukey, RangeOf(in0).1.ukey)
  }

  /** A selection by a narrower test is no longer, and the same if it is as long. */
  lemma {:induction false} SelectGrows(fs: seq<File>, lo: Bytes, hi: Bytes, lo': Bytes, hi': Bytes)
    requires forall f :: f in fs && InRange(f, lo, hi) ==> InRange(f, lo', hi')
    ensures |Select(fs, lo, hi)| <= |Select(fs, lo', hi')|
    ensures |Select(fs, lo, hi)| == |Select(fs, lo', hi')| ==> Select(fs, lo, hi) == Select(fs, lo', hi')
  {
    hide InRange;
    if fs != [] {
      assert fs[|fs| - 1] in fs;
      SelectGrows(fs[..|fs| - 1], lo, hi, lo', hi');
    }
  }

  /** More files on this level that select as many on the next one select the same ones. */
  lemma {:induction false} SameNextLevel(v: seq<seq<File>>, level: nat, few: seq<File>, many: seq<File>)
    requires LevelsOk(v) && level + 1 < NUM_LEVELS && few != [] && many != []
    requires forall f :: f in few ==> f in v[level] && f in many
    requires |NextLevelInputs(v, level, few)| == |NextLevelInputs(v, level, many)|
    ensures NextLevelInputs(v, level, few) == NextLevelInputs(v, level, many)
  {
    hide RangeOf;
    hide Select;
    var (a, b) := RangeOf(few);
    var (c, d) := RangeOf(many);
    RangeBounds(few);
    RangeBounds(many);
    LevelRanges(v);
    LtOrder();
    assert forall x: Bytes :: !Lt(x, []) && (x != [] ==> Lt([], x));
    hide Lt;
    var f :| f in few && f.smallest == a;
    var g :| g in few && g.largest == b;
    if b.ukey != [] {
      assert !Lt(d.ukey, b.ukey) && !Lt(a.ukey, c.ukey);
      SelectGrows(v[level + 1], a.ukey, b.ukey, c.ukey, d.ukey);
    } else {
      assert a.ukey == [];
      SelectGrows(v[level + 1], c.ukey, d.ukey, a.ukey, b.ukey);
    }
  }

  /** A larger choice is taken: it is larger, not too large, and overlaps as many files on the next level. */
  ghost predicate Grows(v: seq<seq<File>>, level: nat, start: seq<File>, big: seq<File>, maxFileSize: nat)
    requires |v| == NUM_LEVELS && level + 1 < NUM_LEVELS && start != []
  {
    var in1 := NextLevelInputs(v, level, start);
    && |big| > |start| && SizeOf(in1) + SizeOf(big) < 25 * maxFileSize && |NextLevelInputs(v, level, big)| == |in1|
  }

  /** The larger choice: all that overlaps the range of the inputs of both levels. */
  ghost predicate Larger(v: seq<seq<File>>, level: nat, start: seq<File>, big: seq<File>)
    requires |v| == NUM_LEVELS && level + 1 < NUM_LEVELS && start != []
  {
    var all := RangeOf(start + NextLevelInputs(v, level, start));
    Overlapping(v[level], level, all.0.ukey, all.1.ukey, big)
  }

  /** The files of the level that a compaction begun with some takes: the larger choice exactly if it is one to take. */
  ghost predicate IsChosen(v: seq<seq<File>>, level: nat, start: seq<File>, in0: seq<File>, maxFileSize: nat)
    requires |v| == NUM_LEVELS && level + 1 < NUM_LEVELS && start != []
  {
    if NextLevelInputs(v, level, start) == [] then in0 == start
    else exists big :: Larger(v, level, start, big) && in0 == if Grows(v, level, start, big, maxFileSize) then big else start
  }

  /** The files two levels down that the inputs overlap. */
  ghost function GrandparentsOf(v: seq<seq<File>>, level: nat, inputs: seq<File>): seq<File>
    requires |v| == NUM_LEVELS && inputs != []
  {
    if level + 2 < NUM_LEVELS then Select(v[level + 2], RangeOf(inputs).0.ukey, RangeOf(inputs).1.ukey) else []
  }

  /**
   * Completes a compaction: the next level's inputs, a larger choice on this level if that costs nothing more
   * there, and the overlapped files two levels down.
   */
  method SetupOtherInputs(v: seq<seq<File>>, level: nat, start: seq<File>, maxFileSize: nat)
    returns (in0: seq<File>, in1: seq<File>, grandparents: seq<File>)
    requires LevelsOk(v) && level + 1 < NUM_LEVELS && Separable(v[level], level, start)
    ensures Separable(v[level], level, in0) && forall f :: f in start ==> f in in0
    ensures in1 == NextLevelInputs(v, level, in0) == NextLevelInputs(v, level, start)
    ensures IsChosen(v, level, start, in0, maxFileSize)
    ensures grandparents == GrandparentsOf(v, level, in0 + in1)
  {
    hide LevelsOk;
    hide RangeOf;
    hide Select;
    hide SizeOf;
    hide Separable;
    hide Overlapping;
    StartNotEmpty(v[level], level, start);
    in0, grandparents := start, [];
    assert forall l, f :: 0 <= l < NUM_LEVELS && f in v[l] ==> !Lt(f.largest.ukey, f.smallest.ukey) by { LevelRanges(v); }
    hide Lt;
    var smallest, largest := GetRange(in0);
    ghost var lo1, hi1;
    in1, lo1, hi1 := OverlappingInputs(v[level + 1], level + 1, smallest, largest);
    var allstart, alllimit := GetRange(in0 + in1);
    if in1 != [] {
      var expanded0, lo, hi := OverlappingInputs(v[level], level, allstart, alllimit);
      CoveredSelected(v[level], in0 + in1, in0, lo, hi);
      assert Larger(v, level, start, expanded0);
      var inputs1Size := TotalSize(in1);
      var expanded0Size := TotalSize(expanded0);
      if |expanded0| > |in0| && inputs1Size + expanded0Size < 25 * maxFileSize {
        SelectSeparable(v, level, lo, hi);
        var newStart, newLimit := GetRange(expanded0);
        var expanded1, _, _ := OverlappingInputs(v[level + 1], level + 1, newStart, newLimit);
        if |expanded1| == |in1| {
          SameNextLevel(v, level, start, expanded0);
          in0, in1 := expanded0, expanded1;
          allstart, alllimit := GetRange(in0 + in1);
        }
      }
    }
    if level + 2 < NUM_LEVELS {
      grandparents, lo1, hi1 := OverlappingInputs(v[level + 2], level + 2, allstart, alllimit);
    }
  }

  lemma {:induction false} StartNotEmpty(fs: seq<File>, level: nat, in0: seq<File>)
    requires Separable(fs, level, in0)
    ensures in0 != [] && forall f :: f in in0 ==> f in fs
  {
  }

  lemma {:induction false} LevelRanges(v: seq<seq<File>>)
    requires LevelsOk(v)
    ensures forall l, f :: 0 <= l < NUM_LEVELS && f in v[l] ==> !Lt(f.largest.ukey, f.smallest.ukey)
  {
  }

  /** The inputs of an automatic compaction of one chosen file. On level 0 the file draws in just what overlaps. */
  method PickInputs(v: seq<seq<File>>, level: nat, ix: nat) returns (in0: seq<File>)
    requires LevelsOk(v) && level + 1 < NUM_LEVELS && ix < |v[level]|
    ensures Separable(v[level], level, in0) && v[level][ix] in in0
    ensures var f := v[level][ix];
            if level > 0 then in0 == [f] else Overlapping(v[0], 0, f.smallest.ukey, f.largest.ukey, in0)
  {
    in0 := [v[level][ix]];
    if level == 0 {
      var smallest, largest := GetRange(in0);
      ghost var lo, hi;
      in0, lo, hi := OverlappingInputs(v[0], 0, smallest, largest);
      CoveredSelected(v[0], [v[0][ix]], [v[0][ix]], lo, hi);
      assert v[0][ix] in [v[0][ix]];
      SelectSeparable(v, 0, lo, hi);
    } else {
      DisjointSeparable(v[level], level, in0);
    }
  }

  lemma {:induction false} LeastRangeEmpty(fs: seq<File>, lo: Bytes, hi: Bytes, lo': Bytes, hi': Bytes)
    requires LeastClosedRange(fs, lo, hi, lo', hi')
    ensures Select(fs, lo', hi') == [] <==> forall f :: f in fs ==> !InRange(f, lo, hi)
    ensures forall f :: f in fs && InRange(f, lo, hi) ==> f in Select(fs, lo', hi')
  {
    LtOrder();
    hide Lt;
    var r := Select(fs, lo', hi');
    if r != [] {
      assert r[0] in r;
      assert Covers(lo, hi, lo, hi);
      assert (forall f :: f in fs ==> !InRange(f, lo, hi)) ==> ClosedRange(fs, lo, hi);
    } else {
      forall f | f in fs ensures !InRange(f, lo, hi) {
        assert f !in r;
      }
    }
  }

  /** The shortest part of the list from the front that is larger than the limit, or the whole list. */
  ghost predicate CutToSize(all: seq<File>, r: seq<File>, limit: nat) {
    && r <= all
    && (r != all ==> SizeOf(r) > limit)
    && forall n :: 0 <= n < |r| ==> SizeOf(all[..n]) <= limit
  }

  /** The inputs of a manual compaction of a key range; above level 0 the list is cut once it is large enough. */
  method RangeInputs(v: seq<seq<File>>, level: nat, from: InternalKey, to: InternalKey, maxFileSize: nat)
    returns (in0: seq<File>)
    requires LevelsOk(v) && level + 1 < NUM_LEVELS
    ensures in0 != [] ==> Separable(v[level], level, in0)
    ensures in0 == [] <==> forall f :: f in v[level] ==> !InRange(f, from.ukey, to.ukey)
    ensures level == 0 ==> Overlapping(v[0], 0, from.ukey, to.ukey, in0)
    ensures level == 0 ==> forall f :: f in v[0] && InRange(f, from.ukey, to.ukey) ==> f in in0
    ensures level > 0 ==> CutToSize(Select(v[level], from.ukey, to.ukey), in0, maxFileSize)
  {
    hide Lt;
    hide InRange;
    hide SizeOf;
    hide Separable;
    assert forall f :: f in v[level] ==> !Lt(f.largest.ukey, f.smallest.ukey) by { LevelRanges(v); }
    ghost var lo, hi;
    in0, lo, hi := OverlappingInputs(v[level], level, from, to);
    if level == 0 {
      LeastRangeEmpty(v[0], from.ukey, to.ukey, lo, hi);
    }
    if in0 == [] {
      return;
    }
    assert in0[0] in in0;
    SelectSeparable(v, level, lo, hi);
    if level > 0 {
      in0 := CutInputs(in0, maxFileSize);
      PrefixSeparable(v, level, Select(v[level], lo, hi), in0);
    }
  }

  method CutInputs(all: seq<File>, limit: nat) returns (r: seq<File>)
    ensures CutToSize(all, r, limit) && (all != [] ==> r != [])
  {
    var total := 0;
    for i := 0 to |all|
      invariant total == SizeOf(all[..i])
      invariant forall n :: 0 <= n <= i ==> SizeOf(all[..n]) <= limit
    {
      assert all[..i + 1][..i] == all[..i];
      total := total + all[i].size;
      if total > limit {
        return all[..i + 1];
      }
    }
    return all;
  }

  lemma {:induction false} PrefixSeparable(v: seq<seq<File>>, level: nat, all: seq<File>, r: seq<File>)
    requires LevelsOk(v) && 0 < level < NUM_LEVELS && Separable(v[level], level, all) && r <= all && r != []
    ensures Separable(v[level], level, r)
  {
    assert forall f :: f in r ==> f in all;
    DisjointSeparable(v[level], level, r);
  }
}
