/** A version's files and the choice of files that overlap a key range (src/version.rs). */
module Version {
  import opened Bytes
  import opened Entries

  const NUM_LEVELS: nat := 7

  /** A table file: the metadata kept in the manifest and the entries stored in the table. */
  datatype File = File(num: nat, size: nat, smallest: InternalKey, largest: InternalKey, entries: seq<Entry>)

  ghost predicate FileOk(f: File) {
    && f.entries != []
    && Sorted(f.entries)
    && f.smallest == f.entries[0].key
    && f.largest == f.entries[|f.entries| - 1].key
  }

  /** All entries of a list of files. */
  function Contents(fs: seq<File>): set<Entry> {
    set f, e | f in fs && e in f.entries :: e
  }

  /** All entries of the levels from l on. */
  function ContentsFrom(v: seq<seq<File>>, l: nat): set<Entry> {
    set m, e | l <= m < |v| && e in Contents(v[m]) :: e
  }

  /** The entries of the files, one behind the other. */
  function Flatten(fs: seq<File>): seq<Entry> {
    if fs == [] then [] else Flatten(fs[..|fs| - 1]) + fs[|fs| - 1].entries
  }

  /** Files in key order whose user-key ranges do not touch. */
  ghost predicate Disjoint(fs: seq<File>) {
    forall i, j :: 0 <= i < j < |fs| ==> Lt(fs[i].largest.ukey, fs[j].smallest.ukey)
  }

  ghost predicate NumsDistinct(fs: seq<File>) {
    forall i, j :: 0 <= i < j < |fs| ==> fs[i].num != fs[j].num
  }

  ghost predicate Apart(f: File, g: File) {
    Lt(f.largest.ukey, g.smallest.ukey) || Lt(g.largest.ukey, f.smallest.ukey)
  }

  /** f may hold keys of [lo, hi]. As in the source, an empty hi means no upper bound. */
  predicate InRange(f: File, lo: Bytes, hi: Bytes) {
    !Lt(f.largest.ukey, lo) && (hi == [] || !Lt(hi, f.smallest.ukey))
  }

  /** All of f's keys are in [lo, hi]. */
  predicate Within(f: File, lo: Bytes, hi: Bytes) {
    !Lt(f.smallest.ukey, lo) && (hi == [] || !Lt(hi, f.largest.ukey))
  }

  /** [lo, hi] contains [lo', hi']. */
  predicate Covers(lo: Bytes, hi: Bytes, lo': Bytes, hi': Bytes) {
    !Lt(lo', lo) && (hi == [] || (hi' != [] && !Lt(hi, hi')))
  }

  /** The files of fs that may hold keys of [lo, hi], in order. */
  function Select(fs: seq<File>, lo: Bytes, hi: Bytes): (r: seq<File>)
    ensures forall f :: f in r <==> f in fs && InRange(f, lo, hi)
  {
    if fs == [] then []
    else
      var rest := Select(fs[..|fs| - 1], lo, hi);
      if InRange(fs[|fs| - 1], lo, hi) then rest + [fs[|fs| - 1]] else rest
  }

  /** No file straddles the border of [lo, hi]. */
  ghost predicate ClosedRange(fs: seq<File>, lo: Bytes, hi: Bytes) {
    forall f :: f in fs && InRange(f, lo, hi) ==> Within(f, lo, hi)
  }

  /** [lo', hi'] is the least range around [lo, hi] that no file straddles. */
  ghost predicate LeastClosedRange(fs: seq<File>, lo: Bytes, hi: Bytes, lo': Bytes, hi': Bytes) {
    && Covers(lo', hi', lo, hi)
    && ClosedRange(fs, lo', hi')
    && forall a, b :: Covers(a, b, lo, hi) && ClosedRange(fs, a, b) ==> Covers(a, b, lo', hi')
  }

  /** There is only one. */
  lemma {:induction false} LeastUnique(fs: seq<File>, lo: Bytes, hi: Bytes, a: Bytes, b: Bytes, c: Bytes, d: Bytes)
    requires LeastClosedRange(fs, lo, hi, a, b) && LeastClosedRange(fs, lo, hi, c, d)
    ensures a == c && b == d
  {
    LtOrder();
    hide Lt;
    hide ClosedRange;
    assert Covers(a, b, c, d) && Covers(c, d, a, b);
  }

  /** r is the files that overlap [lo, hi]; on level 0, with all that these draw in. */
  ghost predicate Overlapping(fs: seq<File>, level: nat, lo: Bytes, hi: Bytes, r: seq<File>) {
    if level > 0 then r == Select(fs, lo, hi)
    else exists a, b :: LeastClosedRange(fs, lo, hi, a, b) && r == Select(fs, a, b)
  }

  lemma {:induction false} OverlappingUnique(fs: seq<File>, level: nat, lo: Bytes, hi: Bytes, r: seq<File>, r': seq<File>)
    requires Overlapping(fs, level, lo, hi, r) && Overlapping(fs, level, lo, hi, r')
    ensures r == r'
  {
    hide LeastClosedRange;
    if level == 0 {
      var a, b :| LeastClosedRange(fs, lo, hi, a, b) && r == Select(fs, a, b);
      var c, d :| LeastClosedRange(fs, lo, hi, c, d) && r' == Select(fs, c, d);
      LeastUnique(fs, lo, hi, a, b, c, d);
    }
  }

  // ----- the search for overlapping files -----

  /** How many files begin before lo or end after hi: the restarts still possible. */
  function Outside(fs: seq<File>, lo: Bytes, hi: Bytes): nat {
    if fs == [] then 0
    else
      Outside(fs[1..], lo, hi)
      + (if Lt(fs[0].smallest.ukey, lo) then 1 else 0)
      + (if hi != [] && Lt(hi, fs[0].largest.ukey) then 1 else 0)
  }

  lemma {:induction false} OutsideShrinks(fs: seq<File>, lo: Bytes, hi: Bytes, lo': Bytes, hi': Bytes)
    requires Covers(lo', hi', lo, hi)
    ensures Outside(fs, lo', hi') <= Outside(fs, lo, hi)
  {
    if fs != [] {
      hide Lt;
      LtOrder();
      OutsideShrinks(fs[1..], lo, hi, lo', hi');
    }
  }

  /** One pass over the files; a level-0 file that sticks out of the range asks for a restart with a wider one. */
  method DoSearch(fs: seq<File>, level: nat, ubegin: Bytes, uend: Bytes)
    returns (wider: Option<(Bytes, Bytes)>, inputs: seq<File>)
    requires forall f :: f in fs ==> !Lt(f.largest.ukey, f.smallest.ukey)
    ensures wider.None? ==> inputs == Select(fs, ubegin, uend)
    ensures wider.None? && level == 0 ==> ClosedRange(fs, ubegin, uend)
    ensures wider.Some? ==> level == 0 && Covers(wider.value.0, wider.value.1, ubegin, uend)
    ensures wider.Some? ==> Outside(fs, wider.value.0, wider.value.1) < Outside(fs, ubegin, uend)
    ensures wider.Some? ==> forall a, b :: Covers(a, b, ubegin, uend) && ClosedRange(fs, a, b) ==>
                                             Covers(a, b, wider.value.0, wider.value.1)
  {
    inputs := [];
    for i := 0 to |fs|
      invariant inputs == Select(fs[..i], ubegin, uend)
      invariant level == 0 ==> ClosedRange(fs[..i], ubegin, uend)
    {
      assert fs[..i + 1][..i] == fs[..i];
      var f := fs[i];
      if ubegin != [] && Lt(f.largest.ukey, ubegin) {
        continue;
      } else if uend != [] && Lt(uend, f.smallest.ukey) {
        continue;
      }
      inputs := inputs + [f];
      if level == 0 {
        if ubegin != [] && Lt(f.smallest.ukey, ubegin) {
          WiderStep(fs, f, ubegin, uend, f.smallest.ukey, uend);
          return Some((f.smallest.ukey, uend)), inputs;
        } else if uend != [] && Lt(uend, f.largest.ukey) {
          WiderStep(fs, f, ubegin, uend, ubegin, f.largest.ukey);
          return Some((ubegin, f.largest.ukey)), inputs;
        }
      }
    }
    assert fs[..|fs|] == fs;
    return None, inputs;
  }

  lemma {:induction false} WiderStep(fs: seq<File>, f: File, lo: Bytes, hi: Bytes, lo': Bytes, hi': Bytes)
    requires f in fs && InRange(f, lo, hi)
    requires forall g :: g in fs ==> !Lt(g.largest.ukey, g.smallest.ukey)
    requires || (lo' == f.smallest.ukey && Lt(lo', lo) && hi' == hi)
             || (lo' == lo && hi != [] && hi' == f.largest.ukey && Lt(hi, hi'))
    ensures Covers(lo', hi', lo, hi)
    ensures Outside(fs, lo', hi') < Outside(fs, lo, hi)
    ensures forall a, b :: Covers(a, b, lo, hi) && ClosedRange(fs, a, b) ==> Covers(a, b, lo', hi')
  {
    LtOrder();
    OutsideStep(fs, f, lo, hi, lo', hi');
    hide Lt;
    forall a, b | Covers(a, b, lo, hi) && ClosedRange(fs, a, b) ensures Covers(a, b, lo', hi') {
      assert InRange(f, a, b);
    }
  }

  lemma {:induction false} OutsideStep(fs: seq<File>, f: File, lo: Bytes, hi: Bytes, lo': Bytes, hi': Bytes)
    requires f in fs
    requires || (lo' == f.smallest.ukey && Lt(lo', lo) && hi' == hi)
             || (lo' == lo && hi != [] && hi' == f.largest.ukey && Lt(hi, hi'))
    ensures Outside(fs, lo', hi') < Outside(fs, lo, hi)
  {
    LtOrder();
    hide Lt;
    assert Covers(lo', hi', lo, hi);
    OutsideShrinks(fs[1..], lo, hi, lo', hi');
    if fs[0] != f {
      OutsideStep(fs[1..], f, lo, hi, lo', hi');
    }
  }

  /**
   * All files that may hold keys between begin and end. Level 0 restarts with a wider range until no file
   * sticks out; lo and hi are the range that was finally searched.
   */
  method OverlappingInputs(fs: seq<File>, level: nat, begin: InternalKey, end: InternalKey)
    returns (inputs: seq<File>, ghost lo: Bytes, ghost hi: Bytes)
    requires forall f :: f in fs ==> !Lt(f.largest.ukey, f.smallest.ukey)
    ensures inputs == Select(fs, lo, hi)
    ensures level == 0 ==> LeastClosedRange(fs, begin.ukey, end.ukey, lo, hi)
    ensures level > 0 ==> lo == begin.ukey && hi == end.ukey
    ensures Overlapping(fs, level, begin.ukey, end.ukey, inputs)
  {
    var ubegin, uend := begin.ukey, end.ukey;
    LtOrder();
    hide Lt;
    while true
      invariant Covers(ubegin, uend, begin.ukey, end.ukey)
      invariant level > 0 ==> ubegin == begin.ukey && uend == end.ukey
      invariant forall a, b :: Covers(a, b, begin.ukey, end.ukey) && ClosedRange(fs, a, b) ==> Covers(a, b, ubegin, uend)
      decreases Outside(fs, ubegin, uend)
    {
      var wider;
      wider, inputs := DoSearch(fs, level, ubegin, uend);
      match wider
      case Some(range) => ubegin, uend := range.0, range.1;
      case None => return inputs, ubegin, uend;
    }
  }

  // ----- the level a memtable is flushed to -----

  /** The order find_file asks of its files: largest keys ascend. */
  ghost predicate Ascending(fs: seq<File>) {
    forall i, j :: 0 <= i < j < |fs| ==> !KeyLess(fs[j].largest, fs[i].largest)
  }

  ghost predicate StartInOrder(fs: seq<File>) {
    && (forall i, j :: 0 <= i < j < |fs| ==> !Lt(fs[j].smallest.ukey, fs[i].smallest.ukey))
    && (forall i :: 0 <= i < |fs| ==> fs[i].largest.seqno <= MAX_SEQUENCE_NUMBER)
  }

  /** Where a binary search between two places ends. */
  function Found(fs: seq<File>, key: InternalKey, left: nat, right: nat): (r: nat)
    requires left <= right <= |fs|
    ensures left <= r <= right
    decreases right - left
  {
    if left == right then right
    else
      var mid := (left + right) / 2;
      if KeyLess(fs[mid].largest, key) then Found(fs, key, mid + 1, right) else Found(fs, key, left, mid)
  }

  lemma {:induction false} FoundIs(fs: seq<File>, key: InternalKey, left: nat, right: nat)
    requires left <= right <= |fs| && (right < |fs| ==> !KeyLess(fs[right].largest, key))
    requires Ascending(fs) ==> forall i :: 0 <= i < left ==> KeyLess(fs[i].largest, key)
    ensures var r := Found(fs, key, left, right);
            && (r < |fs| ==> !KeyLess(fs[r].largest, key))
            && (Ascending(fs) ==> forall i :: 0 <= i < r ==> KeyLess(fs[i].largest, key))
    decreases right - left
  {
    hide KeyLess;
    hide Ascending;
    if left < right {
      var mid := (left + right) / 2;
      if KeyLess(fs[mid].largest, key) {
        if Ascending(fs) {
          AllBefore(fs, key, mid);
        }
        FoundIs(fs, key, mid + 1, right);
      } else {
        FoundIs(fs, key, left, mid);
      }
    }
  }

  lemma {:induction false} AllBefore(fs: seq<File>, key: InternalKey, mid: nat)
    requires Ascending(fs) && mid < |fs| && KeyLess(fs[mid].largest, key)
    ensures forall i :: 0 <= i <= mid ==> KeyLess(fs[i].largest, key)
  {
    LtOrder();
    hide Lt;
  }

  /** Binary search: the first file that ends at or after key, if the files' ends ascend. */
  method FindFile(fs: seq<File>, key: InternalKey) returns (r: Option<nat>)
    ensures r == if Found(fs, key, 0, |fs|) < |fs| then Some(Found(fs, key, 0, |fs|)) else None
    ensures r.Some? ==> r.value < |fs| && !KeyLess(fs[r.value].largest, key)
    ensures Ascending(fs) && r.Some? ==> forall i :: 0 <= i < r.value ==> KeyLess(fs[i].largest, key)
    ensures Ascending(fs) && r.None? ==> forall i :: 0 <= i < |fs| ==> KeyLess(fs[i].largest, key)
  {
    hide KeyLess;
    hide Ascending;
    FoundIs(fs, key, 0, |fs|);
    var left, right := 0, |fs|;
    while left < right
      invariant 0 <= left <= right <= |fs|
      invariant Found(fs, key, left, right) == Found(fs, key, 0, |fs|)
    {
      var mid := (left + right) / 2;
      if KeyLess(fs[mid].largest, key) {
        left := mid + 1;
      } else {
        right := mid;
      }
    }
    r := if right < |fs| then Some(right) else None;
  }

  ghost predicate AnyInRange(fs: seq<File>, lo: Bytes, hi: Bytes) {
    exists f :: f in fs && InRange(f, lo, hi)
  }

  /** What the test for disjoint files answers: only the file that the binary search ends at is looked at. */
  predicate DisjointTest(fs: seq<File>, smallest: Bytes, largest: Bytes) {
    var i := Found(fs, InternalKey(smallest, MAX_SEQUENCE_NUMBER, TypeValue), 0, |fs|);
    i < |fs| && !(largest != [] && Lt(largest, fs[i].smallest.ukey))
  }

  /** Two overlapping files of level 0: the search ends past both, though the first one covers the range. */
  lemma {:induction false} OverlapMissed() returns (fs: seq<File>, lo: Bytes, hi: Bytes)
    ensures AnyInRange(fs, lo, hi) && !DisjointTest(fs, lo, hi)
    ensures forall i, j :: 0 <= i < j < |fs| ==> !KeyLess(fs[j].smallest, fs[i].smallest)
  {
    var a, z, b, c := InternalKey([1], 1, TypeValue), InternalKey([9], 2, TypeValue), InternalKey([2], 3, TypeValue), InternalKey([3], 4, TypeValue);
    var f, g := File(4, 0, a, z, [Entry(a, []), Entry(z, [])]), File(5, 0, b, c, [Entry(b, []), Entry(c, [])]);
    fs, lo, hi := [f, g], [5], [6];
    assert Lt([1], [5]) && Lt([3], [5]) && !Lt([6], [1]) && !Lt([9], [5]) && !Lt([2], [1]);
    var key := InternalKey(lo, MAX_SEQUENCE_NUMBER, TypeValue);
    assert KeyLess(fs[1].largest, key);
    assert Found(fs, key, 2, 2) == 2 && Found(fs, key, 0, 2) == Found(fs, key, 2, 2);
    assert f in fs && InRange(f, lo, hi);
  }

  /** Reports only real overlaps; finds every overlap when the largest keys ascend and the files start in order. */
  method SomeFileOverlapsRangeDisjoint(fs: seq<File>, smallest: Bytes, largest: Bytes) returns (r: bool)
    ensures r <==> DisjointTest(fs, smallest, largest)
    ensures r ==> AnyInRange(fs, smallest, largest)
    ensures Ascending(fs) && StartInOrder(fs) && AnyInRange(fs, smallest, largest) ==> r
  {
    LtOrder();
    hide Lt;
    var key := InternalKey(smallest, MAX_SEQUENCE_NUMBER, TypeValue);
    var ix := FindFile(fs, key);
    match ix {
      case Some(i) => r := !(largest != [] && Lt(largest, fs[i].smallest.ukey));
        assert r ==> fs[i] in fs && InRange(fs[i], smallest, largest);
      case None => r := false;
    }
  }

  method SomeFileOverlapsRange(fs: seq<File>, smallest: Bytes, largest: Bytes) returns (r: bool)
    ensures r <==> AnyInRange(fs, smallest, largest)
  {
    for i := 0 to |fs|
      invariant forall f :: f in fs[..i] ==> !InRange(f, smallest, largest)
    {
      var f := fs[i];
      if !((smallest != [] && Lt(f.largest.ukey, smallest)) || (largest != [] && Lt(largest, f.smallest.ukey))) {
        assert f in fs && InRange(f, smallest, largest);
        return true;
      }
    }
    assert fs[..|fs|] == fs;
    return false;
  }

  method TotalSize(fs: seq<File>) returns (n: nat)
    ensures n == SizeOf(fs)
  {
    n := 0;
    for i := 0 to |fs|
      invariant n == SizeOf(fs[..i])
    {
      assert fs[..i + 1][..i] == fs[..i];
      n := n + fs[i].size;
    }
    assert fs[..|fs|] == fs;
  }

  function SizeOf(fs: seq<File>): nat {
    if fs == [] then 0 else SizeOf(fs[..|fs| - 1]) + fs[|fs| - 1].size
  }

  /** A flush of [min, max] to this level puts no older version of its keys above it. */
  ghost predicate SafeFlush(v: seq<seq<File>>, level: nat, min: Bytes, max: Bytes)
    requires |v| == NUM_LEVELS
  {
    level < NUM_LEVELS && (level == 0 || forall l :: 0 <= l <= level ==> !AnyInRange(v[l], min, max))
  }

  const MAX_MEM_COMPACT_LEVEL: nat := 2

  const MAX_LEAST_OVERLAP: nat := 10 * 0x20_0000

  /** A flush passes over the level when the next one has no overlap and the one behind it little. */
  ghost predicate PassesOver(v: seq<seq<File>>, level: nat, min: Bytes, max: Bytes)
    requires |v| == NUM_LEVELS && level + 2 < NUM_LEVELS
  {
    !AnyInRange(v[level + 1], min, max) && SizeOf(Select(v[level + 2], min, max)) <= MAX_LEAST_OVERLAP
  }

  /** The level for a flushed memtable: the first one, up to the highest allowed, that it does not pass over. */
  ghost predicate IsPicked(v: seq<seq<File>>, min: Bytes, max: Bytes, level: nat)
    requires |v| == NUM_LEVELS
  {
    && level <= MAX_MEM_COMPACT_LEVEL
    && (forall l :: 0 <= l < level ==> PassesOver(v, l, min, max))
    && (level > 0 ==> !DisjointTest(v[0], min, max))
    && (level < MAX_MEM_COMPACT_LEVEL ==> (level == 0 && DisjointTest(v[0], min, max)) || !PassesOver(v, level, min, max))
  }

  /**
   * The level a flushed memtable is put on: the first one that it does not pass over. Level 0 is searched by the test
   * for disjoint files, so the choice is safe exactly when it is level 0 or no level-0 file overlaps.
   */
  method PickMemtableOutputLevel(v: seq<seq<File>>, min: Bytes, max: Bytes) returns (level: nat)
    requires |v| == NUM_LEVELS
    requires forall l, f :: 0 <= l < NUM_LEVELS && f in v[l] ==> !Lt(f.largest.ukey, f.smallest.ukey)
    ensures IsPicked(v, min, max, level)
    ensures SafeFlush(v, level, min, max) <==> level == 0 || !AnyInRange(v[0], min, max)
  {
    hide AnyInRange;
    hide DisjointTest;
    hide Select;
    hide SizeOf;
    level := 0;
    var overlap := SomeFileOverlapsRangeDisjoint(v[0], min, max);
    if !overlap {
      while level < MAX_MEM_COMPACT_LEVEL
        invariant 0 <= level <= MAX_MEM_COMPACT_LEVEL
        invariant forall l :: 0 <= l < level ==> PassesOver(v, l, min, max)
      {
        overlap := SomeFileOverlapsRange(v[level + 1], min, max);
        if overlap {
          break;
        }
        if level + 2 < NUM_LEVELS {
          var overlaps, _, _ := OverlappingInputs(v[level + 2], level + 2,
                                                  InternalKey(min, MAX_SEQUENCE_NUMBER, TypeValue),
                                                  InternalKey(max, 0, TypeDeletion));
          var size := TotalSize(overlaps);
          if size > MAX_LEAST_OVERLAP {
            break;
          }
        }
        level := level + 1;
      }
    }
    PassedIsSafe(v, level, min, max);
  }

  lemma {:induction false} PassedIsSafe(v: seq<seq<File>>, level: nat, min: Bytes, max: Bytes)
    requires |v| == NUM_LEVELS && level + 2 < NUM_LEVELS && forall l :: 0 <= l < level ==> PassesOver(v, l, min, max)
    ensures SafeFlush(v, level, min, max) <==> level == 0 || !AnyInRange(v[0], min, max)
    ensures forall l :: 1 <= l <= level ==> !AnyInRange(v[l], min, max)
  {
    hide AnyInRange;
    hide Select;
    hide SizeOf;
    forall l | 1 <= l <= level ensures !AnyInRange(v[l], min, max) {
      assert PassesOver(v, l - 1, min, max);
    }
  }
}
