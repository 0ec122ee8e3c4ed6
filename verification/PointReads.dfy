/** Point reads: memtables, then the files that may hold the key, newest first (src/db_impl.rs, src/version.rs). */
module PointReads {
  import opened Bytes
  import opened Entries
  import opened Version
  import opened VersionBuilder
  import opened Store
  import Blocks = Table

  // ----- one sorted run of entries -----

  /** The first entry not before the key: what a lookup in a table or a memtable finds. */
  function FirstFrom(es: seq<Entry>, to: InternalKey): Option<Entry> {
    if es == [] then None else if KeyLess(es[0].key, to) then FirstFrom(es[1..], to) else Some(es[0])
  }

  function Target(u: Bytes, s: nat): InternalKey {
    InternalKey(u, s, TypeValue)
  }

  lemma {:induction false} FirstFromIs(es: seq<Entry>, to: InternalKey)
    requires Sorted(es)
    ensures FirstFrom(es, to).None? ==> forall x :: x in es ==> KeyLess(x.key, to)
    ensures FirstFrom(es, to).Some? ==> var e := FirstFrom(es, to).value;
                                        e in es && !KeyLess(e.key, to) && forall x :: x in es && x != e ==> KeyLess(x.key, to) || KeyLess(e.key, x.key)
  {
    hide KeyLess;
    if es != [] {
      assert es == [es[0]] + es[1..];
      if KeyLess(es[0].key, to) {
        assert Sorted(es[1..]);
        FirstFromIs(es[1..], to);
      }
    }
  }

  /** The hit is the newest visible version of the key if there is one; otherwise it is of another key. */
  lemma {:induction false} FirstIsNewest(es: seq<Entry>, u: Bytes, s: nat)
    requires Sorted(es)
    ensures var hit := FirstFrom(es, Target(u, s));
            if hit.Some? && hit.value.key.ukey == u then IsNewest(EntrySet(es), u, s, hit.value)
            else forall e :: !Visible(EntrySet(es), u, s, e)
  {
    FirstFromIs(es, Target(u, s));
    LtOrder();
    hide Lt;
    hide FirstFrom;
  }

  /** A lookup gets to the entries: it does not give up at the index, and the filter lets it through. */
  ghost predicate Reached(t: Blocks.Blocks, may: nat -> bool, to: InternalKey)
    requires |t.data| == |t.index| && Blocks.NonEmpty(t.data)
  {
    !Blocks.Misses(t, to) && forall i: nat :: Blocks.ReadsBlock(t, to, i) ==> may(i)
  }

  /** What a table's lookup finds: the first entry not before the lookup key, if it gets to the entries. */
  method LookUp(t: Blocks.Blocks, may: nat -> bool, u: Bytes, s: nat) returns (r: Option<Entry>)
    requires Blocks.TableOk(t)
    ensures r == if Reached(t, may, Target(u, s)) then FirstFrom(Blocks.Flat(t.data), Target(u, s)) else None
  {
    hide FirstFrom;
    hide Blocks.OnLast;
    hide Blocks.InGap;
    r := Blocks.Get(t, may, Target(u, s));
    if r.Some? {
      ghost var b: nat, k: nat :| Blocks.IsFirst(t, Target(u, s), Blocks.At(b, k)) && r.value == t.data[b][k];
      FirstInTable(t, Target(u, s), b, k);
    } else if Reached(t, may, Target(u, s)) {
      assert Blocks.IsFirst(t, Target(u, s), Blocks.Nowhere);
      FirstFromIs(Blocks.Flat(t.data), Target(u, s));
    }
  }

  /** For a key with a visible version, the lookup gets there if and only if it does not give up at the index. */
  lemma {:induction false} HeldReached(t: Blocks.Blocks, may: nat -> bool, u: Bytes, s: nat, e: Entry)
    requires Blocks.TableOk(t) && Blocks.NoFalseNegatives(t, may, u) && Visible(EntrySet(Blocks.Flat(t.data)), u, s, e)
    ensures Reached(t, may, Target(u, s)) <==> !Blocks.Misses(t, Target(u, s))
  {
    hide Blocks.OnLast;
    hide Blocks.InGap;
    if !Blocks.InGap(t, Target(u, s)) {
      Blocks.HeldIsRead(t, may, u, s, e);
    }
  }

  lemma {:induction false} FirstInTable(t: Blocks.Blocks, to: InternalKey, b: nat, k: nat)
    requires Blocks.TableOk(t) && Blocks.IsFirst(t, to, Blocks.At(b, k))
    ensures FirstFrom(Blocks.Flat(t.data), to) == Some(t.data[b][k])
  {
    hide FirstFrom;
    var es, e := Blocks.Flat(t.data), t.data[b][k];
    FirstFromIs(es, to);
    Blocks.FlatIn(t.data, b, k);
    KeyOrder();
    hide KeyLess;
    var f := FirstFrom(es, to).value;
    if f != e {
      var c, i := Blocks.FlatFrom(t.data, f);
      if c == b {
        Blocks.BlockSorted(t.data, b);
      } else if b < c {
        Blocks.BlocksAscend(t.data, b, c, e, f);
      }
    }
  }

  // ----- a list of files, newest first -----

  /** Whether a lookup of the key gets to the entries of a table, past its filter and its index. */
  type Reach = File -> bool

  function Hit(reach: Reach, f: File, u: Bytes, s: nat): Option<Entry> {
    if reach(f) then FirstFrom(f.entries, Target(u, s)) else None
  }

  /** The search stops at a version of the key and at a deletion of any key. */
  predicate Stops(reach: Reach, f: File, u: Bytes, s: nat) {
    var hit := Hit(reach, f, u, s);
    hit.Some? && (hit.value.key.ukey == u || hit.value.key.typ.TypeDeletion?)
  }

  function Search(reach: Reach, fs: seq<File>, u: Bytes, s: nat): Option<Bytes> {
    if fs == [] then None else if Stops(reach, fs[0], u, s) then Meaning(Hit(reach, fs[0], u, s).value) else Search(reach, fs[1..], u, s)
  }

  /** The first file at which the search stops has the deletion of another key. */
  ghost predicate StopsAtOther(reach: Reach, fs: seq<File>, u: Bytes, s: nat) {
    fs != [] && if Stops(reach, fs[0], u, s) then Hit(reach, fs[0], u, s).value.key.ukey != u else StopsAtOther(reach, fs[1..], u, s)
  }

  ghost predicate Sees(f: File, u: Bytes, s: nat) {
    exists e :: Visible(EntrySet(f.entries), u, s, e)
  }

  /** The lookup gets to the entries of every file that has a visible version. */
  ghost predicate ReachesSeen(reach: Reach, fs: seq<File>, u: Bytes, s: nat) {
    forall f :: f in fs && Sees(f, u, s) ==> reach(f)
  }

  /** Every version of the key in f is newer than every one in g. */
  ghost predicate NewerFor(f: File, g: File, u: Bytes) {
    forall e, x :: e in f.entries && x in g.entries && e.key.ukey == u == x.key.ukey ==> e.key.seqno > x.key.seqno
  }

  ghost predicate NewestFirst(fs: seq<File>, u: Bytes) {
    forall i, j :: 0 <= i < j < |fs| ==> NewerFor(fs[i], fs[j], u)
  }

  /** The version of the key that the first seeing file holds is the newest of all. */
  lemma {:induction false} FirstSeeing(fs: seq<File>, u: Bytes, s: nat, e: Entry)
    requires NewestFirst(fs, u) && fs != [] && IsNewest(EntrySet(fs[0].entries), u, s, e)
    ensures IsNewest(Contents(fs), u, s, e)
  {
    assert fs[0] in fs;
    forall x | Visible(Contents(fs), u, s, x) ensures x.key.seqno <= e.key.seqno {
      var g :| g in fs && x in g.entries;
      var j :| 0 <= j < |fs| && fs[j] == g;
      if j == 0 {
        assert Visible(EntrySet(fs[0].entries), u, s, x);
      } else {
        assert NewerFor(fs[0], fs[j], u);
      }
    }
  }

  lemma {:induction false} RestReads(fs: seq<File>, u: Bytes, s: nat)
    requires fs != [] && Distinct(Contents(fs)) && !Sees(fs[0], u, s)
    ensures Distinct(Contents(fs[1..])) && ReadAt(Contents(fs), u, s) == ReadAt(Contents(fs[1..]), u, s)
  {
    var A, B := Contents(fs), Contents(fs[1..]);
    assert fs == [fs[0]] + fs[1..];
    assert B <= A;
    forall x | Visible(A, u, s, x) ensures Visible(B, u, s, x) {
      var g :| g in fs && x in g.entries;
      assert Visible(EntrySet(g.entries), u, s, x);
    }
    assert forall x :: Visible(B, u, s, x) ==> Visible(A, u, s, x);
    if n :| IsNewest(A, u, s, n) {
      assert IsNewest(B, u, s, n);
      ReadIs(A, u, s, n);
      ReadIs(B, u, s, n);
    } else {
      assert forall x :: IsNewest(B, u, s, x) ==> IsNewest(A, u, s, x);
    }
  }

  /** The files whose entries the lookups get to. */
  function Open(reach: Reach, fs: seq<File>): seq<File> {
    if fs == [] then [] else (if reach(fs[0]) then [fs[0]] else []) + Open(reach, fs[1..])
  }

  lemma {:induction false} OpenMembers(reach: Reach, fs: seq<File>)
    ensures forall f :: f in Open(reach, fs) <==> f in fs && reach(f)
  {
    if fs != [] {
      assert fs == [fs[0]] + fs[1..];
      OpenMembers(reach, fs[1..]);
    }
  }

  lemma {:induction false} OpenDistinct(reach: Reach, fs: seq<File>)
    requires Distinct(Contents(fs))
    ensures Distinct(Contents(Open(reach, fs)))
  {
    OpenMembers(reach, fs);
    assert Contents(Open(reach, fs)) <= Contents(fs);
  }

  lemma {:induction false} OpenNewest(reach: Reach, fs: seq<File>, u: Bytes)
    requires NewestFirst(fs, u)
    ensures NewestFirst(Open(reach, fs), u)
  {
    hide NewerFor;
    if fs != [] {
      var rest := Open(reach, fs[1..]);
      OpenNewest(reach, fs[1..], u);
      OpenMembers(reach, fs[1..]);
      forall f, g | f in [fs[0]] && g in rest ensures NewerFor(f, g, u) {
        var j :| 0 <= j < |fs[1..]| && fs[1..][j] == g;
        assert NewerFor(fs[0], fs[j + 1], u);
      }
      NewestConcat([fs[0]], rest, u);
    }
  }

  /**
   * The search finds nothing if it stops at another key's deletion; otherwise it reads what the files that the lookups
   * get to say.
   */
  lemma {:induction false} SearchResult(reach: Reach, fs: seq<File>, u: Bytes, s: nat)
    requires NewestFirst(fs, u) && Distinct(Contents(fs)) && forall f :: f in fs ==> Sorted(f.entries)
    ensures Search(reach, fs, u, s)
            == if StopsAtOther(reach, fs, u, s) then None else ReadAt(Contents(Open(reach, fs)), u, s)
  {
    if fs == [] {
      assert Contents(fs) == {};
      ReadNothing(Contents(fs), u, s);
    } else {
      var f, rest := fs[0], fs[1..];
      assert fs == [f] + rest && f in fs;
      OpenDistinct(reach, fs);
      if Stops(reach, f, u, s) {
        FirstIsNewest(f.entries, u, s);
        var e := Hit(reach, f, u, s).value;
        if e.key.ukey == u {
          OpenNewest(reach, fs, u);
          FirstSeeing(Open(reach, fs), u, s, e);
          ReadIs(Contents(Open(reach, fs)), u, s, e);
        }
      } else {
        assert Distinct(Contents(rest)) by { assert Contents(rest) <= Contents(fs); }
        assert NewestFirst(rest, u);
        SearchResult(reach, rest, u, s);
        if reach(f) {
          FirstIsNewest(f.entries, u, s);
          assert !Sees(f, u, s);
          assert Open(reach, fs)[1..] == Open(reach, rest);
          RestReads(Open(reach, fs), u, s);
        } else {
          assert Open(reach, fs) == Open(reach, rest);
        }
      }
    }
  }

  /**
   * If the lookups get to every visible version, the search gives what a reader at the snapshot must see, except
   * exactly when it stops at another key's deletion although a file has a value.
   */
  lemma {:induction false} SearchCorrect(reach: Reach, fs: seq<File>, u: Bytes, s: nat)
    requires ReachesSeen(reach, fs, u, s) && NewestFirst(fs, u) && Distinct(Contents(fs)) && forall f :: f in fs ==> Sorted(f.entries)
    ensures Search(reach, fs, u, s) == ReadAt(Contents(fs), u, s)
            <==> !(StopsAtOther(reach, fs, u, s) && ReadAt(Contents(fs), u, s).Some?)
  {
    hide NewestFirst;
    hide Search;
    hide StopsAtOther;
    SearchResult(reach, fs, u, s);
    OpenDistinct(reach, fs);
    var A, B := Contents(fs), Contents(Open(reach, fs));
    OpenMembers(reach, fs);
    forall x | Visible(A, u, s, x) ensures Visible(B, u, s, x) {
      var g :| g in fs && x in g.entries;
      assert Visible(EntrySet(g.entries), u, s, x);
      assert Sees(g, u, s);
    }
    assert forall x :: Visible(B, u, s, x) ==> Visible(A, u, s, x);
    SameVisible(A, B, u, s);
  }

  // ----- the files of a version that may hold the key -----

  function Concat(levels: seq<seq<File>>): seq<File> {
    if levels == [] then [] else Concat(levels[..|levels| - 1]) + levels[|levels| - 1]
  }

  predicate KeyInRange(f: File, u: Bytes) {
    !Lt(u, f.smallest.ukey) && !Lt(f.largest.ukey, u)
  }

  ghost predicate NumsDescend(fs: seq<File>) {
    forall i, j :: 0 <= i < j < |fs| ==> fs[i].num >= fs[j].num
  }

  /** The file goes behind those with the same or a higher number. */
  function PutByNumber(fs: seq<File>, f: File): seq<File> {
    if fs == [] then [f]
    else if fs[|fs| - 1].num >= f.num then fs + [f]
    else PutByNumber(fs[..|fs| - 1], f) + [fs[|fs| - 1]]
  }

  /** Newest first, equal numbers in their order. */
  function ByNumber(fs: seq<File>): seq<File> {
    if fs == [] then [] else PutByNumber(ByNumber(fs[..|fs| - 1]), fs[|fs| - 1])
  }

  lemma {:induction false} PutMembers(fs: seq<File>, f: File)
    ensures forall g :: g in PutByNumber(fs, f) <==> g in fs || g == f
    ensures NumsDistinct(fs) && (forall g :: g in fs ==> g.num != f.num) ==> NumsDistinct(PutByNumber(fs, f))
  {
    if fs != [] && fs[|fs| - 1].num < f.num {
      var init, last := fs[..|fs| - 1], fs[|fs| - 1];
      assert fs == init + [last];
      PutMembers(init, f);
      assert last in fs;
      if NumsDistinct(fs) {
        forall g | g in init ensures g.num != last.num {
        }
        AppendDistinct(PutByNumber(init, f), last);
      }
    } else {
      AppendDistinct(fs, f);
    }
  }

  lemma {:induction false} AppendDistinct(fs: seq<File>, f: File)
    ensures NumsDistinct(fs) && (forall g :: g in fs ==> g.num != f.num) ==> NumsDistinct(fs + [f])
  {
  }

  lemma {:induction false} PutDescends(fs: seq<File>, f: File)
    requires NumsDescend(fs)
    ensures NumsDescend(PutByNumber(fs, f))
  {
    if fs != [] && fs[|fs| - 1].num < f.num {
      var init, last := fs[..|fs| - 1], fs[|fs| - 1];
      PutDescends(init, f);
      PutMembers(init, f);
      var r := PutByNumber(init, f);
      forall i | 0 <= i < |r| ensures r[i].num >= last.num {
        assert r[i] in r;
      }
    }
  }

  lemma {:induction false} ByNumberIs(fs: seq<File>)
    ensures NumsDescend(ByNumber(fs)) && (forall f :: f in ByNumber(fs) <==> f in fs)
    ensures NumsDistinct(fs) ==> NumsDistinct(ByNumber(fs))
  {
    if fs != [] {
      var init, last := fs[..|fs| - 1], fs[|fs| - 1];
      assert fs == init + [last];
      ByNumberIs(init);
      PutDescends(ByNumber(init), last);
      PutMembers(ByNumber(init), last);
      assert NumsDistinct(fs) ==> forall g :: g in init ==> g.num != last.num;
    }
  }

  method SortNewestFirst(fs: seq<File>) returns (r: seq<File>)
    ensures r == ByNumber(fs)
  {
    hide PutByNumber;
    r := [];
    for n := 0 to |fs|
      invariant r == ByNumber(fs[..n])
    {
      assert fs[..n + 1][..n] == fs[..n];
      r := PutIn(r, fs[n]);
    }
    assert fs[..|fs|] == fs;
  }

  method PutIn(r: seq<File>, f: File) returns (r': seq<File>)
    ensures r' == PutByNumber(r, f)
  {
    var k := |r|;
    assert r[..k] == r && r == r + [];
    while k > 0 && r[k - 1].num < f.num
      invariant 0 <= k <= |r| && PutByNumber(r, f) == PutByNumber(r[..k], f) + r[k..]
    {
      PutFurther(r, k, f);
      k := k - 1;
    }
    assert PutByNumber(r[..k], f) == r[..k] + [f];
    r' := r[..k] + [f] + r[k..];
  }

  lemma {:induction false} PutFurther(r: seq<File>, k: nat, f: File)
    requires 0 < k <= |r| && r[k - 1].num < f.num
    ensures PutByNumber(r[..k], f) + r[k..] == PutByNumber(r[..k - 1], f) + r[k - 1..]
  {
    assert r[..k][..k - 1] == r[..k - 1] && r[k - 1..] == [r[k - 1]] + r[k..];
  }

  /** The lookup key lies between the ends of the file: not behind its last key, and the user key not before its first. */
  predicate MayHold(f: File, u: Bytes, s: nat) {
    !Lt(u, f.smallest.ukey) && !KeyLess(f.largest, Target(u, s))
  }

  /** At most one file of a level, and one that may hold the key; on a level of disjoint files, the only one that may. */
  ghost predicate IsCandidate(fs: seq<File>, c: seq<File>, u: Bytes, s: nat) {
    && |c| <= 1
    && (forall f :: f in c ==> f in fs && MayHold(f, u, s))
    && (Disjoint(fs) && (forall f :: f in fs ==> FileOk(f)) ==> forall f :: f in fs && MayHold(f, u, s) ==> f in c)
  }

  /** The files whose range has the key. */
  function Ranging(fs: seq<File>, u: Bytes): (r: seq<File>)
    ensures forall f :: f in r <==> f in fs && KeyInRange(f, u)
  {
    if fs == [] then []
    else
      var rest := Ranging(fs[..|fs| - 1], u);
      assert fs == fs[..|fs| - 1] + [fs[|fs| - 1]];
      if KeyInRange(fs[|fs| - 1], u) then rest + [fs[|fs| - 1]] else rest
  }

  lemma {:induction false} RangingDistinct(fs: seq<File>, u: Bytes)
    requires NumsDistinct(fs)
    ensures NumsDistinct(Ranging(fs, u))
  {
    if fs != [] {
      var init, last := fs[..|fs| - 1], fs[|fs| - 1];
      RangingDistinct(init, u);
      AppendDistinct(Ranging(init, u), last);
    }
  }

  /** The file that the binary search ends at, if it does not begin behind the key. */
  function CandidateOf(fs: seq<File>, u: Bytes, s: nat): seq<File> {
    var i := Found(fs, Target(u, s), 0, |fs|);
    if i < |fs| && !Lt(u, fs[i].smallest.ukey) then [fs[i]] else []
  }

  /** The files that a read asks, level by level. */
  function ChosenFor(v: seq<seq<File>>, u: Bytes, s: nat): (levels: seq<seq<File>>)
    requires |v| == NUM_LEVELS
    ensures |levels| == NUM_LEVELS
  {
    seq(NUM_LEVELS, l requires 0 <= l < NUM_LEVELS => if l == 0 then ByNumber(Ranging(v[0], u)) else CandidateOf(v[l], u, s))
  }

  /** The files that a read asks, in order. */
  function ProbesFor(v: seq<seq<File>>, u: Bytes, s: nat): seq<File>
    requires |v| == NUM_LEVELS
  {
    Concat(ChosenFor(v, u, s))
  }

  method GetOverlapping(v: seq<seq<File>>, u: Bytes, s: nat) returns (levels: seq<seq<File>>)
    requires |v| == NUM_LEVELS
    ensures levels == ChosenFor(v, u, s)
  {
    hide Ranging;
    hide ByNumber;
    hide CandidateOf;
    var top := InRangeOf(v[0], u);
    var sorted := SortNewestFirst(top);
    levels := [sorted];
    for l := 1 to NUM_LEVELS
      invariant levels == ChosenFor(v, u, s)[..l]
    {
      var c := Candidate(v[l], u, s);
      levels := levels + [c];
    }
  }

  method InRangeOf(fs: seq<File>, u: Bytes) returns (r: seq<File>)
    ensures r == Ranging(fs, u)
  {
    r := [];
    for i := 0 to |fs|
      invariant r == Ranging(fs[..i], u)
    {
      assert fs[..i + 1][..i] == fs[..i];
      if KeyInRange(fs[i], u) {
        r := r + [fs[i]];
      }
    }
    assert fs[..|fs|] == fs;
  }

  method Candidate(fs: seq<File>, u: Bytes, s: nat) returns (c: seq<File>)
    ensures c == CandidateOf(fs, u, s)
  {
    var ix := FindFile(fs, Target(u, s));
    c := if ix.Some? && !Lt(u, fs[ix.value].smallest.ukey) then [fs[ix.value]] else [];
  }

  lemma {:induction false} CandidateIs(fs: seq<File>, u: Bytes, s: nat)
    ensures IsCandidate(fs, CandidateOf(fs, u, s), u, s)
  {
    FoundIs(fs, Target(u, s), 0, |fs|);
    if Disjoint(fs) && forall f :: f in fs ==> FileOk(f) {
      EndsAscend(fs);
      forall f | f in fs && MayHold(f, u, s) ensures f in CandidateOf(fs, u, s) {
        OnlyCandidate(fs, u, s, f, Found(fs, Target(u, s), 0, |fs|));
      }
    }
  }

  lemma {:induction false} ChosenIs(v: seq<seq<File>>, u: Bytes, s: nat)
    requires |v| == NUM_LEVELS && NumsDistinct(v[0])
    ensures ChosenOk(v, ChosenFor(v, u, s), u, s)
  {
    hide Ranging;
    hide ByNumber;
    hide CandidateOf;
    hide IsCandidate;
    hide NumsDistinct;
    hide NumsDescend;
    RangingDistinct(v[0], u);
    ByNumberIs(Ranging(v[0], u));
    forall l | 1 <= l < NUM_LEVELS ensures IsCandidate(v[l], ChosenFor(v, u, s)[l], u, s) {
      CandidateIs(v[l], u, s);
    }
  }

  lemma {:induction false} EndsAscend(fs: seq<File>)
    requires Disjoint(fs) && forall f :: f in fs ==> FileOk(f)
    ensures Ascending(fs)
  {
    forall i, j | 0 <= i < j < |fs| ensures !KeyLess(fs[j].largest, fs[i].largest) {
      assert fs[j] in fs;
      EntryInFile(fs[j], fs[j].entries[0]);
      LtOrder();
      hide Lt;
    }
  }

  /** The file that the search ends at is the only one that may hold the key. */
  lemma {:induction false} OnlyCandidate(fs: seq<File>, u: Bytes, s: nat, f: File, i: nat)
    requires Disjoint(fs) && f in fs && FileOk(f) && MayHold(f, u, s)
    requires i <= |fs| && (i < |fs| ==> !KeyLess(fs[i].largest, Target(u, s)))
    requires forall j :: 0 <= j < i ==> KeyLess(fs[j].largest, Target(u, s))
    ensures i < |fs| && fs[i] == f
  {
    var j :| 0 <= j < |fs| && fs[j] == f;
    assert i <= j;
    LtOrder();
    hide Lt;
    assert !(i < j);
  }

  /** A file with a visible version may hold the key. */
  lemma {:induction false} SeenMayHold(f: File, u: Bytes, s: nat)
    requires FileOk(f) && Sees(f, u, s)
    ensures MayHold(f, u, s)
  {
    var e :| Visible(EntrySet(f.entries), u, s, e);
    EntryInFile(f, e);
    LastNotBefore(f, e);
    LtOrder();
    hide Lt;
  }

  lemma {:induction false} LastNotBefore(f: File, e: Entry)
    requires FileOk(f) && e in f.entries
    ensures !KeyLess(f.largest, e.key)
  {
    var i :| 0 <= i < |f.entries| && f.entries[i] == e;
    KeyOrder();
    hide KeyLess;
    assert i < |f.entries| - 1 ==> KeyLess(e.key, f.entries[|f.entries| - 1].key);
  }

  // ----- reading a version -----

  /** How a file's table is read: its blocks, and its filter's answer for a block. */
  datatype Reader = Reader(blocks: File -> Blocks.Blocks, may: File -> nat -> bool)

  /** The file is a built table with just its entries, and a filter without false negatives for the key. */
  ghost predicate Built(rd: Reader, f: File, u: Bytes) {
    && Blocks.TableOk(rd.blocks(f)) && Blocks.Flat(rd.blocks(f).data) == f.entries
    && Blocks.NoFalseNegatives(rd.blocks(f), rd.may(f), u)
  }

  ghost function ReachOf(rd: Reader, u: Bytes, s: nat): Reach {
    (f: File) => Blocks.TableOk(rd.blocks(f)) && Reached(rd.blocks(f), rd.may(f), Target(u, s))
  }

  /** A table that has a visible version gives up on the lookup. */
  ghost predicate GivesUp(rd: Reader, f: File, u: Bytes, s: nat)
    requires Built(rd, f, u)
  {
    Blocks.Misses(rd.blocks(f), Target(u, s))
  }

  lemma {:induction false} BuiltReaches(rd: Reader, fs: seq<File>, u: Bytes, s: nat)
    requires forall f :: f in fs ==> Built(rd, f, u)
    ensures ReachesSeen(ReachOf(rd, u, s), fs, u, s) <==> forall f :: f in fs && Sees(f, u, s) ==> !GivesUp(rd, f, u, s)
  {
    hide Reached;
    hide Blocks.Misses;
    hide Blocks.TableOk;
    hide Blocks.NoFalseNegatives;
    forall f | f in fs && Sees(f, u, s) ensures ReachOf(rd, u, s)(f) <==> !GivesUp(rd, f, u, s) {
      var e :| Visible(EntrySet(f.entries), u, s, e);
      HeldReached(rd.blocks(f), rd.may(f), u, s, e);
    }
  }

  method VersionGet(rd: Reader, v: seq<seq<File>>, u: Bytes, s: nat) returns (r: Option<Bytes>)
    requires |v| == NUM_LEVELS && forall l, f :: 0 <= l < NUM_LEVELS && f in v[l] ==> Built(rd, f, u)
    ensures r == Search(ReachOf(rd, u, s), ProbesFor(v, u, s), u, s)
  {
    hide ChosenFor;
    hide Built;
    hide Stops;
    hide Hit;
    hide Search;
    hide ReachOf;
    ghost var reach := ReachOf(rd, u, s);
    var levels := GetOverlapping(v, u, s);
    ChosenBuilt(rd, v, u, s);
    assert levels[..|levels|] == levels;
    for level := 0 to |levels|
      invariant forall f :: f in Concat(levels[..level]) ==> !Stops(reach, f, u, s)
    {
      assert levels[..level + 1][..level] == levels[..level];
      var stopped;
      ghost var i;
      stopped, r, i := AskLevel(rd, levels[level], u, s);
      if stopped {
        StopsHere(reach, levels, level, i, u, s);
        return;
      }
    }
    NoStops(reach, Concat(levels), u, s);
    r := None;
  }

  /** Asks the files of a level until the search stops. */
  method AskLevel(rd: Reader, files: seq<File>, u: Bytes, s: nat) returns (stopped: bool, r: Option<Bytes>, ghost at: nat)
    requires forall f :: f in files ==> Built(rd, f, u)
    ensures stopped ==> at < |files| && Stops(ReachOf(rd, u, s), files[at], u, s)
    ensures stopped ==> r == Meaning(Hit(ReachOf(rd, u, s), files[at], u, s).value)
    ensures stopped ==> forall f :: f in files[..at] ==> !Stops(ReachOf(rd, u, s), f, u, s)
    ensures !stopped ==> forall f :: f in files ==> !Stops(ReachOf(rd, u, s), f, u, s)
  {
    hide Built;
    hide Stops;
    hide Hit;
    hide ReachOf;
    ghost var reach := ReachOf(rd, u, s);
    for i := 0 to |files|
      invariant forall f :: f in files[..i] ==> !Stops(reach, f, u, s)
    {
      var hit := ReadTable(rd, files[i], u, s);
      HitStops(reach, files[i], u, s);
      if hit.Some? && (hit.value.key.ukey == u || hit.value.key.typ.TypeDeletion?) {
        return true, Meaning(hit.value), i;
      }
      assert files[..i + 1] == files[..i] + [files[i]];
    }
    assert files[..|files|] == files;
    return false, None, 0;
  }

  lemma {:induction false} HitStops(reach: Reach, f: File, u: Bytes, s: nat)
    ensures var hit := Hit(reach, f, u, s);
            Stops(reach, f, u, s) <==> hit.Some? && (hit.value.key.ukey == u || hit.value.key.typ.TypeDeletion?)
  {
  }

  method ReadTable(rd: Reader, f: File, u: Bytes, s: nat) returns (hit: Option<Entry>)
    requires Built(rd, f, u)
    ensures hit == Hit(ReachOf(rd, u, s), f, u, s)
  {
    hide Reached;
    hide FirstFrom;
    hide Blocks.TableOk;
    hide Blocks.NoFalseNegatives;
    hit := LookUp(rd.blocks(f), rd.may(f), u, s);
  }

  lemma {:induction false} ChosenBuilt(rd: Reader, v: seq<seq<File>>, u: Bytes, s: nat)
    requires |v| == NUM_LEVELS && forall l, f :: 0 <= l < NUM_LEVELS && f in v[l] ==> Built(rd, f, u)
    ensures forall l, f :: 0 <= l < NUM_LEVELS && f in ChosenFor(v, u, s)[l] ==> Built(rd, f, u)
  {
    hide Built;
    hide ByNumber;
    hide Ranging;
    ByNumberIs(Ranging(v[0], u));
  }

  lemma {:induction false} NoStops(reach: Reach, fs: seq<File>, u: Bytes, s: nat)
    requires forall f :: f in fs ==> !Stops(reach, f, u, s)
    ensures Search(reach, fs, u, s) == None
  {
    hide Stops;
    if fs != [] {
      assert fs[0] in fs;
      NoStops(reach, fs[1..], u, s);
    }
  }

  lemma {:induction false} StopsAt(reach: Reach, fs: seq<File>, f: File, rest: seq<File>, u: Bytes, s: nat)
    requires (forall g :: g in fs ==> !Stops(reach, g, u, s)) && Stops(reach, f, u, s)
    ensures Search(reach, fs + ([f] + rest), u, s) == Meaning(Hit(reach, f, u, s).value)
  {
    hide Hit;
    if fs == [] {
      assert fs + ([f] + rest) == [f] + rest;
    } else {
      assert fs[0] in fs;
      assert (fs + ([f] + rest))[1..] == fs[1..] + ([f] + rest);
      StopsAt(reach, fs[1..], f, rest, u, s);
    }
  }

  lemma {:induction false} ConcatSplit(levels: seq<seq<File>>, n: nat) returns (rest: seq<File>)
    requires n <= |levels|
    ensures Concat(levels) == Concat(levels[..n]) + rest
  {
    if n == |levels| {
      assert levels[..n] == levels;
      rest := [];
    } else {
      rest := ConcatSplit(levels[..|levels| - 1], n);
      assert levels[..|levels| - 1][..n] == levels[..n];
      rest := rest + levels[|levels| - 1];
    }
  }

  lemma {:induction false} StopsHere(reach: Reach, levels: seq<seq<File>>, level: nat, i: nat, u: Bytes, s: nat)
    requires level < |levels| && i < |levels[level]| && Stops(reach, levels[level][i], u, s)
    requires forall f :: f in Concat(levels[..level]) ==> !Stops(reach, f, u, s)
    requires forall f :: f in levels[level][..i] ==> !Stops(reach, f, u, s)
    ensures Search(reach, Concat(levels), u, s) == Meaning(Hit(reach, levels[level][i], u, s).value)
  {
    hide Stops;
    hide Hit;
    hide Search;
    var files, before := levels[level], Concat(levels[..level]);
    var rest := ConcatSplit(levels, level + 1);
    assert levels[..level + 1][..level] == levels[..level];
    assert files == files[..i] + [files[i]] + files[i + 1..];
    assert Concat(levels) == (before + files[..i]) + ([files[i]] + (files[i + 1..] + rest));
    StopsAt(reach, before + files[..i], files[i], files[i + 1..] + rest, u, s);
  }

  /** The probed files are of the version, newest first for the key, and include every file that sees it. */
  ghost predicate ProbesOk(v: seq<seq<File>>, probes: seq<File>, u: Bytes, s: nat) {
    && NewestFirst(probes, u)
    && (forall f :: f in probes ==> exists l :: 0 <= l < |v| && f in v[l])
    && (forall l, f :: 0 <= l < |v| && f in v[l] && Sees(f, u, s) ==> f in probes)
  }

  /** What the files chosen on each level must be. */
  ghost predicate ChosenOk(v: seq<seq<File>>, levels: seq<seq<File>>, u: Bytes, s: nat) {
    && |v| == |levels| == NUM_LEVELS && NumsDescend(levels[0]) && NumsDistinct(levels[0])
    && (forall f :: f in levels[0] <==> f in v[0] && KeyInRange(f, u))
    && forall l :: 1 <= l < NUM_LEVELS ==> IsCandidate(v[l], levels[l], u, s)
  }

  lemma {:induction false} LayerPair(st: State, a: nat, b: nat, f: File, g: File, u: Bytes)
    requires StoreOk(st) && a < b < NUM_LEVELS && f in st.files[a] && g in st.files[b]
    ensures NewerFor(f, g, u)
  {
    assert Newer(Layer(st, a + 2), Layer(st, b + 2));
    hide Newer;
    forall e, x | e in f.entries && x in g.entries && e.key.ukey == u == x.key.ukey ensures e.key.seqno > x.key.seqno {
      assert e in Layer(st, a + 2) && x in Layer(st, b + 2);
      PairNewer(Layer(st, a + 2), Layer(st, b + 2), e, x);
    }
  }

  lemma {:induction false} PairNewer(A: set<Entry>, B: set<Entry>, e: Entry, x: Entry)
    requires Newer(A, B) && e in A && x in B && e.key.ukey == x.key.ukey
    ensures e.key.seqno > x.key.seqno
  {
  }

  lemma {:induction false} TopPair(st: State, f: File, g: File, u: Bytes)
    requires StoreOk(st) && f in st.files[0] && g in st.files[0] && f.num > g.num
    ensures NewerFor(f, g, u)
  {
    hide FilesOk;
    hide LayersOk;
    assert Newer(EntrySet(f.entries), EntrySet(g.entries));
    forall e, x | e in f.entries && x in g.entries && e.key.ukey == u == x.key.ukey ensures e.key.seqno > x.key.seqno {
      assert e in EntrySet(f.entries) && x in EntrySet(g.entries);
    }
  }

  lemma {:induction false} ConcatFrom(levels: seq<seq<File>>, f: File) returns (l: nat)
    requires f in Concat(levels)
    ensures l < |levels| && f in levels[l]
  {
    var n := |levels| - 1;
    if f in levels[n] {
      l := n;
    } else {
      l := ConcatFrom(levels[..n], f);
    }
  }

  lemma {:induction false} ConcatHas(levels: seq<seq<File>>, l: nat, f: File)
    requires l < |levels| && f in levels[l]
    ensures f in Concat(levels)
  {
    if l < |levels| - 1 {
      ConcatHas(levels[..|levels| - 1], l, f);
    }
  }

  /** Files of one level, and then of the levels one after the other, come newest first. */
  lemma {:induction false} ChosenNewestFirst(st: State, levels: seq<seq<File>>, u: Bytes, s: nat, n: nat)
    requires StoreOk(st) && ChosenOk(st.files, levels, u, s) && n <= NUM_LEVELS
    ensures NewestFirst(Concat(levels[..n]), u)
  {
    hide StoreOk;
    hide NewerFor;
    hide KeyInRange;
    if n > 0 {
      ChosenNewestFirst(st, levels, u, s, n - 1);
      var a, b := Concat(levels[..n - 1]), levels[n - 1];
      assert levels[..n][..n - 1] == levels[..n - 1];
      assert forall f :: f in b ==> f in st.files[n - 1] by {
        assert n > 1 ==> IsCandidate(st.files[n - 1], b, u, s);
      }
      assert NewestFirst(b, u) by {
        if n == 1 {
          forall i, j | 0 <= i < j < |b| ensures NewerFor(b[i], b[j], u) {
            assert b[i].num >= b[j].num && b[i].num != b[j].num;
            TopPair(st, b[i], b[j], u);
          }
        } else {
          assert IsCandidate(st.files[n - 1], b, u, s);
        }
      }
      forall f, g | f in a && g in b ensures NewerFor(f, g, u) {
        var l := ConcatFrom(levels[..n - 1], f);
        assert l > 0 ==> IsCandidate(st.files[l], levels[l], u, s);
        LayerPair(st, l, n - 1, f, g, u);
      }
      NewestConcat(a, b, u);
    }
  }

  lemma {:induction false} NewestConcat(a: seq<File>, b: seq<File>, u: Bytes)
    requires NewestFirst(a, u) && NewestFirst(b, u) && forall f, g :: f in a && g in b ==> NewerFor(f, g, u)
    ensures NewestFirst(a + b, u)
  {
    hide NewerFor;
    var c := a + b;
    forall i, j | 0 <= i < j < |c| ensures NewerFor(c[i], c[j], u) {
      if i < |a| <= j {
        assert c[i] in a && c[j] in b;
      }
    }
  }

  /** The files to ask: those of level 0 with the key in range, and deeper those that may hold it. */
  ghost predicate ToAsk(v: seq<seq<File>>, f: File, u: Bytes, s: nat) {
    exists l :: 0 <= l < |v| && f in v[l] && (if l == 0 then KeyInRange(f, u) else MayHold(f, u, s))
  }

  /** In a valid store the files asked are exactly those, newest first, and include every one with a visible version. */
  lemma {:induction false} ProbesFit(v: seq<seq<File>>, u: Bytes, s: nat, next: nat, q: nat)
    requires StoreOk(State([], [], v, next, q))
    ensures ProbesOk(v, ProbesFor(v, u, s), u, s) && forall f :: f in ProbesFor(v, u, s) <==> ToAsk(v, f, u, s)
  {
    assert LevelFilesOk(v[0], next);
    ChosenIs(v, u, s);
    var levels := ChosenFor(v, u, s);
    hide ChosenFor;
    hide Sees;
    hide NewestFirst;
    hide LayersOk;
    hide MayHold;
    hide KeyInRange;
    var st := State([], [], v, next, q);
    ChosenNewestFirst(st, levels, u, s, NUM_LEVELS);
    assert levels[..NUM_LEVELS] == levels;
    forall f | f in Concat(levels) ensures ToAsk(v, f, u, s) {
      var l := ConcatFrom(levels, f);
      assert l > 0 ==> IsCandidate(v[l], levels[l], u, s);
      assert f in v[l];
    }
    forall l, f | 0 <= l < |v| && f in v[l] && (if l == 0 then KeyInRange(f, u) else MayHold(f, u, s)) ensures f in Concat(levels) {
      assert LevelFilesOk(v[l], next);
      assert l > 0 ==> IsCandidate(v[l], levels[l], u, s);
      ConcatHas(levels, l, f);
    }
    forall l, f | 0 <= l < |v| && f in v[l] && Sees(f, u, s) ensures f in Concat(levels) {
      assert LevelFilesOk(v[l], next);
      SeenInRange(f, u, s);
      SeenMayHold(f, u, s);
    }
  }

  lemma {:induction false} SeenInRange(f: File, u: Bytes, s: nat)
    requires FileOk(f) && Sees(f, u, s)
    ensures KeyInRange(f, u)
  {
    var e :| Visible(EntrySet(f.entries), u, s, e);
    EntryInFile(f, e);
  }

  // ----- a whole read -----

  lemma {:induction false} SameVisible(A: set<Entry>, B: set<Entry>, u: Bytes, s: nat)
    requires Distinct(A) && Distinct(B) && forall x :: Visible(A, u, s, x) <==> Visible(B, u, s, x)
    ensures ReadAt(A, u, s) == ReadAt(B, u, s)
  {
    if n :| IsNewest(A, u, s, n) {
      assert IsNewest(B, u, s, n);
      ReadIs(A, u, s, n);
      ReadIs(B, u, s, n);
    } else {
      assert forall x :: IsNewest(B, u, s, x) ==> IsNewest(A, u, s, x);
    }
  }

  /** The key has no visible version in the memtables. */
  ghost predicate NotInMemory(st: State, u: Bytes, s: nat) {
    forall e :: !Visible(EntrySet(st.mem), u, s, e) && !Visible(EntrySet(st.imm), u, s, e)
  }

  /** A memtable's answer: a value, a deletion, or neither. */
  function MemGet(mem: seq<Entry>, u: Bytes, s: nat): (Option<Bytes>, bool) {
    var hit := FirstFrom(mem, Target(u, s));
    if hit.Some? && hit.value.key.ukey == u then (Meaning(hit.value), hit.value.key.typ.TypeDeletion?) else (None, false)
  }

  /** A memtable that sees the key has the newest version. */
  lemma {:induction false} MemoryReads(st: State, i: nat, u: Bytes, s: nat, e: Entry)
    requires StoreOk(st) && i < 2 && IsNewest(Layer(st, i), u, s, e)
    requires i == 1 ==> forall x :: !Visible(Layer(st, 0), u, s, x)
    ensures ReadAt(AllEntries(st), u, s) == Meaning(e)
  {
    hide Layer;
    hide FilesOk;
    hide NewerByNumber;
    StoreDistinct(st);
    assert forall x :: x in Layer(st, i) ==> x in AllEntries(st);
    forall x | Visible(AllEntries(st), u, s, x) ensures x.key.seqno <= e.key.seqno {
      var j :| 0 <= j < NUM_LAYERS && x in Layer(st, j);
      assert Visible(Layer(st, j), u, s, x);
      assert i < j ==> Newer(Layer(st, i), Layer(st, j));
    }
    ReadIs(AllEntries(st), u, s, e);
  }

  lemma {:induction false} FilesRead(st: State, probes: seq<File>, u: Bytes, s: nat)
    requires StoreOk(st) && NotInMemory(st, u, s) && ProbesOk(st.files, probes, u, s)
    ensures Distinct(Contents(probes)) && ReadAt(AllEntries(st), u, s) == ReadAt(Contents(probes), u, s)
    ensures forall f :: f in probes ==> Sorted(f.entries)
  {
    hide LayersOk;
    hide NewerByNumber;
    hide NewestFirst;
    StoreDistinct(st);
    var A, B := AllEntries(st), Contents(probes);
    forall f | f in probes ensures Sorted(f.entries) && EntrySet(f.entries) <= A {
      var l :| 0 <= l < NUM_LEVELS && f in st.files[l];
      assert LevelFilesOk(st.files[l], st.nextFile);
      assert EntrySet(f.entries) <= Layer(st, l + 2);
    }
    assert B <= A;
    forall x | Visible(A, u, s, x) ensures Visible(B, u, s, x) {
      var i :| 0 <= i < NUM_LAYERS && x in Layer(st, i);
      assert Visible(Layer(st, i), u, s, x);
      assert i >= 2;
      var f :| f in st.files[i - 2] && x in f.entries;
      assert Visible(EntrySet(f.entries), u, s, x);
      assert Sees(f, u, s);
    }
    SameVisible(A, B, u, s);
  }

  /** A newer file has a deletion of a later key; the key's value is in an older file. The search that gets there finds nothing. */
  lemma {:induction false} HiddenBehind(reach: Reach, a: Entry, c: Entry, b: Entry, s: nat)
    requires KeyLess(a.key, Target(b.key.ukey, s)) && !KeyLess(c.key, Target(b.key.ukey, s)) && KeyLess(a.key, c.key)
    requires c.key.typ.TypeDeletion? && b.key.seqno <= s
    requires a.key.ukey != b.key.ukey && c.key.ukey != b.key.ukey && a.key.ukey != c.key.ukey
    ensures var fs := [File(5, 0, a.key, c.key, [a, c]), File(4, 0, b.key, b.key, [b])];
            && FileOk(fs[0]) && FileOk(fs[1]) && NewestFirst(fs, b.key.ukey) && Distinct(Contents(fs))
            && ReadAt(Contents(fs), b.key.ukey, s) == Meaning(b)
            && (reach(fs[0]) ==> Search(reach, fs, b.key.ukey, s) == None)
  {
    hide FirstFrom;
    hide Contents;
    hide KeyLess;
    var f, g, u := File(5, 0, a.key, c.key, [a, c]), File(4, 0, b.key, b.key, [b]), b.key.ukey;
    SecondFound(a, c, Target(u, s));
    assert reach(f) ==> Stops(reach, f, u, s);
    TwoFiles(f, g);
    assert EntrySet([a, c]) == {a, c} && EntrySet([b]) == {b};
    assert NewerFor(f, g, u);
    OneVersion(Contents([f, g]), u, s, b);
  }

  /** Files of one block each, read without a filter. */
  function Plain(): Reader {
    Reader((f: File) => Blocks.Single(f.entries), (f: File) => (i: nat) => true)
  }

  lemma {:induction false} PlainReads(f: File, u: Bytes, s: nat)
    requires FileOk(f) && f.largest.ukey != [] && !Lt(f.largest.ukey, u)
    ensures Built(Plain(), f, u) && !GivesUp(Plain(), f, u, s) && ReachOf(Plain(), u, s)(f)
  {
    hide Blocks.TableOk;
    hide Blocks.Misses;
    hide Blocks.Single;
    Blocks.SingleIs(f.entries, Target(u, s));
  }

  /** Two level-0 files without gaps or filters: the deletion of a later key in the newer one hides the older one's value. */
  lemma {:induction false} OtherDeletionHides() returns (st: State, u: Bytes, s: nat)
    ensures StoreOk(st) && st.mem == st.imm == [] && forall l, f :: 0 <= l < |st.files| && f in st.files[l] ==> Built(Plain(), f, u)
    ensures forall f :: f in ProbesFor(st.files, u, s) ==> Built(Plain(), f, u) && !GivesUp(Plain(), f, u, s)
    ensures Search(ReachOf(Plain(), u, s), ProbesFor(st.files, u, s), u, s) == None
    ensures ReadAt(AllEntries(st), u, s) == Some([7])
  {
    hide Lt;
    hide Search;
    hide ReadAt;
    hide Plain;
    hide Built;
    hide GivesUp;
    hide ReachOf;
    hide StoreOk;
    hide AllEntries;
    hide ProbesFor;
    hide FileOk;
    var a, c := Entry(InternalKey([1], 8, TypeValue), []), Entry(InternalKey([3], 9, TypeDeletion), []);
    var b := Entry(InternalKey([2], 1, TypeValue), [7]);
    var f, g := File(5, 0, a.key, c.key, [a, c]), File(4, 0, b.key, b.key, [b]);
    u, s := [2], 9;
    st := State([], [], TopOnly([f, g]), 6, 9);
    SmallKeys();
    HiddenBehind(ReachOf(Plain(), u, s), a, c, b, s);
    PlainReads(f, u, s);
    PlainReads(g, u, s);
    HidingStore(a, c, b);
    HidingProbes(f, g, u, s);
  }

  lemma {:induction false} HidingStore(a: Entry, c: Entry, b: Entry)
    requires var f, g := File(5, 0, a.key, c.key, [a, c]), File(4, 0, b.key, b.key, [b]);
             FileOk(f) && FileOk(g) && KeyLess(a.key, b.key)
    requires a.key.ukey != b.key.ukey && c.key.ukey != b.key.ukey
    requires 0 < a.key.seqno <= 9 && 0 < b.key.seqno <= 9 && 0 < c.key.seqno <= 9
    ensures var f, g := File(5, 0, a.key, c.key, [a, c]), File(4, 0, b.key, b.key, [b]);
            var st := State([], [], TopOnly([f, g]), 6, 9);
            StoreOk(st) && AllEntries(st) == Contents([f, g])
  {
    KeyOrder();
    hide KeyLess;
    hide FileOk;
    var f, g := File(5, 0, a.key, c.key, [a, c]), File(4, 0, b.key, b.key, [b]);
    TwoFiles(f, g);
    assert EntrySet([a, c]) == {a, c} && EntrySet([b]) == {b};
    assert LevelFilesOk([f, g], 6);
    assert SortedBySmallest([f, g]);
    assert NewerByNumber([f, g]);
    TopStoreOk([], [f, g], 6, 9);
  }

  lemma {:induction false} HidingProbes(f: File, g: File, u: Bytes, s: nat)
    requires f.num > g.num && KeyInRange(f, u) && KeyInRange(g, u)
    ensures ProbesFor(TopOnly([f, g]), u, s) == [f, g]
  {
    hide KeyInRange;
    hide ProbesFor;
    RangingBoth(f, g, u);
    SortedBoth(f, g);
    TopProbes([f, g], u, s);
  }

  lemma {:induction false} RangingBoth(f: File, g: File, u: Bytes)
    requires KeyInRange(f, u) && KeyInRange(g, u)
    ensures Ranging([f, g], u) == [f, g]
  {
    hide KeyInRange;
    assert [f, g][..1] == [f] && [f][..0] == [];
    assert Ranging([f], u) == [f];
  }

  lemma {:induction false} SortedBoth(f: File, g: File)
    requires f.num > g.num
    ensures ByNumber([f, g]) == [f, g]
  {
    assert [f, g][..1] == [f] && [f][..0] == [];
    assert ByNumber([f]) == PutByNumber([], f) == [f];
    assert PutByNumber([f], g) == [f] + [g];
  }

  /** With files on level 0 only, they alone are asked. */
  lemma {:induction false} TopProbes(top: seq<File>, u: Bytes, s: nat)
    ensures ProbesFor(TopOnly(top), u, s) == ByNumber(Ranging(top, u))
  {
    hide ByNumber;
    hide Ranging;
    hide TopOnly;
    var levels := ChosenFor(TopOnly(top), u, s);
    assert levels[0] == ByNumber(Ranging(top, u)) && forall l :: 1 <= l < |levels| ==> levels[l] == [];
    hide ChosenFor;
    EmptyBehind(levels, |levels|);
    assert levels[..|levels|] == levels;
  }

  lemma {:induction false} EmptyBehind(levels: seq<seq<File>>, n: nat)
    requires 0 < n <= |levels| && forall l :: 1 <= l < |levels| ==> levels[l] == []
    ensures Concat(levels[..n]) == levels[0]
  {
    if n > 1 {
      EmptyBehind(levels, n - 1);
      assert levels[..n][..n - 1] == levels[..n - 1];
    } else {
      assert levels[..1][..0] == [];
    }
  }

  lemma {:induction false} SecondFound(a: Entry, c: Entry, to: InternalKey)
    requires KeyLess(a.key, to) && !KeyLess(c.key, to)
    ensures FirstFrom([a, c], to) == Some(c)
  {
    hide KeyLess;
    assert [a, c][1..] == [c];
    assert FirstFrom([c], to) == Some(c);
  }

  lemma {:induction false} OneVersion(S: set<Entry>, u: Bytes, s: nat, b: Entry)
    requires Distinct(S) && Visible(S, u, s, b) && forall e :: e in S && e.key.ukey == u ==> e == b
    ensures ReadAt(S, u, s) == Meaning(b)
  {
    assert IsNewest(S, u, s, b);
    ReadIs(S, u, s, b);
  }

  lemma {:induction false} SmallKeys()
    ensures Lt([1], [2]) && Lt([2], [3]) && Lt([1], [3]) && !Lt([2], [1]) && !Lt([3], [2]) && !Lt([2], [2]) && !Lt([3], [3])
    ensures var one: Bytes, two: Bytes, three: Bytes := [1], [2], [3]; one != two && two != three && one != three
  {
    var one: Bytes, two: Bytes, three: Bytes := [1], [2], [3];
    assert one[0] != two[0] && two[0] != three[0] && one[0] != three[0];
  }

  lemma {:induction false} TwoFiles(f: File, g: File)
    ensures Contents([f, g]) == EntrySet(f.entries) + EntrySet(g.entries)
  {
    assert f in [f, g] && g in [f, g];
  }
}
