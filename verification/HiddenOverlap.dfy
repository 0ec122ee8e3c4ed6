/** A flush below a level-0 file that the overlap test passes over: a read then finds an older version. */
module HiddenOverlap {
  import opened Bytes
  import opened Entries
  import opened Version
  import opened VersionBuilder
  import opened Store
  import opened WriteSteps
  import opened PointReads
  import opened Database

  /** A wide level-0 file with versions a, b, c, and a narrow one with d, e. */
  function HidingTop(a: Entry, b: Entry, c: Entry, d: Entry, e: Entry): seq<File> {
    [File(4, 0, a.key, c.key, [a, b, c]), File(5, 0, d.key, e.key, [d, e])]
  }

  /** The narrow file begins and ends between a and b, and x is a newer version of b's key. */
  ghost predicate Hiding(a: Entry, b: Entry, c: Entry, d: Entry, e: Entry, x: Entry) {
    && Lt(a.key.ukey, d.key.ukey) && Lt(d.key.ukey, e.key.ukey) && Lt(e.key.ukey, b.key.ukey) && Lt(b.key.ukey, c.key.ukey)
    && x.key.ukey == b.key.ukey && x.key.seqno == 6
    && a.key.seqno == 1 && b.key.seqno == 2 && c.key.seqno == 3 && d.key.seqno == 4 && e.key.seqno == 5
    && a.key.ukey != [] && b.key.typ.TypeValue? && x.key.typ.TypeValue?
  }

  lemma {:induction false} HidingKeys(a: Entry, b: Entry, c: Entry, d: Entry, e: Entry, x: Entry)
    requires Hiding(a, b, c, d, e, x)
    ensures KeyLess(a.key, b.key) && KeyLess(b.key, c.key) && KeyLess(a.key, c.key) && KeyLess(d.key, e.key)
    ensures !KeyLess(d.key, a.key)
    ensures forall m, n :: m in {a, b, c} && n in {d, e} ==> m.key.ukey != n.key.ukey
    ensures forall n :: n in {a, b, c, d, e} && n.key.ukey == x.key.ukey ==> n.key.seqno == 2
  {
    LtOrder();
    hide Lt;
  }

  lemma {:induction false} HidingFiles(a: Entry, b: Entry, c: Entry, d: Entry, e: Entry, x: Entry)
    requires Hiding(a, b, c, d, e, x)
    ensures LevelFilesOk(HidingTop(a, b, c, d, e), 6) && SortedBySmallest(HidingTop(a, b, c, d, e))
  {
    HidingKeys(a, b, c, d, e, x);
    hide Lt;
    hide KeyLess;
    hide Hiding;
    var top := HidingTop(a, b, c, d, e);
    assert FileOk(top[0]) && FileOk(top[1]);
    hide FileOk;
  }

  lemma {:induction false} HidingContents(a: Entry, b: Entry, c: Entry, d: Entry, e: Entry, x: Entry)
    requires Hiding(a, b, c, d, e, x)
    ensures Contents(HidingTop(a, b, c, d, e)) == {a, b, c} + {d, e} && NewerByNumber(HidingTop(a, b, c, d, e))
  {
    HidingKeys(a, b, c, d, e, x);
    hide Lt;
    hide KeyLess;
    hide Hiding;
    hide Contents;
    var p, g := HidingTop(a, b, c, d, e)[0], HidingTop(a, b, c, d, e)[1];
    TwoFiles(p, g);
    Sets(a, b, c, d, e);
    assert [p, g] == HidingTop(a, b, c, d, e) && p.num == 4 && g.num == 5;
    assert p.entries == [a, b, c] && g.entries == [d, e];
    hide HidingTop;
    hide EntrySet;
    assert Newer({d, e}, {a, b, c});
  }

  lemma {:induction false} Sets(a: Entry, b: Entry, c: Entry, d: Entry, e: Entry)
    ensures EntrySet([a, b, c]) == {a, b, c} && EntrySet([d, e]) == {d, e} && EntrySet([a]) == {a}
  {
  }

  lemma {:induction false} HidingNewer(a: Entry, b: Entry, c: Entry, d: Entry, e: Entry, x: Entry)
    requires Hiding(a, b, c, d, e, x)
    ensures Newer({x}, {a, b, c} + {d, e}) && forall n :: n in {x} + ({a, b, c} + {d, e}) ==> 0 < n.key.seqno <= 6
  {
    hide Lt;
    hide KeyLess;
    HidingKeys(a, b, c, d, e, x);
  }

  lemma {:induction false} HidingTopOk(a: Entry, b: Entry, c: Entry, d: Entry, e: Entry, x: Entry)
    requires Hiding(a, b, c, d, e, x)
    ensures var top := HidingTop(a, b, c, d, e);
            && StoreOk(State([], [x], TopOnly(top), 6, 6))
            && AllEntries(State([], [x], TopOnly(top), 6, 6)) == {x} + ({a, b, c} + {d, e})
  {
    hide LevelFilesOk;
    hide SortedBySmallest;
    hide NewerByNumber;
    hide Newer;
    hide HidingTop;
    hide Hiding;
    hide Contents;
    hide EntrySet;
    hide StoreOk;
    hide AllEntries;
    hide TopOnly;
    HidingNewer(a, b, c, d, e, x);
    HidingFiles(a, b, c, d, e, x);
    HidingContents(a, b, c, d, e, x);
    Sets(x, x, x, x, x);
    OneSorted(x);
    TopStoreOk([x], HidingTop(a, b, c, d, e), 6, 6);
  }

  lemma {:induction false} OneSorted(x: Entry)
    ensures Sorted([x])
  {
  }

  lemma {:induction false} HidingTopHides(a: Entry, b: Entry, c: Entry, d: Entry, e: Entry, x: Entry)
    requires Hiding(a, b, c, d, e, x)
    ensures var v := TopOnly(HidingTop(a, b, c, d, e));
            && OverlapHidden(v, [x]) && PassesOver(v, 0, x.key.ukey, x.key.ukey) && PassesOver(v, 1, x.key.ukey, x.key.ukey)
  {
    LtOrder();
    hide Lt;
    var top, u := HidingTop(a, b, c, d, e), x.key.ukey;
    var key := InternalKey(u, MAX_SEQUENCE_NUMBER, TypeValue);
    assert KeyLess(top[1].largest, key);
    assert Found(top, key, 2, 2) == 2 && Found(top, key, 0, 2) == Found(top, key, 2, 2);
    assert Select([], u, u) == [] && SizeOf([]) == 0;
    assert b in top[0].entries && top[0] in top;
    assert b in Contents(top) && x in EntrySet([x]);
  }

  /**
   * The source flushes such a memtable to level 2, below a level-0 file with an older version of its key. The order of
   * the layers is lost, and a read finds the older version.
   */
  lemma {:induction false} HiddenFlushReads(reach: Reach, a: Entry, b: Entry, c: Entry, d: Entry, e: Entry, x: Entry)
    requires Hiding(a, b, c, d, e, x) && forall g :: reach(g)
    ensures var s, f := State([], [x], TopOnly(HidingTop(a, b, c, d, e)), 6, 6), File(6, 0, x.key, x.key, [x]);
            && StoreOk(s) && FlushFile(s, f) && OverlapHidden(s.files, s.imm)
            && (forall l :: 0 <= l < 2 ==> PassesOver(s.files, l, f.smallest.ukey, f.largest.ukey))
            && !StoreOk(Flushed(s, 2, f))
            && ReadAt(AllEntries(Flushed(s, 2, f)), x.key.ukey, 6) == Some(x.val)
            && Search(reach, ProbesFor(Flushed(s, 2, f).files, x.key.ukey, 6), x.key.ukey, 6) == Some(b.val)
  {
    hide StoreOk;
    hide AllEntries;
    hide Contents;
    hide PassesOver;
    hide OverlapHidden;
    hide Search;
    hide ProbesFor;
    hide SortFiles;
    hide HidingTop;
    hide KeepsOrder;
    var s, f := State([], [x], TopOnly(HidingTop(a, b, c, d, e)), 6, 6), File(6, 0, x.key, x.key, [x]);
    HidingTopOk(a, b, c, d, e, x);
    HidingTopHides(a, b, c, d, e, x);
    FlushOk(s, 2, f);
    FlushKeepsEntries(s, 2, f);
    HidingOrder(a, b, c, d, e, x, f);
    HidingRead(a, b, c, d, e, x);
    HidingSearch(reach, Flushed(s, 2, f).files, a, b, c, d, e, x);
  }

  lemma {:induction false} HidingOrder(a: Entry, b: Entry, c: Entry, d: Entry, e: Entry, x: Entry, f: File)
    requires Hiding(a, b, c, d, e, x) && f.entries == [x]
    ensures !KeepsOrder(TopOnly(HidingTop(a, b, c, d, e)), 2, f)
  {
    hide Disjoint;
    hide SortFiles;
    hide PassesOver;
    hide DisjointTest;
    HidingTopHides(a, b, c, d, e, x);
  }

  lemma {:induction false} HidingRead(a: Entry, b: Entry, c: Entry, d: Entry, e: Entry, x: Entry)
    requires Hiding(a, b, c, d, e, x)
    ensures ReadAt({x} + ({a, b, c} + {d, e}), x.key.ukey, 6) == Some(x.val)
  {
    hide Lt;
    hide HidingTop;
    hide StoreOk;
    hide AllEntries;
    hide ReadAt;
    HidingTopOk(a, b, c, d, e, x);
    StoreDistinct(State([], [x], TopOnly(HidingTop(a, b, c, d, e)), 6, 6));
    hide Distinct;
    var S := {x} + ({a, b, c} + {d, e});
    assert forall y :: y in S ==> y.key.seqno <= 6;
    LatestReads(S, x);
  }

  lemma {:induction false} LatestReads(S: set<Entry>, x: Entry)
    requires Distinct(S) && x in S && forall y :: y in S ==> y.key.seqno <= x.key.seqno
    ensures ReadAt(S, x.key.ukey, x.key.seqno) == Meaning(x)
  {
    assert IsNewest(S, x.key.ukey, x.key.seqno, x);
    ReadIs(S, x.key.ukey, x.key.seqno, x);
  }

  lemma {:induction false} HidingSearch(reach: Reach, v: seq<seq<File>>, a: Entry, b: Entry, c: Entry, d: Entry, e: Entry, x: Entry)
    requires Hiding(a, b, c, d, e, x) && |v| == NUM_LEVELS && v[0] == HidingTop(a, b, c, d, e) && forall g :: reach(g)
    ensures Search(reach, ProbesFor(v, x.key.ukey, 6), x.key.ukey, 6) == Some(b.val)
  {
    LtOrder();
    hide Lt;
    var top, u := v[0], x.key.ukey;
    var p, g := top[0], top[1];
    assert top[..1] == [p] && [p][..0] == [];
    assert Ranging([p], u) == [p] && Ranging(top, u) == [p];
    assert ByNumber([p]) == PutByNumber([], p) == [p];
    var levels := ChosenFor(v, u, 6);
    assert levels[0] == [p];
    hide ChosenFor;
    var rest := ConcatSplit(levels, 1);
    assert levels[..1] == [[p]] && [[p]][..0] == [];
    assert Concat(levels[..1]) == [] + [p];
    assert ProbesFor(v, u, 6) == [p] + rest;
    assert p.entries[1..][0] == b;
    assert FirstFrom(p.entries[1..], Target(u, 6)) == Some(b);
    assert Stops(reach, p, u, 6);
    assert ([p] + rest)[0] == p;
  }

  /** Such entries exist. */
  lemma {:induction false} HidingExists() returns (a: Entry, b: Entry, c: Entry, d: Entry, e: Entry, x: Entry)
    ensures Hiding(a, b, c, d, e, x) && b.val == [0] && x.val == [1]
  {
    a, d, e := Entry(ByteKey(1, 1), []), Entry(ByteKey(2, 4), []), Entry(ByteKey(3, 5), []);
    b, c, x := Entry(ByteKey(5, 2), [0]), Entry(ByteKey(9, 3), []), Entry(ByteKey(5, 6), [1]);
  }

  function ByteKey(x: Byte, seqno: nat): InternalKey {
    InternalKey([x], seqno, TypeValue)
  }
}
