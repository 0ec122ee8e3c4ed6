/** The forward scan of a database at a snapshot (src/db_iter.rs). */
module DbIter {
  import opened Bytes
  import opened Entries
  import opened MergingIterator

  /** Entry i is the newest version of its user key with a sequence number at most s, and it is a value. */
  ghost predicate Yields(all: seq<Entry>, i: nat, s: nat)
    requires i < |all|
  {
    && all[i].key.seqno <= s
    && all[i].key.typ.TypeValue?
    && forall j :: 0 <= j < i && all[j].key.ukey == all[i].key.ukey ==> all[j].key.seqno > s
  }

  /** The reference result of a scan: the yielding entries, in order. */
  ghost function Scan(all: seq<Entry>, n: nat, s: nat): seq<(Bytes, Bytes)>
    requires n <= |all|
  {
    if n == 0 then []
    else Scan(all, n - 1, s) + if Yields(all, n - 1, s) then [(all[n - 1].key.ukey, all[n - 1].val)] else []
  }

  /** In a sorted sequence the first visible entry of a user key is its newest visible version. */
  lemma {:induction false} YieldsIsNewest(all: seq<Entry>, i: nat, s: nat)
    requires Sorted(all) && i < |all|
    ensures Yields(all, i, s) <==> IsNewest(EntrySet(all), all[i].key.ukey, s, all[i]) && all[i].key.typ.TypeValue?
  {
    var S, u := EntrySet(all), all[i].key.ukey;
    LtOrder();
    hide Lt;
    if Yields(all, i, s) {
      forall f | Visible(S, u, s, f) ensures f.key.seqno <= all[i].key.seqno {
        var j :| 0 <= j < |all| && all[j] == f;
      }
      assert Visible(S, u, s, all[i]);
    }
    if IsNewest(S, u, s, all[i]) {
      forall j | 0 <= j < i && all[j].key.ukey == u ensures all[j].key.seqno > s {
        assert KeyLess(all[j].key, all[i].key);
        assert all[j].key.seqno <= s ==> Visible(S, u, s, all[j]);
      }
    }
  }

  /** A scan lists exactly the user keys that read as a value at s, with that value. */
  lemma {:induction false} ScanIsReads(all: seq<Entry>, s: nat, u: Bytes, v: Bytes)
    requires Sorted(all)
    ensures (u, v) in Scan(all, |all|, s) <==> ReadAt(EntrySet(all), u, s) == Some(v)
  {
    var S := EntrySet(all);
    SortedDistinct(all);
    if (u, v) in Scan(all, |all|, s) {
      var i := ScanMember(all, |all|, s, (u, v));
      YieldsIsNewest(all, i, s);
      ReadIs(S, u, s, all[i]);
    }
    if ReadAt(S, u, s) == Some(v) {
      var e :| IsNewest(S, u, s, e);
      ReadIs(S, u, s, e);
      assert e in S;
      var i :| 0 <= i < |all| && all[i] == e;
      YieldsIsNewest(all, i, s);
      ScanHas(all, |all|, s, i);
    }
  }

  lemma {:induction false} ScanMember(all: seq<Entry>, n: nat, s: nat, p: (Bytes, Bytes)) returns (i: nat)
    requires n <= |all| && p in Scan(all, n, s)
    ensures i < n && Yields(all, i, s) && p == (all[i].key.ukey, all[i].val)
  {
    if p in Scan(all, n - 1, s) {
      i := ScanMember(all, n - 1, s, p);
    } else {
      i := n - 1;
    }
  }

  lemma {:induction false} ScanHas(all: seq<Entry>, n: nat, s: nat, i: nat)
    requires i < n <= |all| && Yields(all, i, s)
    ensures (all[i].key.ukey, all[i].val) in Scan(all, n, s)
  {
    if i < n - 1 {
      ScanHas(all, n - 1, s, i);
    }
  }

  ghost predicate Increasing(r: seq<(Bytes, Bytes)>) {
    forall i, j :: 0 <= i < j < |r| ==> Lt(r[i].0, r[j].0)
  }

  /** A scan lists every user key at most once, in strictly increasing order. */
  lemma {:induction false} ScanIncreases(all: seq<Entry>, n: nat, s: nat)
    requires Sorted(all) && n <= |all|
    ensures Increasing(Scan(all, n, s))
  {
    if n > 0 {
      ScanIncreases(all, n - 1, s);
      var r := Scan(all, n - 1, s);
      if Yields(all, n - 1, s) {
        forall i | 0 <= i < |r| ensures Lt(r[i].0, all[n - 1].key.ukey) {
          assert r[i] in r;
          var k := ScanMember(all, n - 1, s, r[i]);
          assert KeyLess(all[k].key, all[n - 1].key);
        }
        assert Scan(all, n, s) == r + [(all[n - 1].key.ukey, all[n - 1].val)];
      }
    }
  }

  lemma {:induction false} ScanSkips(all: seq<Entry>, m: nat, n: nat, s: nat)
    requires m <= n <= |all|
    requires forall i :: m <= i < n ==> !Yields(all, i, s)
    ensures Scan(all, n, s) == Scan(all, m, s)
  {
    if m < n {
      ScanSkips(all, m, n - 1, s);
    }
  }

  /** Every visible entry before p has a user key that is being skipped; the skipped key is that of such an entry. */
  ghost predicate Skips(all: seq<Entry>, s: nat, key: Bytes, skipping: bool, p: nat, start: nat) {
    && (forall j :: 0 <= j < p && j < |all| && all[j].key.seqno <= s ==> skipping && !Lt(key, all[j].key.ukey))
    && (skipping ==> exists j :: 0 <= j < |all| && (j < p || j == start)
                                 && all[j].key.seqno <= s && all[j].key.ukey == key)
  }

  /** One iteration of the scan loop at entry p. */
  lemma {:induction false} SkipStep(all: seq<Entry>, s: nat, key: Bytes, skipping: bool, p: nat, start: nat)
    requires Sorted(all) && start <= p < |all| && Skips(all, s, key, skipping, p, start)
    ensures all[p].key.seqno > s || all[p].key.typ.TypeDeletion? ==> !Yields(all, p, s)
    ensures all[p].key.seqno > s ==> Skips(all, s, key, skipping, p + 1, start)
    ensures all[p].key.seqno <= s && all[p].key.typ.TypeDeletion? ==> Skips(all, s, all[p].key.ukey, true, p + 1, start)
    ensures all[p].key.seqno <= s && all[p].key.typ.TypeValue? ==>
              if skipping && !Lt(key, all[p].key.ukey)
              then Skips(all, s, key, true, p + 1, start) && (start < p ==> !Yields(all, p, s))
              else Yields(all, p, s)
  {
    LtOrder();
    hide Lt;
    assert forall j :: 0 <= j < p ==> KeyLess(all[j].key, all[p].key);
  }

  lemma {:induction false} ScanCorrect(all: seq<Entry>, s: nat)
    requires Sorted(all)
    ensures Increasing(Scan(all, |all|, s))
    ensures forall u, v :: (u, v) in Scan(all, |all|, s) <==> ReadAt(EntrySet(all), u, s) == Some(v)
  {
    ScanIncreases(all, |all|, s);
    forall u, v ensures (u, v) in Scan(all, |all|, s) <==> ReadAt(EntrySet(all), u, s) == Some(v) {
      ScanIsReads(all, s, u, v);
    }
  }

  class DBIterator {
    const iter: MergingIter
    const snapshot: nat
    var valid: bool
    var savedkey: Bytes
    /** The merged entries of all sources. */
    ghost const all: seq<Entry>

    ghost predicate Ok()
      reads this, iter
    {
      && iter.Ok()
      && Sorted(all)
      && all == MergeAll(Items(iter.iters))
      && |iter.todo| <= |all|
      && iter.todo == all[Pos()..]
      && (valid ==> Pos() < |all| && Yields(all, Pos(), snapshot))
    }

    /** How many merged entries are behind the iterator. */
    ghost function Pos(): (p: int)
      reads this, iter
    {
      |all| - |iter.todo|
    }

    constructor (iter: MergingIter, s: nat)
      requires iter.Ok() && !iter.Valid()
      ensures this.iter == iter && snapshot == s && !valid && Ok()
      ensures all == MergeAll(Items(iter.iters))
    {
      this.iter := iter;
      snapshot := s;
      valid := false;
      savedkey := [];
      all := MergeAll(Items(iter.iters));
      new;
      MergeAllIsMerge(Items(iter.iters));
    }

    /** Moves to the next yielding entry: behind start if skipping, else from start on. */
    method FindNextUserEntry(skip: bool) returns (found: bool)
      requires Ok() && iter.Valid() && Pos() < |all|
      requires Skips(all, snapshot, savedkey, skip, Pos(), Pos())
      requires skip ==> savedkey == all[Pos()].key.ukey
      modifies this`valid, this`savedkey, iter
      ensures Ok() && Items(iter.iters) == old(Items(iter.iters))
      ensures found == valid == (Pos() < |all|)
      ensures Pos() >= old(Pos()) && (skip && found ==> Pos() > old(Pos()))
      ensures forall i :: old(Pos()) <= i < Pos() && !(skip && i == old(Pos())) ==> !Yields(all, i, snapshot)
    {
      hide MergingIter.Ok;
      hide MergeAll;
      hide Sorted;
      hide Skips;
      hide Yields;
      LtTotal(savedkey, savedkey);
      ghost var start := Pos();
      var skipping := skip;
      valid := false;
      while iter.Valid()
        invariant Ok() && !valid && start <= Pos() <= |all|
        invariant iter.Valid() <==> Pos() < |all|
        invariant Items(iter.iters) == old(Items(iter.iters))
        invariant Skips(all, snapshot, savedkey, skipping, Pos(), start)
        invariant Pos() == start ==> skipping == skip && savedkey == old(savedkey)
        invariant forall i :: start <= i < Pos() && !(skip && i == start) ==> !Yields(all, i, snapshot)
        decreases |iter.todo|
      {
        var e := iter.Current();
        ghost var p := Pos();
        assert e == all[p];
        SkipStep(all, snapshot, savedkey, skipping, p, start);
        if e.key.seqno <= snapshot {
          if e.key.typ.TypeDeletion? {
            savedkey := e.key.ukey;
            skipping := true;
          } else if skipping && !Lt(savedkey, e.key.ukey) {
          } else {
            valid := true;
            savedkey := [];
            return true;
          }
        }
        var _ := iter.Advance();
      }
      savedkey := [];
      return false;
    }

    method SeekToFirst()
      requires Ok()
      modifies this`valid, this`savedkey, iter
      ensures Ok() && Items(iter.iters) == old(Items(iter.iters))
      ensures valid == (Pos() < |all|)
      ensures forall i :: 0 <= i < Pos() ==> !Yields(all, i, snapshot)
    {
      hide MergeAll;
      hide Yields;
      hide Sorted;
      valid := false;
      iter.SeekToFirst();
      assert iter.todo == all[0..];
      if iter.Valid() {
        var _ := FindNextUserEntry(false);
      } else {
        valid := false;
      }
    }

    /** One step of the scan; an invalid iterator starts over. */
    method Advance() returns (b: bool)
      requires Ok()
      modifies this`valid, this`savedkey, iter
      ensures Ok() && Items(iter.iters) == old(Items(iter.iters))
      ensures b == valid == (Pos() < |all|)
      ensures 0 <= Pos() <= |all| && (b ==> Yields(all, Pos(), snapshot))
      ensures old(valid) && b ==> Pos() > old(Pos())
      ensures forall i :: (if old(valid) then old(Pos()) + 1 else 0) <= i < Pos() ==> !Yields(all, i, snapshot)
    {
      if !valid {
        SeekToFirst();
        return valid;
      }
      var e := iter.Current();
      savedkey := e.key.ukey;
      assert Skips(all, snapshot, savedkey, true, Pos(), Pos()) by {
        LtOrder();
        hide Lt;
        assert all[Pos()] == e;
      }
      b := FindNextUserEntry(true);
    }

    method Current() returns (k: Bytes, v: Bytes)
      requires Ok() && valid
      ensures Pos() < |all| && k == all[Pos()].key.ukey && v == all[Pos()].val
    {
      var e := iter.Current();
      k, v := e.key.ukey, e.val;
    }
  }

  /** Advancing a fresh iterator until it ends yields the reference scan. */
  method ScanAll(sources: seq<seq<Entry>>, s: nat) returns (out: seq<(Bytes, Bytes)>)
    requires SourcesOk(sources)
    ensures out == Scan(MergeAll(sources), |MergeAll(sources)|, s)
    ensures Increasing(out)
    ensures forall u, v :: (u, v) in out <==> ReadAt(EntrySet(MergeAll(sources)), u, s) == Some(v)
  {
    hide Increasing;
    hide ReadAt;
    hide MergeAll;
    hide EntrySet;
    hide Scan;
    var merging := new MergingIter(sources);
    var it := new DBIterator(merging, s);
    ghost var all := it.all;
    IterSorted(it);
    hide DBIterator.Ok;
    out := Collect(it);
    ScanCorrect(all, s);
  }

  lemma {:induction false} IterSorted(it: DBIterator)
    requires it.Ok()
    ensures Sorted(it.all)
  {
  }

  /** Advances a fresh iterator until it ends. */
  method Collect(it: DBIterator) returns (out: seq<(Bytes, Bytes)>)
    requires it.Ok() && !it.valid
    modifies it`valid, it`savedkey, it.iter
    ensures out == Scan(it.all, |it.all|, it.snapshot)
  {
    hide *;
    out := [];
    var more := it.Advance();
    ScanSkips(it.all, 0, it.Pos(), it.snapshot);
    ScanNone(it.all, it.snapshot);
    while more
      invariant it.Ok() && more == it.valid == (it.Pos() < |it.all|) && (more ==> Yields(it.all, it.Pos(), it.snapshot))
      invariant 0 <= it.Pos() <= |it.all| && out == Scan(it.all, it.Pos(), it.snapshot)
      decreases |it.all| - it.Pos()
    {
      var k, v := it.Current();
      out := out + [(k, v)];
      ghost var p := it.Pos();
      ScanTakes(it.all, p, it.snapshot);
      more := it.Advance();
      ScanSkips(it.all, p + 1, it.Pos(), it.snapshot);
    }
  }

  lemma {:induction false} ScanNone(all: seq<Entry>, s: nat)
    ensures Scan(all, 0, s) == []
  {
  }

  lemma {:induction false} ScanTakes(all: seq<Entry>, p: nat, s: nat)
    requires p < |all| && Yields(all, p, s)
    ensures Scan(all, p + 1, s) == Scan(all, p, s) + [(all[p].key.ukey, all[p].val)]
  {
  }
}
