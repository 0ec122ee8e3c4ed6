/** The merging iterator over sorted sources (src/merging_iter.rs), in the forward direction. */
module MergingIterator {
  import opened Bytes
  import opened Entries

  /**
   * The LdbIterator protocol over a fixed sorted source (src/types.rs): position 0 is before the first entry,
   * position k is on entry k - 1, and advancing past the last entry resets.
   */
  datatype Cursor = Cursor(items: seq<Entry>, pos: nat) {
    predicate Valid() { 0 < pos <= |items| }

    function Reset(): Cursor { this.(pos := 0) }

    function Advance(): Cursor { if pos < |items| then this.(pos := pos + 1) else Reset() }

    function Get(): Entry
      requires Valid()
    {
      items[pos - 1]
    }

    /** The current entry and everything behind it; nothing if the cursor is not valid. */
    function Rest(): seq<Entry> { if Valid() then items[pos - 1..] else [] }
  }

  ghost predicate NoSharedVersion(a: seq<Entry>, b: seq<Entry>) {
    forall e, f :: e in a && f in b && e.key.ukey == f.key.ukey ==> e.key.seqno != f.key.seqno
  }

  ghost predicate SourcesOk(rs: seq<seq<Entry>>) {
    && (forall i :: 0 <= i < |rs| ==> Sorted(rs[i]))
    && (forall i, j :: 0 <= i < j < |rs| ==> NoSharedVersion(rs[i], rs[j]))
  }

  /** m lists, in key order, exactly the entries of the sources. */
  ghost predicate IsMerge(rs: seq<seq<Entry>>, m: seq<Entry>) {
    && Sorted(m)
    && (forall e :: e in m ==> exists i :: 0 <= i < |rs| && e in rs[i])
    && (forall i, e :: 0 <= i < |rs| && e in rs[i] ==> e in m)
  }

  function Merge2(a: seq<Entry>, b: seq<Entry>): seq<Entry> {
    if a == [] then b
    else if b == [] then a
    else if KeyLess(a[0].key, b[0].key) then [a[0]] + Merge2(a[1..], b)
    else [b[0]] + Merge2(a, b[1..])
  }

  /** Reference: merge the sources two by two. */
  function MergeAll(rs: seq<seq<Entry>>): seq<Entry> {
    if rs == [] then [] else Merge2(rs[0], MergeAll(rs[1..]))
  }

  lemma {:induction false} Merge2Members(a: seq<Entry>, b: seq<Entry>)
    ensures forall e :: e in Merge2(a, b) <==> e in a || e in b
  {
    if a != [] && b != [] {
      Merge2Members(a[1..], b);
      Merge2Members(a, b[1..]);
    }
  }

  lemma {:induction false} SortedCons(x: Entry, s: seq<Entry>)
    requires Sorted(s) && forall e :: e in s ==> KeyLess(x.key, e.key)
    ensures Sorted([x] + s)
  {
  }

  lemma {:induction false} Merge2Sorted(a: seq<Entry>, b: seq<Entry>)
    requires Sorted(a) && Sorted(b) && NoSharedVersion(a, b)
    ensures Sorted(Merge2(a, b))
  {
    if a != [] && b != [] {
      KeyOrder();
      hide KeyLess;
      if KeyLess(a[0].key, b[0].key) {
        Merge2Sorted(a[1..], b);
        Merge2Members(a[1..], b);
        SortedCons(a[0], Merge2(a[1..], b));
      } else {
        assert a[0] in a && b[0] in b;
        Merge2Sorted(a, b[1..]);
        Merge2Members(a, b[1..]);
        SortedCons(b[0], Merge2(a, b[1..]));
      }
    }
  }

  lemma {:induction false} MergeAllIsMerge(rs: seq<seq<Entry>>)
    requires SourcesOk(rs)
    ensures IsMerge(rs, MergeAll(rs))
  {
    if rs != [] {
      var tail := rs[1..];
      var rest := MergeAll(tail);
      assert forall i :: 0 <= i < |tail| ==> tail[i] == rs[i + 1];
      assert SourcesOk(tail);
      MergeAllIsMerge(tail);
      Merge2Members(rs[0], rest);
      assert NoSharedVersion(rs[0], rest) by {
        forall e, f | e in rs[0] && f in rest && e.key.ukey == f.key.ukey ensures e.key.seqno != f.key.seqno {
          var i :| 0 <= i < |tail| && f in tail[i];
          assert NoSharedVersion(rs[0], rs[i + 1]);
        }
      }
      Merge2Sorted(rs[0], rest);
      forall e | e in MergeAll(rs) ensures exists i :: 0 <= i < |rs| && e in rs[i] {
        if e !in rs[0] {
          var i :| 0 <= i < |tail| && e in tail[i];
          assert e in rs[i + 1];
        }
      }
    }
  }

  function Rests(iters: seq<Cursor>): seq<seq<Entry>> {
    seq(|iters|, i requires 0 <= i < |iters| => iters[i].Rest())
  }

  function Items(iters: seq<Cursor>): seq<seq<Entry>> {
    seq(|iters|, i requires 0 <= i < |iters| => iters[i].items)
  }

  /** The smallest head is the head of the merge. */
  lemma {:induction false} SmallestHead(rs: seq<seq<Entry>>, m: seq<Entry>, c: nat)
    requires SourcesOk(rs) && IsMerge(rs, m) && c < |rs| && rs[c] != []
    requires forall i :: 0 <= i < |rs| && rs[i] != [] ==> !KeyLess(rs[i][0].key, rs[c][0].key)
    ensures m != [] && m[0] == rs[c][0]
  {
    assert rs[c][0] in m && m[0] in m;
    var i :| 0 <= i < |rs| && m[0] in rs[i];
    KeyOrder();
    hide KeyLess;
    assert m[0] == rs[i][0] || KeyLess(rs[i][0].key, m[0].key);
  }

  /** Taking the head of the merge from its source leaves the merge of the rest. */
  lemma {:induction false} DropHead(rs: seq<seq<Entry>>, m: seq<Entry>, c: nat)
    requires SourcesOk(rs) && IsMerge(rs, m) && m != []
    requires c < |rs| && rs[c] != [] && rs[c][0] == m[0]
    ensures SourcesOk(rs[c := rs[c][1..]])
    ensures IsMerge(rs[c := rs[c][1..]], m[1..])
  {
    var rs' := rs[c := rs[c][1..]];
    assert rs[c] == [m[0]] + rs[c][1..] && m == [m[0]] + m[1..];
    KeyOrder();
    hide KeyLess;
    forall i, e | 0 <= i < |rs'| && e in rs'[i] ensures e in m[1..] {
      assert e in rs[i];
      assert e != m[0] by {
        assert m[0] in rs[c];
        if i == c {
          var k :| 0 <= k < |rs'[c]| && rs'[c][k] == e;
          assert rs[c][k + 1] == e;
        }
        assert i < c ==> NoSharedVersion(rs[i], rs[c]);
        assert c < i ==> NoSharedVersion(rs[c], rs[i]);
      }
      assert e in m;
    }
    forall e | e in m[1..] ensures exists i :: 0 <= i < |rs'| && e in rs'[i] {
      assert e in m && e != m[0];
      var i :| 0 <= i < |rs| && e in rs[i];
      assert e in rs'[i];
    }
  }

  /** Every cursor on its first entry; an empty one stays before it. */
  method Started(cursors: seq<Cursor>) returns (iters: seq<Cursor>)
    ensures |iters| == |cursors|
    ensures forall k :: 0 <= k < |iters| ==> iters[k].items == cursors[k].items && iters[k].Rest() == cursors[k].items
  {
    iters := cursors;
    for i := 0 to |iters|
      invariant |iters| == |cursors|
      invariant forall k :: 0 <= k < |iters| ==> iters[k].items == cursors[k].items
      invariant forall k :: 0 <= k < i ==> iters[k].Rest() == cursors[k].items
    {
      iters := iters[i := iters[i].Reset().Advance()];
      if !iters[i].Valid() {
        iters := iters[i := iters[i].Reset()];
      }
    }
  }

  class MergingIter {
    var iters: seq<Cursor>
    var current: Option<nat>
    /** The merged entries still to come, the current one first. */
    ghost var todo: seq<Entry>

    ghost predicate Ok()
      reads this
    {
      && SourcesOk(Items(iters))
      && SourcesOk(Rests(iters))
      && IsMerge(Rests(iters), todo)
      && (current.Some? ==> current.value < |iters|)
      && (current.Some? && todo == [] ==> !iters[current.value].Valid())
      && (current.Some? && todo != [] ==> iters[current.value].Valid() && iters[current.value].Rest()[0] == todo[0])
      && (current.None? ==> todo == [])
    }

    predicate Valid()
      reads this
    {
      current.Some? && current.value < |iters| && iters[current.value].Valid()
    }

    constructor (sources: seq<seq<Entry>>)
      requires SourcesOk(sources)
      ensures Ok() && !Valid() && Items(iters) == sources
    {
      iters := seq(|sources|, i requires 0 <= i < |sources| => Cursor(sources[i], 0));
      current := None;
      todo := [];
      new;
      assert Items(iters) == sources;
    }

    /** The index of the smallest current entry; the first cursor if none is valid. */
    method SmallestIndex() returns (next: nat)
      requires iters != []
      ensures next < |iters|
      ensures forall k :: 0 <= k < |iters| && iters[k].Valid() ==>
                            iters[next].Valid() && !KeyLess(iters[k].Get().key, iters[next].Get().key)
    {
      LtOrder();
      hide Lt;
      next := 0;
      for i := 1 to |iters|
        invariant next < i
        invariant forall k :: 0 <= k < i && iters[k].Valid() ==>
                                iters[next].Valid() && !KeyLess(iters[k].Get().key, iters[next].Get().key)
      {
        if iters[i].Valid() {
          if iters[next].Valid() {
            if KeyLess(iters[i].Get().key, iters[next].Get().key) {
              next := i;
            }
          } else {
            next := i;
          }
        }
      }
    }

    method Find()
      requires SourcesOk(Items(iters)) && SourcesOk(Rests(iters)) && IsMerge(Rests(iters), todo)
      requires iters == [] ==> current.None?
      modifies this`current
      ensures Ok()
    {
      assert todo != [] ==> todo[0] in todo;
      if |iters| == 0 {
        return;
      }
      var next := SmallestIndex();
      current := Some(next);
      if iters[next].Valid() {
        SmallestHead(Rests(iters), todo, next);
      }
    }

    method Init()
      requires Ok()
      modifies this
      ensures Ok() && Items(iters) == old(Items(iters))
      ensures todo == MergeAll(Items(iters))
      ensures Valid() <==> todo != []
    {
      hide SourcesOk;
      hide IsMerge;
      hide MergeAll;
      ghost var sources := Items(iters);
      iters := Started(iters);
      assert Items(iters) == sources && Rests(iters) == sources;
      todo := MergeAll(sources);
      MergeAllIsMerge(sources);
      Find();
    }

    method Advance() returns (b: bool)
      requires Ok() && Valid()
      modifies this
      ensures Ok() && Items(iters) == old(Items(iters))
      ensures todo == old(todo)[1..]
      ensures b == Valid() == (todo != [])
    {
      var c := current.value;
      ghost var rs: seq<seq<Entry>> := Rests(iters);
      DropHead(rs, todo, c);
      var next := iters[c].Advance();
      if !next.Valid() {
        next := next.Reset();
      }
      assert next.Rest() == rs[c][1..];
      ghost var was := iters;
      iters := iters[c := next];
      assert Items(iters) == Items(was);
      assert Rests(iters) == rs[c := rs[c][1..]];
      todo := todo[1..];
      Find();
      b := Valid();
    }

    method SeekToFirst()
      requires Ok()
      modifies this
      ensures Ok() && Items(iters) == old(Items(iters))
      ensures todo == MergeAll(Items(iters))
      ensures Valid() <==> todo != []
    {
      Reset();
      Init();
    }

    method Reset()
      requires Ok()
      modifies this
      ensures Ok() && !Valid() && Items(iters) == old(Items(iters))
    {
      ghost var sources := Items(iters);
      for i := 0 to |iters|
        invariant |iters| == |sources| && Items(iters) == sources
        invariant forall k :: 0 <= k < i ==> iters[k].Rest() == []
      {
        iters := iters[i := iters[i].Reset()];
      }
      current := None;
      todo := [];
    }

    method Current() returns (e: Entry)
      requires Ok() && Valid()
      ensures todo != [] && e == todo[0]
    {
      e := iters[current.value].Get();
    }
  }
}
