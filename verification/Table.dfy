/** The two-level table: data blocks, the index of separators, and the iterator (src/table_builder.rs, src/table_reader.rs). */
module Table {
  import opened Bytes
  import opened Entries
  import opened Comparators

  /** A table's data blocks and, for each, its index key. */
  datatype Blocks = Blocks(data: seq<seq<Entry>>, index: seq<InternalKey>)

  function Flat(data: seq<seq<Entry>>): seq<Entry> {
    if data == [] then [] else Flat(data[..|data| - 1]) + data[|data| - 1]
  }

  function Last(es: seq<Entry>): InternalKey
    requires es != []
  {
    es[|es| - 1].key
  }

  /** The key that follows block i: the first one of the next block, or one behind the last block. */
  function NextKey(data: seq<seq<Entry>>, i: nat, behind: InternalKey): InternalKey
    requires i < |data| && NonEmpty(data)
  {
    if i + 1 < |data| then data[i + 1][0].key else behind
  }

  /** The index key of block i is the separator of its last key from the key that follows. */
  predicate Keyed(t: Blocks, i: nat, behind: InternalKey)
    requires i < |t.data| == |t.index| && NonEmpty(t.data)
  {
    var a, b := Last(t.data[i]), NextKey(t.data, i, behind);
    HasSep(a, b) && t.index[i] == InternalSep(a, b)
  }

  ghost predicate GoodBoundary(t: Blocks, i: nat)
    requires i + 1 < |t.data| && t.data[i] != [] && t.data[i + 1] != []
  {
    !Adjacent(Last(t.data[i]), t.data[i + 1][0].key)
  }

  predicate NonEmpty(data: seq<seq<Entry>>) {
    forall i :: 0 <= i < |data| ==> data[i] != []
  }

  /** Sorted blocks, each with its separator; the separators ascend, as the index block demands. */
  ghost predicate Indexed(t: Blocks, behind: InternalKey) {
    && |t.data| == |t.index| && NonEmpty(t.data) && Sorted(Flat(t.data))
    && (forall i :: 0 <= i < |t.data| ==> Keyed(t, i, behind))
    && (forall i, j :: 0 <= i < j < |t.index| ==> KeyLess(t.index[i], t.index[j]))
    && (t.data != [] ==> KeyLess(Last(t.data[|t.data| - 1]), behind))
  }

  /** A key behind the table. */
  function Behind(data: seq<seq<Entry>>): InternalKey {
    if data != [] && data[|data| - 1] != [] then InternalSucc(Last(data[|data| - 1])) else InternalKey([], 0, TypeValue)
  }

  ghost predicate TableOk(t: Blocks) {
    Indexed(t, Behind(t.data))
  }

  ghost predicate AllGood(t: Blocks)
    requires NonEmpty(t.data)
  {
    forall i :: 0 <= i < |t.data| - 1 ==> GoodBoundary(t, i)
  }

  // ----- order across blocks -----

  lemma {:induction false} FlatIn(data: seq<seq<Entry>>, i: nat, k: nat)
    requires i < |data| && k < |data[i]|
    ensures data[i][k] in Flat(data)
  {
    if i < |data| - 1 {
      FlatIn(data[..|data| - 1], i, k);
    } else {
      var a, b := Flat(data[..|data| - 1]), data[i];
      assert (a + b)[|a| + k] == b[k];
    }
  }

  lemma {:induction false} BlockSorted(data: seq<seq<Entry>>, i: nat)
    requires Sorted(Flat(data)) && i < |data|
    ensures Sorted(data[i])
  {
    var a, b := Flat(data[..|data| - 1]), data[|data| - 1];
    SortedParts(a, b);
    if i < |data| - 1 {
      BlockSorted(data[..|data| - 1], i);
    }
  }

  lemma {:induction false} SortedParts(a: seq<Entry>, b: seq<Entry>)
    requires Sorted(a + b)
    ensures Sorted(a) && Sorted(b)
    ensures forall e, f :: e in a && f in b ==> KeyLess(e.key, f.key)
  {
    var c := a + b;
    assert forall i :: 0 <= i < |a| ==> c[i] == a[i];
    assert forall i :: 0 <= i < |b| ==> c[|a| + i] == b[i];
  }

  /** Every entry of an earlier block is before every entry of a later one. */
  lemma {:induction false} BlocksAscend(data: seq<seq<Entry>>, i: nat, j: nat, e: Entry, f: Entry)
    requires Sorted(Flat(data)) && i < j < |data| && e in data[i] && f in data[j]
    ensures KeyLess(e.key, f.key)
  {
    var a, b := Flat(data[..|data| - 1]), data[|data| - 1];
    SortedParts(a, b);
    if j < |data| - 1 {
      BlocksAscend(data[..|data| - 1], i, j, e, f);
    } else {
      var k :| 0 <= k < |data[i]| && data[i][k] == e;
      FlatIn(data[..|data| - 1], i, k);
    }
  }

  /** An index key is never before its block's last key, and separates it from the next block exactly at good boundaries. */
  lemma {:induction false} SepIs(t: Blocks, behind: InternalKey, i: nat)
    requires Indexed(t, behind) && i < |t.data|
    ensures !KeyLess(t.index[i], Last(t.data[i]))
    ensures i + 1 < |t.data| ==> (Separates(t.index[i], Last(t.data[i]), t.data[i + 1][0].key) <==> GoodBoundary(t, i))
  {
    hide KeyLess;
    hide InternalSep;
    hide Separates;
    assert Keyed(t, i, behind);
    if i + 1 < |t.data| {
      BlocksAscend(t.data, i, i + 1, t.data[i][|t.data[i]| - 1], t.data[i + 1][0]);
    }
    InternalSepIs(Last(t.data[i]), NextKey(t.data, i, behind));
  }

  /** At good boundaries index keys lie before every later block. */
  lemma {:induction false} IndexAscends(t: Blocks, i: nat, j: nat)
    requires TableOk(t) && AllGood(t) && i < j < |t.data|
    ensures KeyLess(t.index[i], t.data[j][0].key)
  {
    KeyOrder();
    hide KeyLess;
    hide InternalSep;
    assert GoodBoundary(t, i);
    SepIs(t, Behind(t.data), i);
    if i + 1 < j {
      BlocksAscend(t.data, i + 1, j, t.data[i + 1][0], t.data[j][0]);
    }
  }

  // ----- the builder -----

  class TableBuilder {
    ghost var added: seq<Entry>
    var data: seq<seq<Entry>>
    var index: seq<InternalKey>
    var block: seq<Entry>

    ghost function T(): Blocks
      reads this
    {
      Blocks(data, index)
    }

    /** The blocks written so far, with the first key of the block being filled behind them. */
    ghost predicate Valid()
      reads this
    {
      && Sorted(added) && Flat(data) + block == added
      && (data != [] ==> block != [])
      && if block == [] then data == [] && index == [] else Indexed(T(), block[0].key)
    }

    constructor ()
      ensures Valid() && added == []
    {
      data, index, block, added := [], [], [], [];
    }

    /** The block cannot be closed: its last user key is empty, or its separator is not above the last index key. */
    predicate Stuck(nextKey: InternalKey)
      requires block != []
      reads this
    {
      !HasSep(Last(block), nextKey)
      || (index != [] && !KeyLess(index[|index| - 1], InternalSep(Last(block), nextKey)))
    }

    /**
     * Adds a key above all others; the block is written out first if it is large enough. Fails, with nothing changed,
     * only where the source panics because the block cannot be closed.
     */
    method Add(e: Entry) returns (ok: bool)
      requires Valid() && (added == [] || KeyLess(added[|added| - 1].key, e.key))
      modifies this
      ensures Valid() && added == if ok then old(added) + [e] else old(added)
      ensures !ok ==> T() == old(T()) && block == old(block) != [] && Stuck(e.key)
    {
      hide KeyLess;
      hide Indexed;
      hide Sorted;
      hide Flat;
      hide InternalSep;
      ghost var before := added;
      assert added != [] ==> block != [] && added[|added| - 1].key == Last(block) by { FlatNone(); }
      SortedSnoc(added, e);
      var full: bool := *;
      if full && block != [] {
        ghost var was := block;
        ok := WriteDataBlock(e.key);
        if !ok {
          return;
        }
        FlatSnoc(old(data), was);
        assert Flat(data) + [] == before;
      } else if block == [] {
        FlatNone();
        Unkeyed(e.key);
        assert T() == Blocks([], []);
      }
      ghost var start := block;
      block := block + [e];
      assert Flat(data) + block == Flat(data) + start + [e];
      added := before + [e];
      ok := true;
    }

    /** Writes the block with a separator from the next key. */
    method WriteDataBlock(nextKey: InternalKey) returns (ok: bool)
      requires Valid() && block != [] && KeyLess(Last(block), nextKey)
      modifies this`data, this`index, this`block
      ensures ok <==> !old(Stuck(nextKey))
      ensures ok ==> Indexed(T(), nextKey) && data == old(data) + [old(block)] && block == []
      ensures !ok ==> T() == old(T()) && block == old(block)
    {
      hide KeyLess;
      hide InternalSep;
      hide Separates;
      hide Indexed;
      hide Sorted;
      hide Flat;
      if !HasSep(Last(block), nextKey) {
        return false;
      }
      var sep := InternalShortestSep(Last(block), nextKey);
      if index != [] && !KeyLess(index[|index| - 1], sep) {
        return false;
      }
      ghost var was := T();
      data := data + [block];
      index := index + [sep];
      AddBlock(was, block, nextKey);
      block := [];
      return true;
    }

    method Finish() returns (r: Option<Blocks>)
      requires Valid()
      modifies this
      ensures match r
              case Some(t) => TableOk(t) && Flat(t.data) == old(added)
              case None => old(block) != [] && old(Stuck(InternalSucc(Last(block))))
    {
      hide Indexed;
      hide KeyLess;
      if block != [] {
        var past := InternalShortSucc(Last(block));
        var ok := WriteDataBlock(past);
        if !ok {
          return None;
        }
        FlatSnoc(old(data), old(block));
        assert Behind(data) == past;
        return Some(Blocks(data, index));
      }
      Unkeyed(Behind([]));
      FlatNone();
      return Some(Blocks(data, index));
    }
  }

  /** Separators strictly increase past every boundary that is not adjacent, so such a block can always be closed. */
  lemma {:induction false} SepAscends(t: Blocks, block: seq<Entry>, next: InternalKey)
    requires block != [] && Sorted(block) && Indexed(t, block[0].key) && t.data != []
    requires !Adjacent(Last(t.data[|t.data| - 1]), block[0].key)
    requires KeyLess(Last(block), next) && HasSep(Last(block), next)
    ensures KeyLess(t.index[|t.index| - 1], block[0].key)
    ensures KeyLess(t.index[|t.index| - 1], InternalSep(Last(block), next))
  {
    KeyOrder();
    hide KeyLess;
    hide InternalSep;
    var n := |t.data| - 1;
    assert Keyed(t, n, block[0].key);
    InternalSepIs(Last(t.data[n]), block[0].key);
    InternalSepIs(Last(block), next);
    assert |block| > 1 ==> KeyLess(block[0].key, Last(block));
    NotBefore(t.index[n], Last(block), InternalSep(Last(block), next));
  }

  lemma {:induction false} NotBefore(a: InternalKey, b: InternalKey, c: InternalKey)
    requires KeyLess(a, b) && !KeyLess(c, b)
    ensures KeyLess(a, c)
  {
    LtOrder();
    hide Lt;
  }

  lemma {:induction false} Unkeyed(behind: InternalKey)
    ensures Indexed(Blocks([], []), behind)
  {
  }

  lemma {:induction false} SortedSnoc(es: seq<Entry>, e: Entry)
    requires Sorted(es) && (es == [] || KeyLess(es[|es| - 1].key, e.key))
    ensures Sorted(es + [e])
  {
    KeyOrder();
    hide KeyLess;
    forall i | 0 <= i < |es| ensures KeyLess(es[i].key, e.key) {
      assert i < |es| - 1 ==> KeyLess(es[i].key, es[|es| - 1].key);
    }
  }

  /** Closing a block: its separator goes to the end of the index. */
  lemma {:induction false} AddBlock(t: Blocks, block: seq<Entry>, next: InternalKey)
    requires block != [] && Sorted(Flat(t.data) + block) && Indexed(t, block[0].key)
    requires KeyLess(Last(block), next) && HasSep(Last(block), next)
    requires t.index != [] ==> KeyLess(t.index[|t.index| - 1], InternalSep(Last(block), next))
    ensures Indexed(Blocks(t.data + [block], t.index + [InternalSep(Last(block), next)]), next)
  {
    KeyOrder();
    hide KeyLess;
    hide InternalSep;
    hide Flat;
    hide Sorted;
    var t' := Blocks(t.data + [block], t.index + [InternalSep(Last(block), next)]);
    FlatSnoc(t.data, block);
    forall i | 0 <= i < |t'.data| ensures Keyed(t', i, next) {
      if i < |t.data| {
        assert Keyed(t, i, block[0].key);
        assert NextKey(t'.data, i, next) == NextKey(t.data, i, block[0].key);
      }
    }
    forall i, j | 0 <= i < j < |t'.index| ensures KeyLess(t'.index[i], t'.index[j]) {
      assert i < |t.index| - 1 ==> KeyLess(t.index[i], t.index[|t.index| - 1]);
    }
  }

  lemma {:induction false} FlatNone()
    ensures Flat([]) == []
  {
  }

  lemma {:induction false} FlatSnoc(data: seq<seq<Entry>>, block: seq<Entry>)
    ensures Flat(data + [block]) == Flat(data) + block
  {
    assert (data + [block])[..|data|] == data;
  }

  // ----- seeking -----

  /** k is the first place in es that is not before the key. */
  ghost predicate IsLowerBound(es: seq<Entry>, to: InternalKey, k: nat) {
    && k <= |es|
    && (forall i :: 0 <= i < k ==> KeyLess(es[i].key, to))
    && (k < |es| ==> !KeyLess(es[k].key, to))
  }

  ghost predicate IsIndexBound(index: seq<InternalKey>, to: InternalKey, k: nat) {
    && k <= |index|
    && (forall i :: 0 <= i < k ==> KeyLess(index[i], to))
    && (k < |index| ==> !KeyLess(index[k], to))
  }

  /** The key falls behind the last key of a block and not behind its index key, and there is a later block. */
  ghost predicate InGap(t: Blocks, to: InternalKey)
    requires |t.data| == |t.index| && NonEmpty(t.data)
  {
    exists i :: 0 <= i < |t.data| - 1 && KeyLess(Last(t.data[i]), to) && !KeyLess(t.index[i], to)
  }

  /** A position: an entry of a block, or none. */
  datatype Place = At(block: nat, entry: nat) | Nowhere

  /** The first entry of the table that is not before the key. */
  ghost predicate IsFirst(t: Blocks, to: InternalKey, p: Place) {
    match p
    case At(b, k) =>
      && b < |t.data| && k < |t.data[b]| && !KeyLess(t.data[b][k].key, to)
      && (forall i :: 0 <= i < k ==> KeyLess(t.data[b][i].key, to))
      && (forall c, e :: 0 <= c < b && e in t.data[c] ==> KeyLess(e.key, to))
    case Nowhere => forall e :: e in Flat(t.data) ==> KeyLess(e.key, to)
  }

  /** Lower bound in a block or an index, as a block iterator finds it. */
  method SeekIn(es: seq<Entry>, to: InternalKey) returns (k: nat)
    requires Sorted(es)
    ensures IsLowerBound(es, to, k)
  {
    k := 0;
    while k < |es| && KeyLess(es[k].key, to)
      invariant k <= |es| && forall i :: 0 <= i < k ==> KeyLess(es[i].key, to)
    {
      k := k + 1;
    }
  }

  method SeekIndex(index: seq<InternalKey>, to: InternalKey) returns (k: nat)
    ensures IsIndexBound(index, to, k)
  {
    k := 0;
    while k < |index| && KeyLess(index[k], to)
      invariant k <= |index| && forall i :: 0 <= i < k ==> KeyLess(index[i], to)
    {
      k := k + 1;
    }
  }

  class TableIterator {
    const t: Blocks
    /** Positions in the index and in the loaded block, if there is one. */
    var indexAt: Option<nat>
    var loaded: Option<nat>
    var entryAt: Option<nat>

    ghost predicate Valid()
      reads this
    {
      && TableOk(t)
      && (loaded.Some? ==> indexAt == loaded && loaded.value < |t.data|)
      && (loaded.None? ==> entryAt == None && indexAt == None)
      && (entryAt.Some? ==> loaded.Some? && entryAt.value < |t.data[loaded.value]|)
    }

    function Where(): Place
      reads this
    {
      if loaded.Some? && entryAt.Some? then At(loaded.value, entryAt.value) else Nowhere
    }

    constructor (t: Blocks)
      requires TableOk(t)
      ensures Valid() && this.t == t && Where() == Nowhere && loaded == None
    {
      this.t := t;
      indexAt, loaded, entryAt := None, None, None;
    }

    method Reset()
      requires TableOk(t)
      modifies this
      ensures Valid() && loaded == None
    {
      indexAt, loaded, entryAt := None, None, None;
    }

    /** Steps to the next entry of the table, over the end of a block if need be. */
    method Advance() returns (ok: bool)
      requires Valid()
      modifies this
      ensures Valid() && ok == (Where() != Nowhere)
      ensures match old(Where())
              case At(b, k) =>
                Where() == if k + 1 < |t.data[b]| then At(b, k + 1) else if b + 1 < |t.data| then At(b + 1, 0) else Nowhere
              case Nowhere => Where() == if old(loaded).Some? then At(old(loaded).value, 0)
                                         else if t.data != [] then At(0, 0) else Nowhere
      decreases |t.data| + 1 - (if loaded.Some? then loaded.value + 1 else 0)
    {
      if loaded.Some? {
        var next := if entryAt.Some? then entryAt.value + 1 else 0;
        if next < |t.data[loaded.value]| {
          entryAt := Some(next);
          return true;
        }
      }
      var i := if indexAt.Some? then indexAt.value + 1 else 0;
      if i >= |t.index| {
        Reset();
        return false;
      }
      indexAt, loaded, entryAt := Some(i), Some(i), None;
      ok := Advance();
    }

    /**
     * Lands on the first entry not before the key, except exactly when the key falls into a gap although there is
     * such an entry: then it lands nowhere.
     */
    method Seek(to: InternalKey)
      requires Valid()
      modifies this
      ensures Valid()
      ensures IsFirst(t, to, Where()) <==> !(InGap(t, to) && !IsFirst(t, to, Nowhere))
      ensures InGap(t, to) ==> Where() == Nowhere
    {
      var i := SeekIndex(t.index, to);
      if i < |t.index| {
        indexAt, loaded := Some(i), Some(i);
        BlockSorted(t.data, i);
        var k := SeekIn(t.data[i], to);
        entryAt := if k < |t.data[i]| then Some(k) else None;
        SeekFound(t, to, i, k);
      } else {
        Reset();
        SeekPast(t, to);
      }
    }

    /**
     * A seek for a user key and sequence number lands on the newest version the table holds, if it holds one and the
     * key does not fall into a gap, and nowhere if it does.
     */
    method SeekVersion(u: Bytes, s: nat)
      requires Valid()
      modifies this
      ensures Valid()
      ensures forall e :: e in Flat(t.data) && e.key.ukey == u && e.key.seqno <= s ==>
                if InGap(t, InternalKey(u, s, TypeValue)) then Where() == Nowhere
                else Where().At? && IsNewest(EntrySet(Flat(t.data)), u, s, t.data[Where().block][Where().entry])
    {
      hide InGap;
      Seek(InternalKey(u, s, TypeValue));
      forall e | e in Flat(t.data) && e.key.ukey == u && e.key.seqno <= s && !InGap(t, InternalKey(u, s, TypeValue))
        ensures Where().At? && IsNewest(EntrySet(Flat(t.data)), u, s, t.data[Where().block][Where().entry])
      {
        FirstIsNewest(t, u, s, e, Where());
      }
    }
  }

  lemma {:induction false} SeekFound(t: Blocks, to: InternalKey, i: nat, k: nat)
    requires TableOk(t) && i < |t.data| && IsIndexBound(t.index, to, i) && IsLowerBound(t.data[i], to, k)
    ensures var p := if k < |t.data[i]| then At(i, k) else Nowhere;
            && (IsFirst(t, to, p) <==> !(InGap(t, to) && !IsFirst(t, to, Nowhere))) && (InGap(t, to) ==> p == Nowhere)
            && (p == Nowhere ==> InGap(t, to) || IsFirst(t, to, Nowhere))
  {
    KeyOrder();
    hide KeyLess;
    hide Keyed;
    forall c, e | 0 <= c < i && e in t.data[c] ensures KeyLess(e.key, to) {
      BlockLast(t, c, e);
      SepIs(t, Behind(t.data), c);
      BeforeIndex(e.key, Last(t.data[c]), t.index[c], to);
    }
    BlockSorted(t.data, i);
    var last := Last(t.data[i]);
    if k < |t.data[i]| {
      assert !KeyLess(last, to) by {
        assert k < |t.data[i]| - 1 ==> KeyLess(t.data[i][k].key, last);
      }
      NoGap(t, to, i);
    } else {
      assert KeyLess(last, to);
      if i < |t.data| - 1 {
        assert InGap(t, to);
      } else {
        NoGapAtEnd(t, to);
        forall e | e in Flat(t.data) ensures KeyLess(e.key, to) {
          var c, n := FlatFrom(t.data, e);
          if c == i {
            assert KeyLess(t.data[i][n].key, to);
          }
        }
      }
    }
  }

  lemma {:induction false} FlatFrom(data: seq<seq<Entry>>, e: Entry) returns (i: nat, k: nat)
    requires e in Flat(data)
    ensures i < |data| && k < |data[i]| && data[i][k] == e
  {
    var a, b := Flat(data[..|data| - 1]), data[|data| - 1];
    if e in b {
      i := |data| - 1;
      k :| 0 <= k < |b| && b[k] == e;
    } else {
      i, k := FlatFrom(data[..|data| - 1], e);
    }
  }

  lemma {:induction false} BlockLast(t: Blocks, c: nat, e: Entry)
    requires TableOk(t) && c < |t.data| && e in t.data[c]
    ensures e.key == Last(t.data[c]) || KeyLess(e.key, Last(t.data[c]))
  {
    BlockSorted(t.data, c);
    var n :| 0 <= n < |t.data[c]| && t.data[c][n] == e;
    hide KeyLess;
  }

  lemma {:induction false} BeforeIndex(a: InternalKey, last: InternalKey, sep: InternalKey, to: InternalKey)
    requires (a == last || KeyLess(a, last)) && !KeyLess(sep, last) && KeyLess(sep, to)
    ensures KeyLess(a, to)
  {
    LtOrder();
    hide Lt;
  }

  /** The block found has the gap, or no block has. */
  lemma {:induction false} NoGap(t: Blocks, to: InternalKey, i: nat)
    requires TableOk(t) && i < |t.data| && IsIndexBound(t.index, to, i) && !KeyLess(Last(t.data[i]), to)
    ensures !InGap(t, to)
  {
    KeyOrder();
    hide KeyLess;
    forall j | 0 <= j < |t.data| - 1 && KeyLess(Last(t.data[j]), to) ensures KeyLess(t.index[j], to) {
      if i < j {
        BlocksAscend(t.data, i, j, t.data[i][|t.data[i]| - 1], t.data[j][|t.data[j]| - 1]);
        assert false;
      }
    }
  }

  lemma {:induction false} NoGapAtEnd(t: Blocks, to: InternalKey)
    requires TableOk(t) && t.data != [] && IsIndexBound(t.index, to, |t.data| - 1)
    ensures !InGap(t, to)
  {
  }

  lemma {:induction false} SeekPast(t: Blocks, to: InternalKey)
    requires TableOk(t) && IsIndexBound(t.index, to, |t.index|)
    ensures IsFirst(t, to, Nowhere) && !InGap(t, to)
  {
    KeyOrder();
    hide KeyLess;
    forall e | e in Flat(t.data) ensures KeyLess(e.key, to) {
      var c, n := FlatFrom(t.data, e);
      BlockLast(t, c, e);
      SepIs(t, Behind(t.data), c);
      BeforeIndex(e.key, Last(t.data[c]), t.index[c], to);
    }
  }

  ghost predicate SamePlace(a: InternalKey, b: InternalKey) {
    a.ukey == b.ukey && a.seqno == b.seqno
  }

  /** The key has the place of a block's last key, and the block's index key has it too. */
  ghost predicate OnLast(t: Blocks, to: InternalKey)
    requires |t.data| == |t.index| && NonEmpty(t.data)
  {
    exists i :: 0 <= i < |t.data| && SamePlace(Last(t.data[i]), to) && SamePlace(t.index[i], to)
  }

  /** The block that a lookup reads: the first one whose index key is not before the key, if it is after the key. */
  ghost predicate ReadsBlock(t: Blocks, to: InternalKey, i: nat) {
    i < |t.index| && IsIndexBound(t.index, to, i) && KeyLess(to, t.index[i])
  }

  /**
   * A lookup without an iterator; `may` is the filter's answer for a block. It finds the first entry not before the
   * key, except that it gives up in a gap, where the filter says no, and, because it compares strictly, on the place
   * of a last key that serves as index key.
   */
  method Get(t: Blocks, may: nat -> bool, to: InternalKey) returns (r: Option<Entry>)
    requires TableOk(t)
    ensures r.Some? ==> exists b: nat, k: nat :: IsFirst(t, to, At(b, k)) && r.value == t.data[b][k]
    ensures r.None? <==> IsFirst(t, to, Nowhere) || InGap(t, to) || OnLast(t, to) || exists i: nat :: ReadsBlock(t, to, i) && !may(i)
  {
    var i := SeekIndex(t.index, to);
    if i == |t.index| {
      SeekPast(t, to);
      return None;
    }
    if !KeyLess(to, t.index[i]) {
      StrictMiss(t, to, i);
      return None;
    }
    assert ReadsBlock(t, to, i);
    if !may(i) {
      return None;
    }
    OneBlockRead(t, to, i);
    BlockSorted(t.data, i);
    var k := SeekIn(t.data[i], to);
    SeekFound(t, to, i, k);
    StrictHit(t, to, i, k);
    if k < |t.data[i]| {
      assert IsFirst(t, to, At(i, k));
      return Some(t.data[i][k]);
    }
    return None;
  }

  lemma {:induction false} OneBlockRead(t: Blocks, to: InternalKey, i: nat)
    requires TableOk(t) && ReadsBlock(t, to, i)
    ensures forall j: nat :: ReadsBlock(t, to, j) ==> j == i
  {
  }

  /** The filter has no false negatives: it says yes for every block with a version of the user key. */
  ghost predicate NoFalseNegatives(t: Blocks, may: nat -> bool, u: Bytes) {
    forall i, e :: 0 <= i < |t.data| && e in t.data[i] && e.key.ukey == u ==> may(i)
  }

  /** A lookup of the key gives up although the table may have an entry for it: in a gap, or on a last key. */
  ghost predicate Misses(t: Blocks, to: InternalKey)
    requires |t.data| == |t.index| && NonEmpty(t.data)
  {
    InGap(t, to) || OnLast(t, to)
  }

  /** A lookup of a user key with a visible version finds the newest one, if and only if it does not give up. */
  method GetVersion(t: Blocks, may: nat -> bool, u: Bytes, s: nat) returns (r: Option<Entry>)
    requires TableOk(t) && NoFalseNegatives(t, may, u)
    ensures r.Some? ==> exists b: nat, k: nat :: IsFirst(t, InternalKey(u, s, TypeValue), At(b, k)) && r.value == t.data[b][k]
    ensures forall e :: Visible(EntrySet(Flat(t.data)), u, s, e) ==>
              if Misses(t, InternalKey(u, s, TypeValue)) then r == None
              else r.Some? && IsNewest(EntrySet(Flat(t.data)), u, s, r.value)
  {
    hide OnLast;
    hide InGap;
    var to := InternalKey(u, s, TypeValue);
    r := Get(t, may, to);
    forall e | Visible(EntrySet(Flat(t.data)), u, s, e)
      ensures if Misses(t, to) then r == None else r.Some? && IsNewest(EntrySet(Flat(t.data)), u, s, r.value)
    {
      if !InGap(t, to) {
        HeldIsRead(t, may, u, s, e);
      }
      if r.Some? {
        var b: nat, k: nat :| IsFirst(t, to, At(b, k)) && r.value == t.data[b][k];
        FirstIsNewest(t, u, s, e, At(b, k));
      }
    }
  }

  /** Outside gaps a visible version is not before the lookup key, and the block read has a version of the user key. */
  lemma {:induction false} HeldIsRead(t: Blocks, may: nat -> bool, u: Bytes, s: nat, e: Entry)
    requires TableOk(t) && NoFalseNegatives(t, may, u) && Visible(EntrySet(Flat(t.data)), u, s, e)
    requires !InGap(t, InternalKey(u, s, TypeValue))
    ensures var to := InternalKey(u, s, TypeValue);
            !IsFirst(t, to, Nowhere) && forall i: nat :: ReadsBlock(t, to, i) ==> may(i)
  {
    hide InGap;
    var to := InternalKey(u, s, TypeValue);
    assert !KeyLess(e.key, to) by {
      LtOrder();
    }
    forall i: nat | ReadsBlock(t, to, i) ensures may(i) {
      BlockSorted(t.data, i);
      var k := LowerBound(t.data[i], to);
      SeekFound(t, to, i, k);
      var p := if k < |t.data[i]| then At(i, k) else Nowhere;
      FirstIsNewest(t, u, s, e, p);
      assert t.data[i][k] in t.data[i];
    }
  }

  lemma {:induction false} LowerBound(es: seq<Entry>, to: InternalKey) returns (k: nat)
    requires Sorted(es)
    ensures IsLowerBound(es, to, k)
  {
    KeyOrder();
    hide KeyLess;
    if es == [] || !KeyLess(es[|es| - 1].key, to) {
      if es == [] {
        k := 0;
      } else {
        k := LowerBound(es[..|es| - 1], to);
      }
    } else {
      k := |es|;
    }
  }

  /** The key is at the index key: the lookup is in a gap, on a last key, or past everything. */
  lemma {:induction false} StrictMiss(t: Blocks, to: InternalKey, i: nat)
    requires TableOk(t) && i < |t.data| && IsIndexBound(t.index, to, i) && !KeyLess(to, t.index[i])
    ensures IsFirst(t, to, Nowhere) || InGap(t, to) || OnLast(t, to)
  {
    SepIs(t, Behind(t.data), i);
    LtOrder();
    hide Lt;
    hide Keyed;
    assert SamePlace(t.index[i], to);
    if !SamePlace(Last(t.data[i]), to) {
      assert KeyLess(Last(t.data[i]), to);
      BlockSorted(t.data, i);
      assert forall n :: 0 <= n < |t.data[i]| - 1 ==> KeyLess(t.data[i][n].key, Last(t.data[i]));
      SeekFound(t, to, i, |t.data[i]|);
    }
  }

  /** The key is before the index key: no block's last key has its place together with its index key. */
  lemma {:induction false} StrictHit(t: Blocks, to: InternalKey, i: nat, k: nat)
    requires TableOk(t) && i < |t.data| && IsIndexBound(t.index, to, i) && KeyLess(to, t.index[i])
    requires IsLowerBound(t.data[i], to, k)
    ensures !OnLast(t, to) && (k < |t.data[i]| ==> !IsFirst(t, to, Nowhere))
  {
    LtOrder();
    hide Lt;
    hide Keyed;
    forall j | 0 <= j < |t.data| ensures !SamePlace(t.index[j], to) {
      assert i < j ==> KeyLess(t.index[i], t.index[j]);
    }
    if k < |t.data[i]| {
      FlatIn(t.data, i, k);
    }
  }

  // ----- reads -----

  /** At good boundaries, a lookup for a user key with a visible version never falls into a gap. */
  lemma {:induction false} HeldNotInGap(t: Blocks, u: Bytes, s: nat, e: Entry)
    requires TableOk(t) && AllGood(t) && e in Flat(t.data) && e.key.ukey == u && e.key.seqno <= s
    ensures !InGap(t, InternalKey(u, s, TypeValue))
  {
    var to := InternalKey(u, s, TypeValue);
    LtOrder();
    hide Lt;
    forall i | 0 <= i < |t.data| - 1 && KeyLess(Last(t.data[i]), to) ensures KeyLess(t.index[i], to) {
      assert GoodBoundary(t, i);
      SepIs(t, Behind(t.data), i);
      var c, n := FlatFrom(t.data, e);
      var next := t.data[i + 1][0];
      if c <= i {
        BlockLast(t, c, e);
        if c < i {
          BlocksAscend(t.data, c, i, e, t.data[i][|t.data[i]| - 1]);
        }
      } else {
        assert next == e || KeyLess(next.key, e.key) by { FirstBefore(t, i + 1, c, e); }
      }
    }
  }

  lemma {:induction false} FirstBefore(t: Blocks, i: nat, c: nat, e: Entry)
    requires TableOk(t) && i <= c < |t.data| && e in t.data[c]
    ensures t.data[i][0] == e || KeyLess(t.data[i][0].key, e.key)
  {
    if i < c {
      BlocksAscend(t.data, i, c, t.data[i][0], e);
    } else {
      BlockSorted(t.data, c);
      var n :| 0 <= n < |t.data[c]| && t.data[c][n] == e;
      hide KeyLess;
    }
  }

  /** The first entry not before (u, s) is the newest version of u at or below s, if the table holds one. */
  lemma {:induction false} FirstIsNewest(t: Blocks, u: Bytes, s: nat, e: Entry, p: Place)
    requires TableOk(t) && e in Flat(t.data) && e.key.ukey == u && e.key.seqno <= s
    requires IsFirst(t, InternalKey(u, s, TypeValue), p)
    ensures p.At? && IsNewest(EntrySet(Flat(t.data)), u, s, t.data[p.block][p.entry])
  {
    LtOrder();
    hide Lt;
    var to := InternalKey(u, s, TypeValue);
    assert !KeyLess(e.key, to);
    var b, k := p.block, p.entry;
    var f := t.data[b][k];
    FlatIn(t.data, b, k);
    forall g | g in Flat(t.data) && g.key.ukey == u && g.key.seqno <= s
      ensures f.key.ukey == u && f.key.seqno <= s && g.key.seqno <= f.key.seqno
    {
      var c, n := FlatFrom(t.data, g);
      assert !KeyLess(g.key, to);
      assert c >= b;
      if c == b {
        BlockSorted(t.data, b);
        assert n >= k;
      } else {
        BlocksAscend(t.data, b, c, f, g);
      }
    }
  }

  /**
   * A boundary between k and k with a zero byte: the separator is of the second user key, so a seek for that key
   * falls into a gap, although the second block holds a version.
   */
  lemma {:induction false} AdjacentMisses() returns (t: Blocks, to: InternalKey)
    ensures TableOk(t) && !AllGood(t) && InGap(t, to)
    ensures exists e :: e in Flat(t.data) && e.key.ukey == to.ukey && e.key.seqno <= to.seqno
  {
    hide Lt;
    hide Flat;
    hide ShortestSep;
    var a, b := Entry(InternalKey([7], 5, TypeValue), []), Entry(InternalKey([7, 0], 3, TypeValue), []);
    t := Blocks([[a], [b]], [InternalKey([7, 0], 5, TypeValue), InternalKey([7, 1], 3, TypeValue)]);
    to := InternalKey([7, 0], 9, TypeValue);
    SmallKeys();
    SmallSeps();
    LtOrder();
    assert b in [a] + [b];
    assert !GoodBoundary(t, 0);
    TwoEntries(a, b);
    assert KeyLess(Last(t.data[0]), to) && !KeyLess(t.index[0], to);
  }

  /** A seek for an older version than the last one of the first block: the index leads to that block, which has no such entry. */
  lemma {:induction false} GapMisses() returns (t: Blocks, to: InternalKey)
    ensures TableOk(t) && AllGood(t) && InGap(t, to) && IsFirst(t, to, At(1, 0))
  {
    hide Lt;
    hide Flat;
    hide ShortestSep;
    var a, b := Entry(InternalKey([7], 5, TypeValue), []), Entry(InternalKey([8], 3, TypeValue), []);
    t := Blocks([[a], [b]], [InternalKey([7, 0], 5, TypeValue), InternalKey([8, 0], 3, TypeValue)]);
    to := InternalKey([7], 4, TypeValue);
    SmallKeys();
    SmallSeps();
    LtOrder();
    assert GoodBoundary(t, 0);
    TwoEntries(a, b);
    assert KeyLess(Last(t.data[0]), to) && !KeyLess(t.index[0], to);
  }

  /** Two versions of a key in two blocks: the index key is the newer one itself, and a lookup at its number finds neither. */
  lemma {:induction false} SplitMisses() returns (t: Blocks, to: InternalKey)
    ensures TableOk(t) && AllGood(t) && OnLast(t, to) && IsFirst(t, to, At(0, 0)) && t.data[0][0].key == to
  {
    hide Lt;
    hide Flat;
    hide ShortestSep;
    var a, b := Entry(InternalKey([7], 5, TypeValue), []), Entry(InternalKey([7], 3, TypeValue), []);
    t := Blocks([[a], [b]], [a.key, InternalKey([7, 0], 3, TypeValue)]);
    to := a.key;
    SmallKeys();
    SmallSeps();
    LtOrder();
    assert GoodBoundary(t, 0);
    TwoEntries(a, b);
    assert SamePlace(Last(t.data[0]), to) && SamePlace(t.index[0], to);
  }

  /** A table of one block with the builder's index key; without blocks if there is nothing to index. */
  function Single(es: seq<Entry>): Blocks {
    if es != [] && Last(es).ukey != [] then Blocks([es], [InternalSep(Last(es), InternalSucc(Last(es)))]) else Blocks([], [])
  }

  /** It never gives up on a user key up to its last one. */
  lemma {:induction false} SingleIs(es: seq<Entry>, to: InternalKey)
    requires Sorted(es) && es != [] && Last(es).ukey != [] && !Lt(Last(es).ukey, to.ukey)
    ensures TableOk(Single(es)) && Flat(Single(es).data) == es && !Misses(Single(es), to)
  {
    var last := Last(es);
    InternalSuccIs(last);
    ShortestSepIs(last.ukey, InternalSucc(last).ukey);
    LtOrder();
    hide Lt;
    hide ShortestSep;
    var t := Single(es);
    FlatSnoc([], es);
    FlatNone();
    assert [] + [es] == t.data && [] + es == es;
    assert Keyed(t, 0, Behind(t.data));
    assert Lt(to.ukey, t.index[0].ukey);
  }

  /** Two blocks of one entry each, with the builder's index keys. */
  lemma {:induction false} TwoEntries(a: Entry, b: Entry)
    requires KeyLess(a.key, b.key) && a.key.ukey != [] && b.key.ukey != []
    requires KeyLess(InternalSep(a.key, b.key), InternalSep(b.key, InternalSucc(b.key)))
    ensures var t := Blocks([[a], [b]], [InternalSep(a.key, b.key), InternalSep(b.key, InternalSucc(b.key))]);
            TableOk(t) && Flat(t.data) == [a] + [b]
  {
    hide KeyLess;
    hide InternalSep;
    hide InternalSucc;
    hide Flat;
    var t := Blocks([[a], [b]], [InternalSep(a.key, b.key), InternalSep(b.key, InternalSucc(b.key))]);
    TwoBlocks([a], [b]);
    InternalSuccIs(b.key);
    assert Behind(t.data) == InternalSucc(b.key);
    assert Keyed(t, 0, Behind(t.data)) && Keyed(t, 1, Behind(t.data));
    assert Sorted([a] + [b]);
  }

  /** An adjacent boundary in front of a block whose separator is not above the last index key: the builder is stuck. */
  lemma {:induction false} IndexFalls() returns (t: Blocks, block: seq<Entry>, next: InternalKey)
    ensures block != [] && Indexed(t, block[0].key) && t.data != [] && Sorted(Flat(t.data) + block)
    ensures KeyLess(Last(block), next) && HasSep(Last(block), next)
    ensures !KeyLess(t.index[|t.index| - 1], InternalSep(Last(block), next))
  {
    hide Lt;
    hide Flat;
    hide ShortestSep;
    var a, b := Entry(InternalKey([7], 3, TypeValue), []), Entry(InternalKey([7, 0], 5, TypeValue), []);
    SmallKeys();
    SmallSeps();
    SameSep([7, 0]);
    LtOrder();
    t, block, next := Blocks([[a]], [InternalKey([7, 0], 3, TypeValue)]), [b], InternalKey([7, 0], 4, TypeValue);
    FlatSnoc([], [a]);
    FlatNone();
    assert [] + [[a]] == t.data;
    assert Keyed(t, 0, b.key);
  }

  lemma {:induction false} SmallKeys()
    ensures Lt([7], [7, 0]) && Lt([7, 0], [8]) && Lt([7], [8]) && Lt([8], [9]) && [7] + [0] == [7, 0]
    ensures Lt([7, 0], [7, 1]) && Lt([7, 1], [8]) && Lt([7], [7, 1]) && Lt([7, 0], [8, 0]) && Lt([8], [8, 0])
    ensures var k: Bytes, succ: Bytes := [7], [7, 0]; |k| == 1 && |succ| == 2
  {
    assert [7] + [0] == [7, 0] && [8] + [0] == [8, 0];
    LtPrefix([7], [0]);
    LtPrefix([8], [0]);
    LtAt([7, 0], [8], 0);
    LtAt([7], [8], 0);
    LtAt([8], [9], 0);
    LtAt([7, 0], [7, 1], 1);
    LtAt([7, 1], [8], 0);
    LtAt([7, 0], [8, 0], 0);
    LtOrder();
  }

  /** The separators and successors of the small keys. */
  lemma {:induction false} SmallSeps()
    ensures ShortestSep([7], [7, 0]) == [7, 0] && ShortestSep([7, 0], [8]) == [7, 1] && ShortestSep([7], [8]) == [7, 0]
    ensures ShortestSep([8], [9]) == [8, 0] && ShortestSep([7], [7]) == [7]
    ensures ShortSucc([7], 0) == [8] && ShortSucc([7, 0], 0) == [8] && ShortSucc([8], 0) == [9]
  {
    hide ShortestSep;
    hide Lt;
    NextByte(7);
    NextByte(8);
    ZeroAppended();
    assert ShortestSep([7], [7]) == [7] by { SameSep([7]); }
  }

  lemma {:induction false} SameSep(a: Bytes)
    ensures ShortestSep(a, a) == a
  {
  }

  lemma {:induction false} NextByte(x: Byte)
    requires x < 255
    ensures ShortestSep([x], [x + 1]) == [x, 0] && ShortSucc([x], 0) == [x + 1]
  {
    var a: Bytes, b: Bytes := [x], [x + 1];
    LtOrder();
    hide Lt;
    assert DiffAt(a, b, 0) == 0 && RaisableAt(a, b, 1) == 1 && RaisableAt(a, b, 0) == 1 && LastBelowMax(a, 0) == 0;
    assert a[..0] + [a[0] + 1] + a[1..] == b && !Lt(b, b);
    assert a[..0] + [a[0] + 1] == b;
  }

  lemma {:induction false} ZeroAppended()
    ensures ShortestSep([7], [7, 0]) == [7, 0] && ShortestSep([7, 0], [8]) == [7, 1] && ShortSucc([7, 0], 0) == [8]
  {
    var b: Bytes := [7, 0];
    SeparatesAppended();
    SeparatesFromNext();
    assert b[..0] + [b[0] + 1] == [8];
  }

  lemma {:induction false} SeparatesAppended()
    ensures ShortestSep([7], [7, 0]) == [7, 0]
  {
    SmallKeys();
    LtOrder();
    hide Lt;
    var a: Bytes, b: Bytes, c: Bytes := [7], [7, 0], [8];
    assert DiffAt(a, b, 1) == 1 && DiffAt(a, b, 0) == 1 && RaisableAt(a, b, 1) == 1 && LastBelowMax(a, 0) == 0;
    assert a[..0] + [a[0] + 1] + a[1..] == c && !Lt(c, b);
  }

  lemma {:induction false} SeparatesFromNext()
    ensures ShortestSep([7, 0], [8]) == [7, 1]
  {
    SmallKeys();
    LtOrder();
    hide Lt;
    var b: Bytes, c: Bytes := [7, 0], [8];
    assert DiffAt(b, c, 0) == 0 && RaisableAt(b, c, 1) == 1 && RaisableAt(b, c, 0) == 1 && LastBelowMax(b, 1) == 1;
    assert b[..1] + [b[1] + 1] + b[2..] == [7, 1];
  }

  lemma {:induction false} TwoBlocks(a: seq<Entry>, b: seq<Entry>)
    ensures Flat([a, b]) == a + b
  {
    assert [a, b] == [] + [a] + [b];
    FlatSnoc([], a);
    FlatSnoc([] + [a], b);
    assert Flat([]) == [];
  }
}
