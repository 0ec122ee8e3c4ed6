/** A compaction: its base-level test and the loop that drops and rewrites entries (src/version_set.rs, src/db_impl.rs). */
module CompactionWork {
  import opened Bytes
  import opened Entries
  import opened Version
  import opened MergingIterator

  /** No file below the output level has k in its key range: what a full scan of those levels finds. */
  ghost predicate BaseLevelFor(v: seq<seq<File>>, level: nat, k: Bytes)
    requires |v| == NUM_LEVELS
  {
    forall l, i :: level + 2 <= l < NUM_LEVELS && 0 <= i < |v[l]| ==>
                     Lt(k, v[l][i].smallest.ukey) || Lt(v[l][i].largest.ukey, k)
  }

  ghost predicate DeepLevelsOk(v: seq<seq<File>>, level: nat) {
    && |v| == NUM_LEVELS
    && level + 2 <= NUM_LEVELS
    && (forall l :: level + 2 <= l < NUM_LEVELS ==> Disjoint(v[l]))
    && (forall l, i :: level + 2 <= l < NUM_LEVELS && 0 <= i < |v[l]| ==>
                         !Lt(v[l][i].largest.ukey, v[l][i].smallest.ukey))
  }

  class Compaction {
    const level: nat
    const version: seq<seq<File>>
    /** Per level, the first file that may still hold a key not yet asked for. */
    var levelIxs: seq<nat>
    /** The user key asked for last. */
    ghost var asked: Option<Bytes>

    ghost predicate Valid()
      reads this
    {
      && DeepLevelsOk(version, level)
      && |levelIxs| == NUM_LEVELS
      && (forall l :: level + 2 <= l < NUM_LEVELS ==> levelIxs[l] <= |version[l]|)
      && (forall l, i :: level + 2 <= l < NUM_LEVELS && 0 <= i < levelIxs[l] ==>
                           asked.Some? && Lt(version[l][i].largest.ukey, asked.value))
    }

    constructor (level: nat, version: seq<seq<File>>)
      requires DeepLevelsOk(version, level)
      ensures Valid() && this.level == level && this.version == version && asked == None
    {
      this.level := level;
      this.version := version;
      levelIxs := seq(NUM_LEVELS, _ => 0);
      asked := None;
    }

    /** For queries in non-decreasing order the cached positions give the answer of a full scan. */
    method IsBaseLevelFor(k: Bytes) returns (b: bool)
      requires Valid() && (asked.Some? ==> !Lt(k, asked.value))
      modifies this
      ensures Valid() && asked == Some(k)
      ensures b <==> BaseLevelFor(version, level, k)
    {
      LtOrder();
      hide Lt;
      asked := Some(k);
      for l := level + 2 to NUM_LEVELS
        invariant Valid() && asked == Some(k)
        invariant forall m, i :: level + 2 <= m < l && 0 <= i < |version[m]| ==>
                                   Lt(k, version[m][i].smallest.ukey) || Lt(version[m][i].largest.ukey, k)
      {
        while levelIxs[l] < |version[l]|
          invariant Valid() && asked == Some(k)
          decreases |version[l]| - levelIxs[l]
        {
          var f := version[l][levelIxs[l]];
          if !Lt(f.largest.ukey, k) {
            if !Lt(k, f.smallest.ukey) {
              return false;
            }
            break;
          }
          levelIxs := levelIxs[l := levelIxs[l] + 1];
        }
        forall i | 0 <= i < |version[l]|
          ensures Lt(k, version[l][i].smallest.ukey) || Lt(version[l][i].largest.ukey, k)
        {
          if levelIxs[l] < i {
            assert Lt(version[l][levelIxs[l]].largest.ukey, version[l][i].smallest.ukey);
          }
        }
      }
      return true;
    }
  }

  // ----- which entries survive -----

  /** A newer version of the same user key is visible to every snapshot. */
  ghost predicate ShadowedAt(input: seq<Entry>, i: nat, smallest: nat)
    requires i < |input|
  {
    exists j :: 0 <= j < i && input[j].key.ukey == input[i].key.ukey && input[j].key.seqno <= smallest
  }

  ghost predicate Retained(input: seq<Entry>, i: nat, smallest: nat, v: seq<seq<File>>, level: nat)
    requires |v| == NUM_LEVELS && i < |input|
  {
    && input[i].key.seqno > 0
    && !ShadowedAt(input, i, smallest)
    && !(OldTombstone(input[i], smallest) && BaseLevelFor(v, level, input[i].key.ukey))
  }

  /** The first n input entries without those a compaction drops. */
  ghost function Kept(input: seq<Entry>, n: nat, smallest: nat, v: seq<seq<File>>, level: nat): seq<Entry>
    requires |v| == NUM_LEVELS && n <= |input|
  {
    if n == 0 then []
    else Kept(input, n - 1, smallest, v, level)
         + if Retained(input, n - 1, smallest, v, level) then [input[n - 1]] else []
  }

  lemma {:induction false} KeptMembers(input: seq<Entry>, n: nat, smallest: nat, v: seq<seq<File>>, level: nat)
    requires |v| == NUM_LEVELS && n <= |input|
    ensures forall e :: e in Kept(input, n, smallest, v, level) <==>
                          exists i :: 0 <= i < n && input[i] == e && Retained(input, i, smallest, v, level)
  {
    if n > 0 {
      KeptMembers(input, n - 1, smallest, v, level);
      hide Retained;
    }
  }

  lemma {:induction false} KeptSorted(input: seq<Entry>, n: nat, smallest: nat, v: seq<seq<File>>, level: nat)
    requires |v| == NUM_LEVELS && n <= |input| && Sorted(input)
    ensures Sorted(Kept(input, n, smallest, v, level))
  {
    if n > 0 {
      hide Retained;
      var k := Kept(input, n - 1, smallest, v, level);
      KeptSorted(input, n - 1, smallest, v, level);
      KeptMembers(input, n - 1, smallest, v, level);
      forall i | 0 <= i < |k| ensures KeyLess(k[i].key, input[n - 1].key) {
        assert k[i] in k;
      }
    }
  }

  /** Table metadata that fits the table's contents; numbers count up from first. */
  ghost predicate OutputsOk(outputs: seq<File>, first: nat) {
    forall i :: 0 <= i < |outputs| ==>
      && outputs[i].entries != []
      && outputs[i].num == first + i
      && outputs[i].smallest == outputs[i].entries[0].key
      && outputs[i].largest == outputs[i].entries[|outputs[i].entries| - 1].key
  }

  /** The loop's memory of the previous entry: its user key and sequence number, forgotten after sequence number 0. */
  ghost predicate Remembers(input: seq<Entry>, p: nat, haveUkey: bool, ukey: Bytes, lastSeq: nat)
    requires p <= |input|
  {
    if p == 0 || input[p - 1].key.seqno == 0 then !haveUkey
    else haveUkey && ukey == input[p - 1].key.ukey && lastSeq == input[p - 1].key.seqno
  }

  /** The running comparison with the previous version decides whether an entry is shadowed. */
  lemma {:induction false} DropRule(input: seq<Entry>, p: nat, haveUkey: bool, ukey: Bytes, lastSeq: nat, smallest: nat)
    requires Sorted(input) && p < |input| && Remembers(input, p, haveUkey, ukey, lastSeq)
    requires smallest < MAX_SEQUENCE_NUMBER && input[p].key.seqno > 0
    ensures (if haveUkey && input[p].key.ukey == ukey then lastSeq else MAX_SEQUENCE_NUMBER) <= smallest
            <==> ShadowedAt(input, p, smallest)
  {
    LtOrder();
    hide Lt;
    if haveUkey && input[p].key.ukey == ukey {
      assert p > 0 && input[p - 1].key.ukey == input[p].key.ukey;
      forall j | 0 <= j < p && input[j].key.ukey == input[p].key.ukey ensures input[j].key.seqno >= lastSeq {
        assert j < p - 1 ==> KeyLess(input[j].key, input[p - 1].key);
      }
    } else {
      forall j | 0 <= j < p ensures input[j].key.ukey != input[p].key.ukey {
        assert KeyLess(input[j].key, input[p].key);
        assert j < p - 1 ==> KeyLess(input[j].key, input[p - 1].key);
        assert KeyLess(input[p - 1].key, input[p].key);
      }
    }
  }

  lemma {:induction false} FlattenSnoc(fs: seq<File>, f: File)
    ensures Flatten(fs + [f]) == Flatten(fs) + f.entries
  {
    assert (fs + [f])[..|fs|] == fs;
  }

  /** Adds e to the table under construction, or starts a new table with it. */
  method AddToOutput(outputs: seq<File>, building: bool, e: Entry, first: nat) returns (r: seq<File>)
    requires OutputsOk(outputs, first) && (building ==> outputs != [])
    ensures OutputsOk(r, first) && r != [] && Flatten(r) == Flatten(outputs) + [e]
  {
    hide Flatten;
    if !building {
      var f := File(first + |outputs|, 0, e.key, e.key, [e]);
      r := outputs + [f];
      FlattenSnoc(outputs, f);
    } else {
      var init, last := outputs[..|outputs| - 1], outputs[|outputs| - 1];
      var f := last.(largest := e.key, entries := last.entries + [e]);
      r := outputs[|outputs| - 1 := f];
      FlattenSnoc(init, last);
      FlattenSnoc(init, f);
      assert outputs == init + [last] && r == init + [f];
      assert Flatten(init) + (last.entries + [e]) == Flatten(init) + last.entries + [e];
    }
  }

  /** Closes the table under construction; its size is whatever the table builder wrote. */
  method FinishOutput(outputs: seq<File>, first: nat) returns (r: seq<File>)
    requires OutputsOk(outputs, first) && outputs != []
    ensures OutputsOk(r, first) && Flatten(r) == Flatten(outputs)
  {
    var bytes: nat := *;
    r := outputs[|outputs| - 1 := outputs[|outputs| - 1].(size := bytes)];
    assert r[..|r| - 1] == outputs[..|outputs| - 1];
  }

  /** What the loop carries from entry to entry. */
  datatype Work = Work(outputs: seq<File>, building: bool, haveUkey: bool, ukey: Bytes, lastSeq: nat)

  ghost predicate WorkOk(w: Work, input: seq<Entry>, p: nat, smallest: nat, c: Compaction, first: nat)
    reads c
    requires c.Valid() && p <= |input|
  {
    && (c.asked.Some? ==> p > 0 && !Lt(input[p - 1].key.ukey, c.asked.value))
    && OutputsOk(w.outputs, first)
    && (w.building ==> w.outputs != [])
    && Remembers(input, p, w.haveUkey, w.ukey, w.lastSeq)
    && Flatten(w.outputs) == Kept(input, p, smallest, c.version, c.level)
  }

  /** One iteration: cut, drop or write the entry e at position p of the input. */
  method ProcessEntry(c: Compaction, e: Entry, work: Work, smallestSeq: nat, first: nat, ghost input: seq<Entry>, ghost p: nat)
    returns (w: Work)
    requires c.Valid() && Sorted(input) && p < |input| && e == input[p] && smallestSeq < MAX_SEQUENCE_NUMBER
    requires WorkOk(work, input, p, smallestSeq, c, first)
    modifies c
    ensures c.Valid() && WorkOk(w, input, p + 1, smallestSeq, c, first)
  {
    KeptStep(input, p, smallestSeq, c.version, c.level);
    AskedStep(input, p, c.asked);
    hide Sorted;
    hide OutputsOk;
    hide Flatten;
    hide Kept;
    hide ShadowedAt;
    hide BaseLevelFor;
    hide Compaction.Valid;
    w := work;
    var stopBefore: bool := *;
    if stopBefore && w.building {
      var outputs := FinishOutput(w.outputs, first);
      w := w.(outputs := outputs, building := false);
    }
    if e.key.seqno == 0 {
      return w.(lastSeq := MAX_SEQUENCE_NUMBER, haveUkey := false, ukey := []);
    }
    DropRule(input, p, w.haveUkey, w.ukey, w.lastSeq, smallestSeq);
    if !w.haveUkey || e.key.ukey != w.ukey {
      w := w.(ukey := e.key.ukey, haveUkey := true, lastSeq := MAX_SEQUENCE_NUMBER);
    }
    var drop := w.lastSeq <= smallestSeq;
    if !drop && e.key.typ.TypeDeletion? && e.key.seqno <= smallestSeq {
      drop := c.IsBaseLevelFor(e.key.ukey);
    }
    w := w.(lastSeq := e.key.seqno);
    if !drop {
      var outputs := AddToOutput(w.outputs, w.building, e, first);
      w := w.(outputs := outputs, building := true);
      var full: bool := *;
      if full {
        outputs := FinishOutput(w.outputs, first);
        w := w.(outputs := outputs, building := false);
      }
    }
  }

  /**
   * Merges the sources, drops what no reader needs and writes the rest to new tables. Where a table ends is left
   * open: the source decides it by sizes only.
   */
  method DoCompactionWork(c: Compaction, sources: seq<seq<Entry>>, smallestSeq: nat, first: nat)
    returns (outputs: seq<File>)
    requires c.Valid() && c.asked == None
    requires SourcesOk(sources) && smallestSeq < MAX_SEQUENCE_NUMBER
    modifies c
    ensures OutputsOk(outputs, first)
    ensures Flatten(outputs) == Kept(MergeAll(sources), |MergeAll(sources)|, smallestSeq, c.version, c.level)
  {
    ghost var input := MergeAll(sources);
    MergeAllIsMerge(sources);
    var iter := new MergingIter(sources);
    iter.SeekToFirst();
    var w := Work([], false, false, [], MAX_SEQUENCE_NUMBER);
    ghost var p := 0;
    assert iter.todo == input[0..];
    hide MergingIter.Ok;
    hide MergeAll;
    hide Sorted;
    while iter.Valid()
      invariant fresh(iter) && iter.Ok() && p <= |input| && iter.todo == input[p..]
      invariant iter.Valid() <==> p < |input|
      invariant c.Valid() && WorkOk(w, input, p, smallestSeq, c, first)
      decreases |input| - p
    {
      var e := iter.Current();
      w := ProcessEntry(c, e, w, smallestSeq, first, input, p);
      var _ := iter.Advance();
      p := p + 1;
    }
    if w.building {
      outputs := FinishOutput(w.outputs, first);
    } else {
      outputs := w.outputs;
    }
  }

  lemma {:induction false} KeptStep(input: seq<Entry>, p: nat, smallest: nat, v: seq<seq<File>>, level: nat)
    requires |v| == NUM_LEVELS && p < |input|
    ensures Kept(input, p + 1, smallest, v, level)
         == Kept(input, p, smallest, v, level)
            + if && input[p].key.seqno > 0
                 && !ShadowedAt(input, p, smallest)
                 && !(OldTombstone(input[p], smallest) && BaseLevelFor(v, level, input[p].key.ukey))
              then [input[p]] else []
  {
  }

  lemma {:induction false} AskedStep(input: seq<Entry>, p: nat, asked: Option<Bytes>)
    requires Sorted(input) && p < |input|
    requires asked.Some? ==> p > 0 && !Lt(input[p - 1].key.ukey, asked.value)
    ensures asked.Some? ==> !Lt(input[p].key.ukey, asked.value)
    ensures !Lt(input[p].key.ukey, input[p].key.ukey)
  {
    LtOrder();
    hide Lt;
    if p > 0 {
      assert KeyLess(input[p - 1].key, input[p].key);
    }
  }

  // ----- reads survive -----

  /**
   * Replacing the input by what is kept changes no read at or above the smallest snapshot, next to any other
   * entries R that hold nothing older than a tombstone dropped at its base level.
   */
  lemma {:induction false} KeptPreservesReads(input: seq<Entry>, v: seq<seq<File>>, level: nat, smallest: nat, R: set<Entry>, u: Bytes, s: nat)
    requires |v| == NUM_LEVELS && Sorted(input) && smallest <= s
    requires forall i :: 0 <= i < |input| ==> input[i].key.seqno > 0
    requires Distinct(EntrySet(input) + R)
    requires forall e, f :: e in input && f in R && f.key.ukey == e.key.ukey ==>
                              OldTombstone(e, smallest) && BaseLevelFor(v, level, e.key.ukey) ==> f.key.seqno >= e.key.seqno
    ensures ReadAt(EntrySet(Kept(input, |input|, smallest, v, level)) + R, u, s) == ReadAt(EntrySet(input) + R, u, s)
  {
    var kept := Kept(input, |input|, smallest, v, level);
    var I, K := EntrySet(input), EntrySet(kept);
    KeptMembers(input, |input|, smallest, v, level);
    forall i | 0 <= i < |input| ensures ShadowedAt(input, i, smallest) <==> Shadowed(I, input[i], smallest) {
      ShadowedAgree(input, i, smallest);
    }
    hide Kept;
    forall e | e in K ensures e in I && !Shadowed(I, e, smallest) {
      var i :| 0 <= i < |input| && input[i] == e && Retained(input, i, smallest, v, level);
    }
    forall e | e in I && e !in K && !Shadowed(I, e, smallest)
      ensures OldTombstone(e, smallest) && BaseLevelFor(v, level, e.key.ukey)
    {
      var i :| 0 <= i < |input| && input[i] == e;
      assert !Retained(input, i, smallest, v, level);
    }
    hide BaseLevelFor;
    DropPreservesReads(I, K, R, smallest, u, s);
  }

  lemma {:induction false} ShadowedAgree(input: seq<Entry>, i: nat, smallest: nat)
    requires Sorted(input) && i < |input|
    ensures ShadowedAt(input, i, smallest) <==> Shadowed(EntrySet(input), input[i], smallest)
  {
    LtOrder();
    hide Lt;
    var I := EntrySet(input);
    if ShadowedAt(input, i, smallest) {
      var j :| 0 <= j < i && input[j].key.ukey == input[i].key.ukey && input[j].key.seqno <= smallest;
      assert KeyLess(input[j].key, input[i].key);
      assert input[j] in I;
    }
    if Shadowed(I, input[i], smallest) {
      var f :| f in I && f.key.ukey == input[i].key.ukey && input[i].key.seqno < f.key.seqno <= smallest;
      var j :| 0 <= j < |input| && input[j] == f;
      assert j < i;
    }
  }

  /** A key outside a file's range is not in the file. */
  lemma {:induction false} OutsideFile(f: File, k: Bytes)
    requires FileOk(f) && (Lt(k, f.smallest.ukey) || Lt(f.largest.ukey, k))
    ensures forall e :: e in f.entries ==> e.key.ukey != k
  {
    LtOrder();
    hide Lt;
    forall e | e in f.entries ensures e.key.ukey != k {
      var i :| 0 <= i < |f.entries| && f.entries[i] == e;
      assert i == 0 || KeyLess(f.entries[0].key, f.entries[i].key);
      assert i == |f.entries| - 1 || KeyLess(f.entries[i].key, f.entries[|f.entries| - 1].key);
    }
  }

  lemma {:induction false} BaseLevelHasNone(v: seq<seq<File>>, level: nat, k: Bytes)
    requires |v| == NUM_LEVELS && BaseLevelFor(v, level, k)
    requires forall l, i :: level + 2 <= l < NUM_LEVELS && 0 <= i < |v[l]| ==> FileOk(v[l][i])
    ensures forall e :: e in ContentsFrom(v, level + 2) ==> e.key.ukey != k
  {
    forall e | e in ContentsFrom(v, level + 2) ensures e.key.ukey != k {
      var l :| level + 2 <= l < |v| && e in Contents(v[l]);
      var f :| f in v[l] && e in f.entries;
      var i :| 0 <= i < |v[l]| && v[l][i] == f;
      OutsideFile(f, k);
    }
  }

  /**
   * Over the inputs and the levels below the output, a compaction changes no read at or above the smallest snapshot.
   */
  lemma {:induction false} CompactionPreservesReads(input: seq<Entry>, v: seq<seq<File>>, level: nat, smallest: nat, u: Bytes, s: nat)
    requires |v| == NUM_LEVELS && Sorted(input) && smallest <= s
    requires forall l, i :: level + 2 <= l < NUM_LEVELS && 0 <= i < |v[l]| ==> FileOk(v[l][i])
    requires forall i :: 0 <= i < |input| ==> input[i].key.seqno > 0
    requires Distinct(EntrySet(input) + ContentsFrom(v, level + 2))
    ensures ReadAt(EntrySet(Kept(input, |input|, smallest, v, level)) + ContentsFrom(v, level + 2), u, s)
         == ReadAt(EntrySet(input) + ContentsFrom(v, level + 2), u, s)
  {
    var R := ContentsFrom(v, level + 2);
    forall e, f | e in input && BaseLevelFor(v, level, e.key.ukey) && f in R ensures f.key.ukey != e.key.ukey {
      BaseLevelHasNone(v, level, e.key.ukey);
    }
    KeptPreservesReads(input, v, level, smallest, R, u, s);
  }
}
