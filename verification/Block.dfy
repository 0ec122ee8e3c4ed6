/** Prefix-compressed blocks with restart points: the builder and the iterator (src/block_builder.rs, src/block.rs). */
module Block {
  import opened Bytes
  import opened Coding

  datatype Pair = Pair(key: Bytes, val: Bytes)

  // ----- the format -----

  /** SHARED, NON_SHARED and VALSIZE, then the rest of the key and the value. */
  function EntryBytes(shared: nat, e: Pair): (bs: Bytes)
    ensures |bs| >= 3
  {
    EncodeVar(shared) + EncodeVar(|Drop(e.key, shared)|) + EncodeVar(|e.val|) + Drop(e.key, shared) + e.val
  }

  function Drop(key: Bytes, n: nat): Bytes {
    if n <= |key| then key[n..] else []
  }

  /** A block's contents: its entries, how much of the previous key each one shares, and which ones are restarts. */
  datatype Layout = Layout(es: seq<Pair>, shared: seq<nat>, starts: seq<nat>)

  ghost predicate SharesPrefix(b: Layout, i: nat)
    requires i < |b.es| == |b.shared|
  {
    && b.shared[i] <= |b.es[i].key|
    && if i == 0 then b.shared[i] == 0
       else b.shared[i] <= |b.es[i - 1].key| && b.es[i].key[..b.shared[i]] == b.es[i - 1].key[..b.shared[i]]
  }

  ghost predicate LayoutOk(b: Layout): (ok: bool)
    ensures ok ==> |b.es| == |b.shared| && b.starts != []
  {
    && |b.es| == |b.shared|
    && (forall i :: 0 <= i < |b.es| ==> SharesPrefix(b, i))
    && b.starts != [] && b.starts[0] == 0
    && (forall j :: 0 < j < |b.starts| ==> b.starts[j - 1] < b.starts[j] < |b.es| && b.shared[b.starts[j]] == 0)
  }

  /** n is how far two keys agree: one of them ends there, or they differ there. */
  ghost predicate IsShared(a: Bytes, b: Bytes, n: nat) {
    && n <= |a| && n <= |b| && a[..n] == b[..n]
    && (n == |a| || n == |b| || a[n] != b[n])
  }

  /** Restarts come after every so many entries, and every other entry leaves out all that it shares with the one before. */
  ghost predicate Compressed(b: Layout, interval: nat)
    requires LayoutOk(b)
  {
    && (forall j :: 0 < j < |b.starts| ==> b.starts[j] == b.starts[j - 1] + interval)
    && |b.es| <= b.starts[|b.starts| - 1] + interval
    && forall i :: 0 < i < |b.es| && i !in b.starts ==> IsShared(b.es[i - 1].key, b.es[i].key, b.shared[i])
  }

  /** The first n entries. */
  function Encoded(b: Layout, n: nat): Bytes
    requires n <= |b.es| == |b.shared|
  {
    if n == 0 then [] else Encoded(b, n - 1) + EntryBytes(b.shared[n - 1], b.es[n - 1])
  }

  /** Where the i-th entry starts. */
  function Pos(b: Layout, i: nat): nat
    requires i <= |b.es| == |b.shared|
  {
    |Encoded(b, i)|
  }

  function RestartBytes(offs: seq<nat>): (bs: Bytes)
    ensures |bs| == 4 * |offs|
  {
    if offs == [] then [] else RestartBytes(offs[..|offs| - 1]) + EncodeFixed(4, offs[|offs| - 1])
  }

  ghost function RestartOffsets(b: Layout): seq<nat>
    requires LayoutOk(b)
  {
    seq(|b.starts|, j requires 0 <= j < |b.starts| => Pos(b, b.starts[j]))
  }

  ghost function BlockBytes(b: Layout): Bytes
    requires LayoutOk(b)
  {
    Encoded(b, |b.es|) + RestartBytes(RestartOffsets(b)) + EncodeFixed(4, |b.starts|)
  }

  /** Offsets and counts fit 32 bits. */
  ghost predicate SmallBlock(b: Layout)
    requires LayoutOk(b)
  {
    Pos(b, |b.es|) < 0x1_0000_0000 && |b.starts| < 0x1_0000_0000
  }

  // ----- the builder -----

  ghost predicate SameEntry(b: Layout, b': Layout, i: nat)
    requires i < |b.es| == |b.shared| && i < |b'.es| == |b'.shared|
  {
    b.es[i] == b'.es[i] && b.shared[i] == b'.shared[i]
  }

  lemma {:induction false} EncodedAgrees(b: Layout, b': Layout, n: nat)
    requires n <= |b.es| == |b.shared| && n <= |b'.es| == |b'.shared|
    requires forall i :: 0 <= i < n ==> SameEntry(b, b', i)
    ensures Encoded(b, n) == Encoded(b', n)
  {
    hide EntryBytes;
    if n > 0 {
      EncodedAgrees(b, b', n - 1);
      assert SameEntry(b, b', n - 1);
    }
  }

  class BlockBuilder {
    const interval: nat
    const less: (Bytes, Bytes) -> bool
    var buffer: Bytes
    var restarts: seq<nat>
    var lastKey: Bytes
    var restartCounter: nat
    var counter: nat
    ghost var layout: Layout

    /** The buffer holds the layout; a restart comes after every `interval` entries. */
    ghost predicate Valid()
      reads this
    {
      && 1 <= interval && LayoutOk(layout)
      && buffer == Encoded(layout, |layout.es|)
      && restarts == RestartOffsets(layout)
      && counter == |layout.es|
      && (layout.es != [] ==> lastKey == layout.es[|layout.es| - 1].key)
      && (layout.es == [] ==> lastKey == [] && layout.starts == [0])
      && restartCounter == |layout.es| - layout.starts[|layout.starts| - 1]
      && (layout.es != [] ==> 0 < restartCounter)
      && Compressed(layout, interval)
    }

    constructor (interval: nat, less: (Bytes, Bytes) -> bool)
      requires 1 <= interval
      ensures Valid() && this.interval == interval && this.less == less && layout.es == []
    {
      this.interval, this.less := interval, less;
      buffer, restarts, lastKey := [], [0], [];
      restartCounter, counter := 0, 0;
      layout := Layout([], [], [0]);
    }

    /** How much of the key the previous one shares. */
    method SharedWithLast(key: Bytes) returns (shared: nat)
      ensures IsShared(lastKey, key, shared)
    {
      var smallest := if |lastKey| < |key| then |lastKey| else |key|;
      shared := 0;
      while shared < smallest && lastKey[shared] == key[shared]
        invariant 0 <= shared <= smallest && key[..shared] == lastKey[..shared]
      {
        shared := shared + 1;
      }
    }

    method Add(key: Bytes, val: Bytes)
      requires Valid()
      requires buffer == [] || less(lastKey, key)
      modifies this
      ensures Valid() && layout.es == old(layout.es) + [Pair(key, val)]
    {
      hide EntryBytes;
      hide LayoutOk;
      hide Encoded;
      hide RestartOffsets;
      hide Compressed;
      CompressedFacts(layout, interval);
      var shared := 0;
      ghost var was := layout;
      var restart := restartCounter >= interval;
      if !restart {
        shared := SharedWithLast(key);
      } else {
        restarts := restarts + [|buffer|];
        lastKey := [];
        restartCounter := 0;
      }
      AddFits(was, Pair(key, val), shared, restart);
      AddCompresses(was, Pair(key, val), shared, restart, interval);
      layout := Extended(was, Pair(key, val), shared, restart);
      WriteEntry(key, val, shared);
      lastKey := lastKey[..shared] + key[shared..];
      restartCounter := restartCounter + 1;
      counter := counter + 1;
      assert lastKey == key;
    }

    method Finish() returns (block: Bytes)
      requires Valid()
      ensures block == BlockBytes(layout)
    {
      hide Encoded;
      hide EncodeFixed;
      hide SharesPrefix;
      block := buffer;
      for i := 0 to |restarts|
        invariant block == buffer + RestartBytes(restarts[..i])
      {
        assert restarts[..i + 1][..i] == restarts[..i];
        block := block + EncodeFixed(4, restarts[i]);
      }
      assert restarts[..|restarts|] == restarts;
      block := block + EncodeFixed(4, |restarts|);
    }

    method WriteEntry(key: Bytes, val: Bytes, shared: nat)
      requires shared <= |key|
      modifies this`buffer
      ensures buffer == old(buffer) + EntryBytes(shared, Pair(key, val))
    {
      var nonShared := |key| - shared;
      buffer := buffer + EncodeVar(shared);
      buffer := buffer + EncodeVar(nonShared);
      buffer := buffer + EncodeVar(|val|);
      buffer := buffer + key[shared..];
      buffer := buffer + val;
    }
  }

  lemma {:induction false} CompressedFacts(b: Layout, interval: nat)
    requires LayoutOk(b) && Compressed(b, interval)
    ensures |b.es| <= b.starts[|b.starts| - 1] + interval
  {
  }

  lemma {:induction false} AddCompresses(b: Layout, e: Pair, shared: nat, restart: bool, interval: nat)
    requires LayoutOk(b) && Compressed(b, interval) && LayoutOk(Extended(b, e, shared, restart)) && 1 <= interval
    requires restart <==> |b.es| >= b.starts[|b.starts| - 1] + interval
    requires b.es != [] && !restart ==> IsShared(b.es[|b.es| - 1].key, e.key, shared)
    ensures Compressed(Extended(b, e, shared, restart), interval)
  {
    hide SharesPrefix;
    hide IsShared;
    var b' := Extended(b, e, shared, restart);
    assert restart ==> |b.es| == b.starts[|b.starts| - 1] + interval && |b.es| in b'.starts by {
      assert restart ==> b'.starts == b.starts + [|b.es|];
    }
    forall i | 0 < i < |b'.es| && i !in b'.starts ensures IsShared(b'.es[i - 1].key, b'.es[i].key, b'.shared[i]) {
      if i < |b.es| {
        assert i !in b.starts by {
          assert forall j :: 0 <= j < |b.starts| ==> b'.starts[j] == b.starts[j];
        }
      }
    }
  }

  lemma {:induction false} RestartNone()
    ensures RestartBytes([]) == []
  {
  }

  lemma {:induction false} RestartMore(offs: seq<nat>, x: nat)
    ensures RestartBytes(offs + [x]) == RestartBytes(offs) + EncodeFixed(4, x)
  {
    hide EncodeFixed;
    assert (offs + [x])[..|offs|] == offs;
  }

  ghost function Extended(b: Layout, e: Pair, shared: nat, restart: bool): Layout {
    Layout(b.es + [e], b.shared + [shared], if restart then b.starts + [|b.es|] else b.starts)
  }

  lemma {:induction false} ExtendedShares(b: Layout, e: Pair, shared: nat, restart: bool, i: nat)
    requires LayoutOk(b) && shared <= |e.key| && i <= |b.es|
    requires b.es != [] ==> shared <= |b.es[|b.es| - 1].key| && e.key[..shared] == b.es[|b.es| - 1].key[..shared]
    requires b.es == [] ==> shared == 0
    ensures SharesPrefix(Extended(b, e, shared, restart), i)
  {
    assert i < |b.es| ==> SharesPrefix(b, i);
  }

  lemma {:induction false} AddFits(b: Layout, e: Pair, shared: nat, restart: bool)
    requires LayoutOk(b) && shared <= |e.key|
    requires b.es != [] ==> shared <= |b.es[|b.es| - 1].key| && e.key[..shared] == b.es[|b.es| - 1].key[..shared]
    requires b.es == [] ==> shared == 0
    requires restart ==> shared == 0 && b.starts[|b.starts| - 1] < |b.es|
    ensures var b' := Extended(b, e, shared, restart);
            && LayoutOk(b')
            && Encoded(b', |b'.es|) == Encoded(b, |b.es|) + EntryBytes(shared, e)
            && RestartOffsets(b') == RestartOffsets(b) + if restart then [Pos(b, |b.es|)] else []
  {
    hide EntryBytes;
    hide SharesPrefix;
    hide Encoded;
    var b', n := Extended(b, e, shared, restart), |b.es|;
    forall i | 0 <= i <= n ensures SharesPrefix(b', i) {
      ExtendedShares(b, e, shared, restart, i);
    }
    EncodedAgrees(b, b', n);
    EncodedLast(b', n);
    forall j | 0 <= j < |b.starts| ensures Pos(b', b.starts[j]) == Pos(b, b.starts[j]) {
      EncodedAgrees(b, b', b.starts[j]);
    }
  }

  lemma {:induction false} EncodedLast(b: Layout, n: nat)
    requires n < |b.es| == |b.shared|
    ensures Encoded(b, n + 1) == Encoded(b, n) + EntryBytes(b.shared[n], b.es[n])
  {
    hide EntryBytes;
  }

  // ----- reading the format -----

  lemma {:induction false} EncodedPrefix(b: Layout, i: nat, n: nat)
    requires i <= n <= |b.es| == |b.shared|
    ensures Encoded(b, i) <= Encoded(b, n)
    ensures i < n ==> Pos(b, i) < Pos(b, n)
  {
    hide EntryBytes;
    if i < n {
      EncodedPrefix(b, i, n - 1);
    }
  }

  lemma {:induction false} PosOrder(b: Layout)
    requires |b.es| == |b.shared|
    ensures forall i, j :: 0 <= i < j <= |b.es| ==> Pos(b, i) < Pos(b, j)
    ensures Pos(b, 0) == 0
  {
    hide Pos;
    forall i, j | 0 <= i < j <= |b.es| ensures Pos(b, i) < Pos(b, j) {
      EncodedPrefix(b, i, j);
    }
    assert Pos(b, 0) == 0 by { FirstPos(b); }
  }

  lemma {:induction false} FirstPos(b: Layout)
    requires |b.es| == |b.shared|
    ensures Pos(b, 0) == 0
  {
  }

  lemma {:induction false} EntryAt(b: Layout, i: nat)
    requires LayoutOk(b) && i < |b.es|
    ensures var block := BlockBytes(b);
            && Pos(b, i) + |EntryBytes(b.shared[i], b.es[i])| == Pos(b, i + 1) <= Pos(b, |b.es|) < |block|
            && block[Pos(b, i)..] == EntryBytes(b.shared[i], b.es[i]) + block[Pos(b, i + 1)..]
  {
    hide EntryBytes;
    hide RestartBytes;
    hide RestartOffsets;
    hide LayoutOk;
    var n, block := |b.es|, BlockBytes(b);
    EncodedPrefix(b, i + 1, n);
    var enc := Encoded(b, i) + EntryBytes(b.shared[i], b.es[i]);
    assert enc == Encoded(b, i + 1) <= Encoded(b, n) <= block;
    assert block == enc + block[|enc|..];
    assert block[Pos(b, i)..] == EntryBytes(b.shared[i], b.es[i]) + block[|enc|..];
  }

  lemma {:induction false} RestartSlice(offs: seq<nat>, j: nat)
    requires j < |offs|
    ensures RestartBytes(offs)[4 * j..4 * j + 4] == EncodeFixed(4, offs[j])
  {
    hide EncodeFixed;
    if j < |offs| - 1 {
      RestartSlice(offs[..|offs| - 1], j);
      assert RestartBytes(offs)[4 * j..4 * j + 4] == RestartBytes(offs[..|offs| - 1])[4 * j..4 * j + 4];
    }
  }

  lemma {:induction false} Fixed32(x: nat)
    requires x < 0x1_0000_0000
    ensures DecodeFixed(EncodeFixed(4, x)) == x
  {
    assert Limit(0) == 1 && Limit(1) == 0x100 && Limit(2) == 0x1_0000 && Limit(3) == 0x100_0000 && Limit(4) == 0x1_0000_0000;
    FixedRoundTrip(4, x);
  }

  lemma {:induction false} RestartAt(b: Layout, j: nat)
    requires LayoutOk(b) && SmallBlock(b) && j < |b.starts|
    ensures var block, off := BlockBytes(b), Pos(b, |b.es|) + 4 * j;
            off + 4 <= |block| && b.starts[j] <= |b.es| && DecodeFixed(block[off..off + 4]) == Pos(b, b.starts[j])
  {
    hide Encoded;
    hide RestartBytes;
    hide EncodeFixed;
    hide DecodeFixed;
    hide SharesPrefix;
    var block, enc, rb := BlockBytes(b), Encoded(b, |b.es|), RestartBytes(RestartOffsets(b));
    RestartSlice(RestartOffsets(b), j);
    assert block[|enc| + 4 * j..|enc| + 4 * j + 4] == rb[4 * j..4 * j + 4];
    PosOrder(b);
    Fixed32(Pos(b, b.starts[j]));
  }

  lemma {:induction false} CountAt(b: Layout)
    requires LayoutOk(b) && SmallBlock(b)
    ensures var block := BlockBytes(b);
            |block| >= 4 && DecodeFixed(block[|block| - 4..]) == |b.starts| && |block| == Pos(b, |b.es|) + 4 * |b.starts| + 4
  {
    hide Encoded;
    hide EncodeFixed;
    hide DecodeFixed;
    hide SharesPrefix;
    var block := BlockBytes(b);
    assert block[|block| - 4..] == EncodeFixed(4, |b.starts|);
    Fixed32(|b.starts|);
  }

  function HeadLen(shared: nat, e: Pair): nat {
    |EncodeVar(shared)| + |EncodeVar(|Drop(e.key, shared)|)| + |EncodeVar(|e.val|)|
  }

  /** The bytes from one offset to another. */
  ghost predicate Slice(bs: Bytes, from: nat, to: nat, part: Bytes) {
    from <= to <= |bs| && bs[from..to] == part
  }

  ghost predicate VarAt(bs: Bytes, p: nat, x: nat, len: nat) {
    p <= |bs| && DecodeVar(bs[p..]) == Some((x, len))
  }

  /** The three lengths, the rest of the key and the value, one after the other. */
  ghost predicate ParsesAt(bs: Bytes, p: nat, shared: nat, e: Pair) {
    var i1 := |EncodeVar(shared)|;
    var i2 := i1 + |EncodeVar(|Drop(e.key, shared)|)|;
    var i3 := HeadLen(shared, e);
    var i4 := i3 + |Drop(e.key, shared)|;
    && VarAt(bs, p, shared, i1)
    && VarAt(bs, p + i1, |Drop(e.key, shared)|, i2 - i1)
    && VarAt(bs, p + i2, |e.val|, i3 - i2)
    && Slice(bs, p + i3, p + i4, Drop(e.key, shared))
    && Slice(bs, p + i4, p + i4 + |e.val|, e.val)
    && i4 + |e.val| == |EntryBytes(shared, e)|
  }

  lemma {:induction false} VarHere(pre: Bytes, x: nat, rest: Bytes)
    ensures VarAt(pre + (EncodeVar(x) + rest), |pre|, x, |EncodeVar(x)|)
  {
    hide EncodeVar;
    hide DecodeVar;
    var bs := pre + (EncodeVar(x) + rest);
    assert bs[|pre|..] == EncodeVar(x) + rest;
    VarRoundTrip(x, rest);
  }

  lemma {:induction false} SliceHere(pre: Bytes, part: Bytes, rest: Bytes)
    ensures Slice(pre + (part + rest), |pre|, |pre| + |part|, part)
  {
  }

  lemma {:induction false} ParseEntry(pre: Bytes, shared: nat, e: Pair, rest: Bytes)
    ensures ParsesAt(pre + (EntryBytes(shared, e) + rest), |pre|, shared, e)
  {
    hide EncodeVar;
    hide DecodeVar;
    hide VarAt;
    hide Slice;
    hide Drop;
    var s, key, v := EncodeVar(shared), Drop(e.key, shared), EncodeVar(|e.val|);
    var k := EncodeVar(|key|);
    var bs := pre + (EntryBytes(shared, e) + rest);
    assert bs == pre + (s + (k + v + key + e.val + rest));
    VarHere(pre, shared, k + v + key + e.val + rest);
    assert bs == (pre + s) + (k + (v + key + e.val + rest));
    VarHere(pre + s, |key|, v + key + e.val + rest);
    assert bs == (pre + s + k) + (v + (key + e.val + rest));
    VarHere(pre + s + k, |e.val|, key + e.val + rest);
    assert bs == (pre + s + k + v) + (key + (e.val + rest));
    SliceHere(pre + s + k + v, key, e.val + rest);
    assert bs == (pre + s + k + v + key) + (e.val + rest);
    SliceHere(pre + s + k + v + key, e.val, rest);
  }

  lemma {:induction false} EntryParses(b: Layout, i: nat)
    requires LayoutOk(b) && i < |b.es|
    ensures ParsesAt(BlockBytes(b), Pos(b, i), b.shared[i], b.es[i])
    ensures Pos(b, i) + |EntryBytes(b.shared[i], b.es[i])| == Pos(b, i + 1) && b.shared[i] <= |b.es[i].key|
  {
    hide EntryBytes;
    hide BlockBytes;
    hide Encoded;
    hide LayoutOk;
    hide ParsesAt;
    SharedFits(b, i);
    EntryAt(b, i);
    var block, p := BlockBytes(b), Pos(b, i);
    ParseEntry(block[..p], b.shared[i], b.es[i], block[Pos(b, i + 1)..]);
    assert block == block[..p] + block[p..];
  }

  // ----- the iterator -----

  /** The first n bytes of the next key are in place. */
  ghost predicate HasShared(key: Bytes, next: Bytes, n: nat) {
    n <= |key| && n <= |next| && key[..n] == next[..n]
  }

  ghost predicate Ascending(es: seq<Pair>, less: (Bytes, Bytes) -> bool) {
    forall i, j :: 0 <= i < j < |es| ==> less(es[i].key, es[j].key)
  }

  ghost predicate Transitive(less: (Bytes, Bytes) -> bool) {
    forall a, b, c {:trigger less(a, b), less(b, c)} :: less(a, b) && less(b, c) ==> less(a, c)
  }

  /** Only the first key may be empty, as in every order in which the empty key is least. */
  ghost predicate OnlyFirstEmpty(es: seq<Pair>) {
    forall i :: 0 < i < |es| ==> es[i].key != []
  }

  /** The first entry whose key is not less, or none. */
  ghost predicate IsBound(es: seq<Pair>, less: (Bytes, Bytes) -> bool, to: Bytes, at: Option<nat>) {
    match at
    case Some(i) => i < |es| && !less(es[i].key, to) && forall k :: 0 <= k < i ==> less(es[k].key, to)
    case None => forall k :: 0 <= k < |es| ==> less(es[k].key, to)
  }

  /** A search stays on the first entry: its key is empty, and the search starts there. */
  ghost predicate Halted(b: Layout, less: (Bytes, Bytes) -> bool, to: Bytes)
    requires LayoutOk(b)
  {
    && b.es != [] && b.es[0].key == [] && less([], to)
    && (|b.starts| == 1 || !less(b.es[b.starts[1]].key, to))
  }

  class BlockIter {
    const block: Bytes
    const less: (Bytes, Bytes) -> bool
    const restartsOff: nat
    var offset: nat
    var currentEntryOffset: nat
    var currentRestartIx: nat
    var key: Bytes
    var valOffset: nat
    ghost const layout: Layout
    /** The entry the iterator is on, if any; the entry at the offset; the entry it was on last. */
    ghost var at: Option<nat>
    ghost var next: nat
    ghost var mark: nat

    ghost predicate Fixed(): (ok: bool)
      ensures ok ==> LayoutOk(layout) && restartsOff == Pos(layout, |layout.es|)
    {
      && LayoutOk(layout) && SmallBlock(layout) && block == BlockBytes(layout)
      && restartsOff == Pos(layout, |layout.es|)
      && OnlyFirstEmpty(layout.es)
    }

    /** The iterator can parse the next entry. */
    ghost predicate Ready()
      reads this
    {
      && Fixed()
      && next <= |layout.es| && offset == Pos(layout, next)
      && currentRestartIx < |layout.starts| && layout.starts[currentRestartIx] <= next
      && (next < |layout.es| ==> HasShared(key, layout.es[next].key, layout.shared[next]))
      && (mark < |layout.es| || mark == 0) && currentEntryOffset == Pos(layout, mark)
    }

    ghost predicate Valid()
      reads this
    {
      && Ready()
      && match at
         case Some(i) =>
           && mark == i && next == i + 1 && layout.starts[currentRestartIx] <= i
           && key == layout.es[i].key && 0 < valOffset && Slice(block, valOffset, offset, layout.es[i].val)
         case None => next == 0 && valOffset == 0 && currentRestartIx == 0 && key == []
    }

    constructor (block: Bytes, less: (Bytes, Bytes) -> bool, ghost layout: Layout)
      requires LayoutOk(layout) && SmallBlock(layout) && block == BlockBytes(layout)
      requires OnlyFirstEmpty(layout.es)
      ensures Valid() && at == None && mark == 0 && this.layout == layout && this.less == less
    {
      CountAt(layout);
      FirstPos(layout);
      FirstShares(layout);
      var restarts := DecodeFixed(block[|block| - 4..]);
      this.block, this.less, this.layout := block, less, layout;
      restartsOff := |block| - 4 - 4 * restarts;
      offset, currentEntryOffset, currentRestartIx, key, valOffset := 0, 0, 0, [], 0;
      at, next, mark := None, 0, 0;
    }

    method NumberRestarts() returns (n: nat)
      requires Fixed()
      ensures n == |layout.starts|
    {
      hide BlockBytes;
      hide LayoutOk;
      hide SmallBlock;
      hide DecodeFixed;
      hide Pos;
      CountAt(layout);
      n := DecodeFixed(block[|block| - 4..]);
    }

    method GetRestartPoint(ix: nat) returns (off: nat)
      requires Fixed() && ix < |layout.starts|
      ensures layout.starts[ix] <= |layout.es| && off == Pos(layout, layout.starts[ix])
    {
      hide BlockBytes;
      hide LayoutOk;
      hide SmallBlock;
      hide DecodeFixed;
      hide Pos;
      RestartAt(layout, ix);
      var restart := restartsOff + 4 * ix;
      off := DecodeFixed(block[restart..restart + 4]);
    }

    /** Reads the lengths of the entry at the offset and moves the offset behind it. */
    method ParseEntryAndAdvance(ghost i: nat) returns (shared: nat, nonShared: nat, headLen: nat)
      requires Fixed() && i < |layout.es| && offset == Pos(layout, i)
      modifies this`offset, this`valOffset
      ensures shared == layout.shared[i] <= |layout.es[i].key|
      ensures offset == Pos(layout, i + 1) && 0 < valOffset
      ensures Slice(block, valOffset, offset, layout.es[i].val)
      ensures old(offset) + headLen + nonShared == valOffset
      ensures Slice(block, old(offset) + headLen, valOffset, Drop(layout.es[i].key, shared))
    {
      hide DecodeVar;
      hide BlockBytes;
      hide Pos;
      hide LayoutOk;
      hide SmallBlock;
      hide Slice;
      hide Drop;
      hide OnlyFirstEmpty;
      EntryParses(layout, i);
      var n := 0;
      var r := DecodeVar(block[offset..]);
      shared := r.value.0;
      n := n + r.value.1;
      r := DecodeVar(block[offset + n..]);
      nonShared := r.value.0;
      n := n + r.value.1;
      r := DecodeVar(block[offset + n..]);
      var valsize := r.value.0;
      n := n + r.value.1;
      headLen := n;
      valOffset := offset + n + nonShared;
      offset := valOffset + valsize;
    }

    /** The key from the part that is in place and the part in the block. */
    method AssembleKey(off: nat, shared: nat, nonShared: nat, ghost target: Bytes)
      requires HasShared(key, target, shared) && Slice(block, off, off + nonShared, Drop(target, shared))
      modifies this`key
      ensures key == target
    {
      key := key[..shared];
      key := key + block[off..off + nonShared];
    }

    method Reset()
      requires Ready()
      modifies this`offset, this`valOffset, this`currentRestartIx, this`key, this`at, this`next
      ensures Valid() && at == None
    {
      hide LayoutOk;
      hide SmallBlock;
      hide BlockBytes;
      hide Pos;
      FirstShares(layout);
      FirstPos(layout);
      offset, valOffset, currentRestartIx, key := 0, 0, 0, [];
      at, next := None, 0;
    }

    /** Moves to the next entry; past the last one, to before the first. */
    method Advance() returns (ok: bool)
      requires Ready()
      modifies this
      ensures Valid() && ok == at.Some?
      ensures old(next) < |layout.es| ==> at == Some(old(next))
      ensures old(next) == |layout.es| ==> at == None && mark == old(mark)
    {
      hide LayoutOk;
      hide Fixed;
      hide Pos;
      hide HasShared;
      hide Slice;
      hide Drop;
      PosOrder(layout);
      if offset >= restartsOff {
        Reset();
        return false;
      }
      currentEntryOffset := offset;
      ghost var i := next;
      var currentOff := currentEntryOffset;
      var shared, nonShared, headLen := ParseEntryAndAdvance(i);
      AssembleKey(currentOff + headLen, shared, nonShared, layout.es[i].key);
      at, next, mark := Some(i), i + 1, i;
      SharesNext(layout, i);
      AdjustRestart();
      return true;
    }

    /** Moves the restart index up while the next restart lies before the current entry. */
    method AdjustRestart()
      requires Fixed() && mark < |layout.es| && currentEntryOffset == Pos(layout, mark)
      requires currentRestartIx < |layout.starts| && layout.starts[currentRestartIx] <= mark
      modifies this`currentRestartIx
      ensures currentRestartIx < |layout.starts| && layout.starts[currentRestartIx] <= mark
    {
      hide LayoutOk;
      hide Fixed;
      hide Pos;
      PosOrder(layout);
      var numRestarts := NumberRestarts();
      while currentRestartIx + 1 < numRestarts
        invariant currentRestartIx < numRestarts && layout.starts[currentRestartIx] <= mark
      {
        var point := GetRestartPoint(currentRestartIx + 1);
        if point >= currentEntryOffset {
          break;
        }
        currentRestartIx := currentRestartIx + 1;
      }
    }

    /** On the entry of a restart point; false, where the source panics, if its key is empty. */
    method SeekToRestartPoint(ix: nat) returns (ok: bool)
      requires Fixed() && ix < |layout.starts| && layout.es != []
      modifies this
      ensures Valid() && at == Some(layout.starts[ix]) && currentRestartIx == ix && key == layout.es[layout.starts[ix]].key
      ensures ok <==> key != []
    {
      hide LayoutOk;
      hide Fixed;
      hide Pos;
      hide HasShared;
      hide Slice;
      hide Drop;
      var off := GetRestartPoint(ix);
      RestartShares(layout, ix, key);
      ghost var i := layout.starts[ix];
      offset, currentEntryOffset, currentRestartIx := off, off, ix;
      var shared, nonShared, headLen := ParseEntryAndAdvance(i);
      assert shared == 0;
      AssembleKey(off + headLen, shared, nonShared, layout.es[i].key);
      at, next, mark := Some(i), i + 1, i;
      SharesNext(layout, i);
      return key != [];
    }

    /** On the last entry; false, where the source panics, if the last restart is the first entry and its key is empty. */
    method SeekToLast() returns (ok: bool)
      requires Valid() && layout.es != []
      modifies this
      ensures Valid()
      ensures ok <==> |layout.starts| > 1 || layout.es[0].key != []
      ensures ok ==> at == Some(|layout.es| - 1)
    {
      hide LayoutOk;
      hide Fixed;
      hide Pos;
      hide HasShared;
      hide Slice;
      LastRestart(layout);
      FewEmpty();
      var numRestarts := NumberRestarts();
      ok := SeekToRestartPoint(numRestarts - 1);
      if ok {
        AdvanceToLast();
      }
    }

    /** Moves on as long as an entry follows. */
    method AdvanceToLast()
      requires Valid() && at.Some?
      modifies this
      ensures Valid() && at == Some(|layout.es| - 1)
    {
      hide LayoutOk;
      hide Fixed;
      hide Pos;
      hide HasShared;
      hide Slice;
      PosOrder(layout);
      while offset < restartsOff
        invariant Valid() && at.Some?
        decreases |layout.es| - next
      {
        var _ := Advance();
      }
    }

    /** Moves to the entry before the one it was on last; from the first entry, to before it. */
    method Prev() returns (ok: bool)
      requires Valid()
      modifies this
      ensures Valid() && ok == at.Some?
      ensures at == if old(mark) == 0 then None else Some(old(mark) - 1)
    {
      hide LayoutOk;
      hide Fixed;
      hide Pos;
      hide HasShared;
      hide Slice;
      PosOrder(layout);
      FirstShares(layout);
      var origOffset := currentEntryOffset;
      ghost var orig := mark;
      if origOffset == 0 {
        Reset();
        return false;
      }
      currentRestartIx := RestartBefore(origOffset, orig);
      offset := GetRestartPoint(currentRestartIx);
      assert offset < origOffset;
      next := layout.starts[currentRestartIx];
      RestartShares(layout, currentRestartIx, key);
      ok := Advance();
      while offset < origOffset
        invariant Valid() && ok && at.Some? && at.value < orig
        decreases orig - next
      {
        ok := Advance();
      }
    }

    /** The nearest restart point, at or below the current one, that lies before an entry. */
    method RestartBefore(origOffset: nat, ghost orig: nat) returns (ix: nat)
      requires Fixed() && 0 < orig < |layout.es| && origOffset == Pos(layout, orig) && currentRestartIx < |layout.starts|
      ensures ix <= currentRestartIx && layout.starts[ix] < orig
    {
      hide LayoutOk;
      hide Fixed;
      hide Pos;
      PosOrder(layout);
      FirstShares(layout);
      ix := currentRestartIx;
      while true
        invariant ix <= currentRestartIx
        decreases ix
      {
        var point := GetRestartPoint(ix);
        if point < origOffset {
          break;
        }
        assert ix != 0;
        ix := ix - 1;
      }
    }

    /**
     * Moves to the first entry whose key is not less, or past the end if there is none: exactly unless it halts at an
     * empty first key, which it takes for the end.
     */
    method Seek(to: Bytes)
      requires Valid() && Ascending(layout.es, less) && Transitive(less)
      modifies this
      ensures Valid()
      ensures IsBound(layout.es, less, to, at) <==> !Halted(layout, less, to)
      ensures Halted(layout, less, to) ==> at == Some(0)
    {
      hide LayoutOk;
      hide Fixed;
      hide Pos;
      hide HasShared;
      hide Slice;
      hide Halted;
      Reset();
      var left := FindRestart(to);
      HaltsAt(layout, less, to, left);
      currentRestartIx := left;
      offset := GetRestartPoint(left);
      next := layout.starts[left];
      RestartShares(layout, left, key);
      Scan(to);
    }

    /** Moves on until a key is not less, an empty key or the end. */
    method Scan(to: Bytes)
      requires Ready() && forall k :: 0 <= k < next ==> less(layout.es[k].key, to)
      modifies this
      ensures Valid()
      ensures var halts := old(next) == 0 && layout.es != [] && layout.es[0].key == [] && less([], to);
              if halts then at == Some(0) else IsBound(layout.es, less, to, at)
    {
      hide LayoutOk;
      hide Fixed;
      hide Pos;
      hide HasShared;
      hide Slice;
      while true
        invariant Ready() && old(next) <= next
        invariant forall k :: 0 <= k < next ==> less(layout.es[k].key, to)
        invariant next > 0 && old(next) == 0 ==> layout.es[0].key != []
        decreases |layout.es| - next
      {
        FewEmpty();
        var ok := Advance();
        if !ok {
          return;
        }
        var c := Current();
        if c == None || !less(c.value.0, to) {
          return;
        }
      }
    }

    lemma {:induction false} FewEmpty()
      requires Fixed()
      ensures OnlyFirstEmpty(layout.es)
    {
    }

    /** Binary search for the last restart point whose key is less; the first one if there is none. */
    method FindRestart(to: Bytes) returns (left: nat)
      requires Valid() && Ascending(layout.es, less) && Transitive(less)
      modifies this
      ensures Ready() && left < |layout.starts|
      ensures forall k :: 0 <= k < layout.starts[left] && k < |layout.es| ==> less(layout.es[k].key, to)
      ensures Below(layout, less, to, left) && NotBelow(layout, less, to, left + 1)
    {
      hide LayoutOk;
      hide Fixed;
      hide Pos;
      hide HasShared;
      hide Slice;
      hide Ascending;
      hide Transitive;
      FirstShares(layout);
      left := 0;
      var right := NumberRestarts();
      right := right - 1;
      while left < right
        invariant Ready()
        invariant left <= right < |layout.starts|
        invariant Below(layout, less, to, left) && NotBelow(layout, less, to, right + 1)
      {
        var middle := (left + right + 1) / 2;
        LaterRestart(layout, middle);
        FewEmpty();
        var ok := SeekToRestartPoint(middle);
        assert ok;
        if less(key, to) {
          left := middle;
        } else {
          right := middle - 1;
        }
      }
      AllBelow(layout, less, to, left);
    }

    method Current() returns (r: Option<(Bytes, Bytes)>)
      requires Valid()
      ensures r == match at
                   case Some(i) => if layout.es[i].key == [] then None else Some((layout.es[i].key, layout.es[i].val))
                   case None => None
    {
      hide LayoutOk;
      hide Encoded;
      hide BlockBytes;
      PosOrder(layout);
      if key != [] && valOffset > 0 && valOffset <= restartsOff {
        return Some((key, block[valOffset..offset]));
      } else {
        return None;
      }
    }
  }

  lemma {:induction false} RestartShares(b: Layout, ix: nat, key: Bytes)
    requires LayoutOk(b) && ix < |b.starts|
    ensures b.starts[ix] <= |b.es|
    ensures b.starts[ix] < |b.es| ==> b.shared[b.starts[ix]] == 0 && HasShared(key, b.es[b.starts[ix]].key, 0)
    ensures b.es != [] ==> b.starts[ix] < |b.es|
  {
    FirstShares(b);
    hide SharesPrefix;
  }

  /** In a block of an empty key and one more, a search for the second stays on the first. */
  lemma {:induction false} EmptyKeyHalts(less: (Bytes, Bytes) -> bool, v: Bytes, e: Pair) returns (b: Layout)
    requires e.key != [] && less([], e.key) && !less(e.key, e.key)
    ensures LayoutOk(b) && b.es == [Pair([], v), e] && OnlyFirstEmpty(b.es) && Ascending(b.es, less)
    ensures Halted(b, less, e.key) && IsBound(b.es, less, e.key, Some(1))
  {
    b := Layout([Pair([], v), e], [0, 0], [0]);
    assert SharesPrefix(b, 0) && SharesPrefix(b, 1);
  }

  /** The restart point is the first, or its key is less. */
  ghost predicate Below(b: Layout, less: (Bytes, Bytes) -> bool, to: Bytes, ix: nat)
    requires LayoutOk(b)
  {
    0 < ix < |b.starts| ==> less(b.es[b.starts[ix]].key, to)
  }

  ghost predicate NotBelow(b: Layout, less: (Bytes, Bytes) -> bool, to: Bytes, ix: nat)
    requires LayoutOk(b)
  {
    0 < ix < |b.starts| ==> !less(b.es[b.starts[ix]].key, to)
  }

  lemma {:induction false} AllBelow(b: Layout, less: (Bytes, Bytes) -> bool, to: Bytes, ix: nat)
    requires LayoutOk(b) && Ascending(b.es, less) && Transitive(less) && ix < |b.starts| && Below(b, less, to, ix)
    ensures forall k :: 0 <= k < b.starts[ix] && k < |b.es| ==> less(b.es[k].key, to)
  {
    hide SharesPrefix;
    if ix > 0 {
      LaterRestart(b, ix);
    }
  }

  lemma {:induction false} HaltsAt(b: Layout, less: (Bytes, Bytes) -> bool, to: Bytes, left: nat)
    requires LayoutOk(b) && Ascending(b.es, less) && Transitive(less) && left < |b.starts|
    requires Below(b, less, to, left) && NotBelow(b, less, to, left + 1)
    ensures Halted(b, less, to) <==> left == 0 && b.es != [] && b.es[0].key == [] && less([], to)
    ensures left > 0 ==> b.starts[left] > 0
    ensures b.starts[0] == 0
  {
    hide SharesPrefix;
    if left > 0 {
      LaterRestart(b, left);
      StartsAscend(b, 1, left);
      assert left > 1 ==> less(b.es[b.starts[1]].key, b.es[b.starts[left]].key);
    }
  }

  lemma {:induction false} StartsAscend(b: Layout, i: nat, j: nat)
    requires LayoutOk(b) && i <= j < |b.starts|
    ensures i < j ==> b.starts[i] < b.starts[j]
    ensures i == j ==> b.starts[i] == b.starts[j]
    decreases j
  {
    hide SharesPrefix;
    if i < j {
      StartsAscend(b, i, j - 1);
    }
  }

  lemma {:induction false} LaterRestart(b: Layout, ix: nat)
    requires LayoutOk(b) && 0 < ix < |b.starts|
    ensures 0 < b.starts[ix] < |b.es|
  {
    StartsAscend(b, 0, ix);
  }

  lemma {:induction false} LastRestart(b: Layout)
    requires LayoutOk(b) && b.es != []
    ensures |b.starts| == 1 ==> b.starts[|b.starts| - 1] == 0
    ensures |b.starts| > 1 ==> 0 < b.starts[|b.starts| - 1] < |b.es|
  {
    if |b.starts| > 1 {
      LaterRestart(b, |b.starts| - 1);
    }
  }

  lemma {:induction false} FirstShares(b: Layout)
    requires LayoutOk(b)
    ensures b.starts[0] == 0 && (b.es != [] ==> b.shared[0] == 0)
  {
    assert b.es != [] ==> SharesPrefix(b, 0);
  }

  /** An entry's key starts with what it shares with the previous key; that one serves the next entry. */
  lemma {:induction false} SharesNext(b: Layout, i: nat)
    requires LayoutOk(b) && i < |b.es|
    ensures i + 1 < |b.es| ==> HasShared(b.es[i].key, b.es[i + 1].key, b.shared[i + 1])
  {
    assert i + 1 < |b.es| ==> SharesPrefix(b, i + 1);
  }

  lemma {:induction false} SharedFits(b: Layout, i: nat)
    requires LayoutOk(b) && i < |b.es|
    ensures b.shared[i] <= |b.es[i].key|
  {
    assert SharesPrefix(b, i);
  }

  /** A block of these entries. */
  method BuildBlock(es: seq<Pair>, interval: nat, less: (Bytes, Bytes) -> bool) returns (block: Bytes, ghost layout: Layout)
    requires 1 <= interval && Ascending(es, less)
    ensures LayoutOk(layout) && Compressed(layout, interval) && layout.es == es && block == BlockBytes(layout)
  {
    hide LayoutOk;
    hide Compressed;
    var builder := new BlockBuilder(interval, less);
    for i := 0 to |es|
      invariant fresh(builder) && builder.Valid() && builder.interval == interval && builder.less == less
      invariant builder.layout.es == es[..i]
    {
      builder.Add(es[i].key, es[i].val);
      assert es[..i + 1] == es[..i] + [es[i]];
    }
    assert es[..|es|] == es;
    block := builder.Finish();
    layout := builder.layout;
  }

  /**
   * A search in the bytes of a block: the first entry whose key is not less. An empty first key is never found, and a
   * search that begins at it finds nothing.
   */
  method SeekBlock(block: Bytes, less: (Bytes, Bytes) -> bool, to: Bytes, ghost layout: Layout) returns (r: Option<Pair>)
    requires LayoutOk(layout) && SmallBlock(layout) && block == BlockBytes(layout)
    requires Ascending(layout.es, less) && Transitive(less) && OnlyFirstEmpty(layout.es)
    ensures match r
            case Some(e) => !Halted(layout, less, to) && e.key != [] &&
                            exists i {:trigger layout.es[i]} :: 0 <= i < |layout.es| && layout.es[i] == e && IsBound(layout.es, less, to, Some(i))
            case None => Halted(layout, less, to) || IsBound(layout.es, less, to, None)
                         || (layout.es != [] && layout.es[0].key == [] && !less([], to))
  {
    hide LayoutOk;
    hide Transitive;
    hide Ascending;
    hide BlockBytes;
    hide SmallBlock;
    var it := new BlockIter(block, less, layout);
    it.Seek(to);
    var c := it.Current();
    r := if c.Some? then Some(Pair(c.value.0, c.value.1)) else None;
    if c.Some? {
      assert r == Some(layout.es[it.at.value]);
      assert layout.es[it.at.value].key != [];
    } else if it.at.Some? {
      assert it.at == Some(0);
    }
  }
}
