/** The filter block: one filter for every 2 KiB of table offsets (src/filter_block.rs, src/table_builder.rs). */
module FilterBlocks {
  import opened Bytes
  import opened Coding
  import opened Filters
  import B = Block

  const FILTER_BASE_LOG2: Byte := 11

  /** The filter for an offset: the offset shifted right by the base. */
  function FilterIndex(offset: nat, baseLog2: nat): nat {
    if baseLog2 == 0 then offset else FilterIndex(offset / 2, baseLog2 - 1)
  }

  /** There is a filter for every 2048 bytes of offsets. */
  lemma {:induction false} IndexIs(offset: nat)
    ensures FilterIndex(offset, FILTER_BASE_LOG2) == offset / 2048
  {
    IndexPow2(offset, FILTER_BASE_LOG2);
    assert Pow2(0) == 1 && Pow2(1) == 2 && Pow2(2) == 4 && Pow2(3) == 8 && Pow2(4) == 16 && Pow2(5) == 32;
    assert Pow2(6) == 64 && Pow2(7) == 128 && Pow2(8) == 256 && Pow2(9) == 512 && Pow2(10) == 1024 && Pow2(11) == 2048;
  }

  lemma {:induction false} IndexPow2(offset: nat, baseLog2: nat)
    ensures Pow2(baseLog2) > 0 && FilterIndex(offset, baseLog2) == offset / Pow2(baseLog2)
  {
    if baseLog2 > 0 {
      IndexPow2(offset / 2, baseLog2 - 1);
      DivideTwice(offset, 2, Pow2(baseLog2 - 1));
    }
  }

  lemma {:induction false} IndexMono(a: nat, b: nat, baseLog2: nat)
    requires a <= b
    ensures FilterIndex(a, baseLog2) <= FilterIndex(b, baseLog2)
  {
    if baseLog2 > 0 {
      IndexMono(a / 2, b / 2, baseLog2 - 1);
    }
  }

  /** Where the i-th filter ends. */
  function EndOf(filters: Bytes, offs: seq<nat>, i: nat): nat {
    if i + 1 < |offs| then offs[i + 1] else |filters|
  }

  /** The i-th filter lies in range, is that of its slot's user keys and matches them all; an empty slot has an empty filter. */
  ghost predicate SlotOk(policy: InternalFilterPolicy, filters: Bytes, offs: seq<nat>, slot: seq<Bytes>, i: nat)
    requires i < |offs|
  {
    var end := EndOf(filters, offs, i);
    && offs[i] <= end <= |filters|
    && (slot == [] ==> offs[i] == end)
    && (slot != [] ==> offs[i] + 8 < end)
    && (slot != [] ==> policy.inner.FilterFor(filters[offs[i]..end], InternalFilterPolicy.UserKeys(slot)))
    && forall key :: key in slot ==> |key| >= 8 && policy.May(key, filters[offs[i]..end])
  }

  ghost predicate SlotsOk(policy: InternalFilterPolicy, filters: Bytes, offs: seq<nat>, slots: seq<seq<Bytes>>) {
    |slots| == |offs| && forall i :: 0 <= i < |offs| ==> SlotOk(policy, filters, offs, slots[i], i)
  }

  /** Filters, offsets, the offset of the offsets, and the base. */
  function BlockOf(filters: Bytes, offs: seq<nat>): Bytes {
    filters + B.RestartBytes(offs + [|filters|]) + [FILTER_BASE_LOG2]
  }

  /** A new slot behind the others. */
  lemma {:induction false} SlotsMore(policy: InternalFilterPolicy, filters: Bytes, offs: seq<nat>, slots: seq<seq<Bytes>>,
                                     filter: Bytes, slot: seq<Bytes>)
    requires SlotsOk(policy, filters, offs, slots)
    requires slot == [] ==> filter == []
    requires slot != [] ==> |filter| > 8 && policy.inner.FilterFor(filter, InternalFilterPolicy.UserKeys(slot))
    requires forall key :: key in slot ==> |key| >= 8 && policy.May(key, filter)
    ensures SlotsOk(policy, filters + filter, offs + [|filters|], slots + [slot])
  {
    var f', o', s' := filters + filter, offs + [|filters|], slots + [slot];
    forall i | 0 <= i < |o'| ensures SlotOk(policy, f', o', s'[i], i) {
      var end := EndOf(f', o', i);
      if i < |offs| {
        assert SlotOk(policy, filters, offs, slots[i], i);
        assert end == EndOf(filters, offs, i) && f'[o'[i]..end] == filters[offs[i]..end];
      } else {
        assert f'[o'[i]..end] == filter;
      }
    }
  }

  class FilterBlockBuilder {
    const policy: InternalFilterPolicy
    var filters: Bytes
    var filterOffsets: seq<nat>
    var keyOffsets: seq<nat>
    var keys: Bytes
    /** The keys of each filter, and those for the next one. */
    ghost var slots: seq<seq<Bytes>>
    ghost var pending: seq<Bytes>

    ghost predicate Valid()
      reads this
    {
      && 1 <= policy.inner.k <= 30
      && SlotsOk(policy, filters, filterOffsets, slots)
      && OffsetsOk(keys, keyOffsets) && Pieces(keys, keyOffsets) == pending && (keys == [] <==> pending == [])
      && forall key :: key in pending ==> |key| >= 8
    }

    constructor (policy: InternalFilterPolicy)
      requires 1 <= policy.inner.k <= 30
      ensures Valid() && this.policy == policy && slots == [] && pending == []
    {
      this.policy := policy;
      filters, filterOffsets, keyOffsets, keys := [], [], [], [];
      slots, pending := [], [];
    }

    method AddKey(key: Bytes)
      requires Valid() && |key| >= 8
      modifies this`keyOffsets, this`keys, this`pending
      ensures Valid() && pending == old(pending) + [key]
    {
      hide SlotsOk;
      hide Pieces;
      PieceCount(keys, keyOffsets);
      PiecesMore(keys, keyOffsets, key);
      keyOffsets := keyOffsets + [|keys|];
      keys := keys + key;
      pending := pending + [key];
    }

    /** Filters up to the one that covers the offset: the first takes the keys so far, the rest are empty. */
    method StartBlock(offset: nat)
      requires Valid() && FilterIndex(offset, FILTER_BASE_LOG2) >= |filterOffsets|
      modifies this
      ensures Valid() && |slots| == FilterIndex(offset, FILTER_BASE_LOG2)
      ensures |slots| == |old(slots)| ==> slots == old(slots) && pending == old(pending)
      ensures |slots| > |old(slots)| ==>
                slots[..|old(slots)|] == old(slots) && slots[|old(slots)|] == old(pending) && pending == []
    {
      hide SlotsOk;
      assert |slots| == |filterOffsets| by { SlotCount(policy, filters, filterOffsets, slots); }
      var filterIx := FilterIndex(offset, FILTER_BASE_LOG2);
      ghost var n := |slots|;
      while filterIx > |filterOffsets|
        invariant Valid() && |filterOffsets| == |slots| <= filterIx && n <= |slots|
        invariant |slots| == n ==> slots == old(slots) && pending == old(pending)
        invariant |slots| > n ==> slots[..n] == old(slots) && slots[n] == old(pending) && pending == []
      {
        GenerateFilter();
      }
    }

    method GenerateFilter()
      requires Valid()
      modifies this
      ensures Valid() && slots == old(slots) + [old(pending)] && pending == [] && filterOffsets == old(filterOffsets) + [|old(filters)|]
    {
      hide SlotsOk;
      hide Pieces;
      filterOffsets := filterOffsets + [|filters|];
      if keys == [] {
        SlotsMore(policy, filters, old(filterOffsets), slots, [], []);
        assert filters + [] == filters;
        slots := slots + [[]];
        NoPieces();
        assert pending == [];
        return;
      }
      var filter := policy.CreateFilter(keys, keyOffsets);
      SlotsMore(policy, filters, old(filterOffsets), slots, filter, pending);
      filters := filters + filter;
      slots := slots + [pending];
      keys, keyOffsets := [], [];
      pending := [];
      NoPieces();
    }

    method Finish() returns (block: Bytes)
      requires Valid()
      modifies this
      ensures SlotsOk(policy, filters, filterOffsets, slots) && block == BlockOf(filters, filterOffsets)
      ensures slots == old(slots) + if old(pending) == [] then [] else [old(pending)]
    {
      hide SlotsOk;
      if keys != [] {
        GenerateFilter();
      } else {
        assert slots + [] == slots;
      }
      block := Encoded();
    }

    method Encoded() returns (block: Bytes)
      ensures block == BlockOf(filters, filterOffsets)
    {
      hide EncodeFixed;
      hide B.RestartBytes;
      block := filters;
      B.RestartNone();
      for i := 0 to |filterOffsets|
        invariant block == filters + B.RestartBytes(filterOffsets[..i])
      {
        assert filterOffsets[..i + 1] == filterOffsets[..i] + [filterOffsets[i]];
        B.RestartMore(filterOffsets[..i], filterOffsets[i]);
        block := block + EncodeFixed(4, filterOffsets[i]);
      }
      assert filterOffsets[..|filterOffsets|] == filterOffsets;
      B.RestartMore(filterOffsets, |filters|);
      block := block + EncodeFixed(4, |filters|);
      block := block + [FILTER_BASE_LOG2];
    }
  }

  // ----- the reader -----

  lemma {:induction false} OffsetSlice(filters: Bytes, offs: seq<nat>, i: nat)
    requires i <= |offs| && |filters| < 0x1_0000_0000 && (i < |offs| ==> offs[i] <= |filters|)
    ensures var block, p := BlockOf(filters, offs), |filters| + 4 * i;
            && p + 4 <= |block|
            && DecodeFixed(block[p..p + 4]) == if i < |offs| then offs[i] else |filters|
  {
    hide EncodeFixed;
    hide DecodeFixed;
    hide B.RestartBytes;
    var all := offs + [|filters|];
    var block, p, rb := BlockOf(filters, offs), |filters| + 4 * i, B.RestartBytes(offs + [|filters|]);
    B.RestartSlice(all, i);
    assert block[p..p + 4] == rb[4 * i..4 * i + 4];
    B.Fixed32(all[i]);
  }

  lemma {:induction false} BlockEnd(filters: Bytes, offs: seq<nat>)
    requires |filters| < 0x1_0000_0000
    ensures var block := BlockOf(filters, offs);
            && |block| == |filters| + 4 * |offs| + 5 && block[|block| - 1] == FILTER_BASE_LOG2
            && DecodeFixed(block[|block| - 5..|block| - 1]) == |filters|
  {
    hide B.RestartBytes;
    hide EncodeFixed;
    hide DecodeFixed;
    OffsetSlice(filters, offs, |offs|);
  }

  class FilterBlockReader {
    const policy: InternalFilterPolicy
    const block: Bytes
    const offsetsOffset: nat
    const baseLog2: nat
    ghost const offs: seq<nat>
    ghost const slots: seq<seq<Bytes>>

    ghost predicate Valid() {
      && offsetsOffset < 0x1_0000_0000 && offsetsOffset <= |block| && baseLog2 == FILTER_BASE_LOG2
      && SlotsOk(policy, block[..offsetsOffset], offs, slots)
      && block == BlockOf(block[..offsetsOffset], offs)
    }

    constructor (policy: InternalFilterPolicy, block: Bytes, ghost filters: Bytes, ghost offs: seq<nat>, ghost slots: seq<seq<Bytes>>)
      requires |filters| < 0x1_0000_0000 && SlotsOk(policy, filters, offs, slots) && block == BlockOf(filters, offs)
      ensures Valid() && this.policy == policy && this.slots == slots && this.offs == offs
      ensures this.block[..offsetsOffset] == filters
    {
      BlockEnd(filters, offs);
      this.policy, this.block := policy, block;
      this.baseLog2 := block[|block| - 1];
      this.offsetsOffset := DecodeFixed(block[|block| - 5..|block| - 1]);
      this.offs, this.slots := offs, slots;
      new;
      assert block[..offsetsOffset] == filters;
    }

    /** The number of filters. */
    function Num(): nat
      requires Valid()
    {
      (|block| - offsetsOffset - 5) / 4
    }

    lemma {:induction false} NumIs()
      requires Valid()
      ensures Num() == |offs| == |slots|
    {
      BlockEnd(block[..offsetsOffset], offs);
    }

    /** Where filter i starts; for the number of filters, where the last one ends. */
    method OffsetOf(i: nat) returns (off: nat)
      requires Valid() && i <= |offs|
      ensures off == if i < |offs| then offs[i] else offsetsOffset
    {
      hide BlockOf;
      assert i < |offs| ==> SlotOk(policy, block[..offsetsOffset], offs, slots[i], i);
      OffsetSlice(block[..offsetsOffset], offs, i);
      var p := offsetsOffset + 4 * i;
      off := DecodeFixed(block[p..p + 4]);
    }

    ghost function FilterAt(i: nat): Bytes
      requires Valid() && i < |slots|
    {
      assert SlotOk(policy, block[..offsetsOffset], offs, slots[i], i);
      block[offs[i]..EndOf(block[..offsetsOffset], offs, i)]
    }

    /** The answer is that of the slot's filter, and every key of the slot matches. The source fails on the slot behind the last one and on an empty one. */
    method KeyMayMatch(blkOffset: nat, key: Bytes) returns (r: bool)
      requires Valid() && |key| >= 8
      requires var ix := FilterIndex(blkOffset, FILTER_BASE_LOG2); ix != |slots| && (ix < |slots| ==> slots[ix] != [])
      ensures var ix := FilterIndex(blkOffset, FILTER_BASE_LOG2);
              if ix < |slots| then r <==> policy.May(key, FilterAt(ix)) else r
      ensures var ix := FilterIndex(blkOffset, FILTER_BASE_LOG2); ix < |slots| && key in slots[ix] ==> r
    {
      hide BlockOf;
      hide FilterIndex;
      hide InternalFilterPolicy.May;
      NumIs();
      var ix := FilterIndex(blkOffset, baseLog2);
      var num := Num();
      if ix > num {
        return true;
      }
      assert SlotOk(policy, block[..offsetsOffset], offs, slots[ix], ix);
      var filterBegin := OffsetOf(ix);
      var filterEnd := OffsetOf(ix + 1);
      assert filterBegin < filterEnd <= offsetsOffset;
      assert block[..offsetsOffset][filterBegin..filterEnd] == block[filterBegin..filterEnd];
      r := policy.KeyMayMatch(key, block[filterBegin..filterEnd]);
    }
  }

  // ----- a whole table -----

  /** The keys of a data block and the bytes it takes in the table. */
  datatype DataBlock = DataBlock(keys: seq<Bytes>, size: nat)

  function OffsetBefore(blocks: seq<DataBlock>, b: nat): nat
    requires b <= |blocks|
  {
    if b == 0 then 0 else OffsetBefore(blocks, b - 1) + blocks[b - 1].size
  }

  function SlotFor(blocks: seq<DataBlock>, b: nat): nat
    requires b <= |blocks|
  {
    FilterIndex(OffsetBefore(blocks, b), FILTER_BASE_LOG2)
  }

  /** The keys of every block are in the filter of its offset. */
  ghost predicate KeysFiled(blocks: seq<DataBlock>, slots: seq<seq<Bytes>>) {
    forall b, key :: 0 <= b < |blocks| && key in blocks[b].keys ==> SlotFor(blocks, b) < |slots| && key in slots[SlotFor(blocks, b)]
  }

  /** The keys of block b are in the filter of its offset, or wait for it. */
  ghost predicate Filed(blocks: seq<DataBlock>, b: nat, slots: seq<seq<Bytes>>, pending: seq<Bytes>)
    requires b < |blocks|
  {
    var ix := SlotFor(blocks, b);
    && ix <= |slots|
    && forall key :: key in blocks[b].keys ==> if ix < |slots| then key in slots[ix] else key in pending
  }

  /** The filter block of a table with these data blocks: every key is in the filter of its block's offset. */
  method BuildFilterBlock(policy: InternalFilterPolicy, blocks: seq<DataBlock>)
    returns (block: Bytes, ghost filters: Bytes, ghost offs: seq<nat>, ghost slots: seq<seq<Bytes>>)
    requires 1 <= policy.inner.k <= 30
    requires forall i, k :: 0 <= i < |blocks| && k in blocks[i].keys ==> |k| >= 8
    ensures block == BlockOf(filters, offs) && SlotsOk(policy, filters, offs, slots)
    ensures KeysFiled(blocks, slots)
  {
    hide SlotsOk;
    hide Filed;
    hide SlotFor;
    hide BlockOf;
    hide FilterBlockBuilder.Valid;
    var builder := new FilterBlockBuilder(policy);
    FirstSlot(blocks);
    for i := 0 to |blocks|
      invariant fresh(builder) && builder.Valid() && builder.policy == policy && |builder.slots| == SlotFor(blocks, i)
      invariant forall c :: 0 <= c < i ==> Filed(blocks, c, builder.slots, builder.pending)
    {
      AddBlock(builder, blocks, i);
    }
    slots := builder.slots;
    ghost var pending := builder.pending;
    block := builder.Finish();
    forall b, key | 0 <= b < |blocks| && key in blocks[b].keys
      ensures SlotFor(blocks, b) < |builder.slots| && key in builder.slots[SlotFor(blocks, b)]
    {
      FiledAtEnd(blocks, b, slots, pending, key);
    }
    filters, offs, slots := builder.filters, builder.filterOffsets, builder.slots;
  }

  lemma {:induction false} FirstSlot(blocks: seq<DataBlock>)
    ensures SlotFor(blocks, 0) == 0
  {
    IndexZero(FILTER_BASE_LOG2);
  }

  lemma {:induction false} IndexZero(baseLog2: nat)
    ensures FilterIndex(0, baseLog2) == 0
  {
    if baseLog2 > 0 {
      IndexZero(baseLog2 - 1);
    }
  }

  /** The keys of a data block, and the start of the next one behind it. */
  method AddBlock(builder: FilterBlockBuilder, blocks: seq<DataBlock>, i: nat)
    requires builder.Valid() && i < |blocks| && |builder.slots| == SlotFor(blocks, i)
    requires forall k :: k in blocks[i].keys ==> |k| >= 8
    requires forall c :: 0 <= c < i ==> Filed(blocks, c, builder.slots, builder.pending)
    modifies builder
    ensures builder.Valid() && |builder.slots| == SlotFor(blocks, i + 1)
    ensures forall c :: 0 <= c <= i ==> Filed(blocks, c, builder.slots, builder.pending)
  {
    hide Filed;
    hide SlotsOk;
    hide FilterIndex;
    hide Pieces;
    hide OffsetsOk;
    AddKeys(builder, blocks, i);
    var offset := OffsetBefore(blocks, i) + blocks[i].size;
    IndexMono(OffsetBefore(blocks, i), offset, FILTER_BASE_LOG2);
    ghost var slots, pending := builder.slots, builder.pending;
    SlotCount(builder.policy, builder.filters, builder.filterOffsets, slots);
    builder.StartBlock(offset);
    forall c | 0 <= c <= i ensures Filed(blocks, c, builder.slots, builder.pending) {
      FiledAfter(blocks, c, slots, pending, builder.slots, builder.pending);
    }
  }

  lemma {:induction false} FiledAtEnd(blocks: seq<DataBlock>, b: nat, slots: seq<seq<Bytes>>, pending: seq<Bytes>, key: Bytes)
    requires b < |blocks| && Filed(blocks, b, slots, pending) && key in blocks[b].keys
    ensures var all := slots + if pending == [] then [] else [pending];
            SlotFor(blocks, b) < |all| && key in all[SlotFor(blocks, b)]
  {
  }

  /**
   * A lookup at the start of any block with keys reads in range and answers as the filter of the block's slot; there
   * are no false negatives, so every key of the block matches.
   */
  method AskBuilt(policy: InternalFilterPolicy, blocks: seq<DataBlock>, b: nat, key: Bytes,
                  block: Bytes, ghost filters: Bytes, ghost offs: seq<nat>, ghost slots: seq<seq<Bytes>>) returns (r: bool)
    requires block == BlockOf(filters, offs) && SlotsOk(policy, filters, offs, slots) && |filters| < 0x1_0000_0000
    requires KeysFiled(blocks, slots) && b < |blocks| && blocks[b].keys != [] && |key| >= 8
    ensures var ix := SlotFor(blocks, b);
            && ix < |offs| && offs[ix] <= EndOf(filters, offs, ix) <= |filters|
            && (r <==> policy.May(key, filters[offs[ix]..EndOf(filters, offs, ix)]))
    ensures key in blocks[b].keys ==> r
  {
    hide FilterIndex;
    assert blocks[b].keys[0] in blocks[b].keys;
    var reader := new FilterBlockReader(policy, block, filters, offs, slots);
    var offset := OffsetBefore(blocks, b);
    r := reader.KeyMayMatch(offset, key);
    ghost var ix := SlotFor(blocks, b);
    assert SlotOk(policy, filters, offs, slots[ix], ix);
    assert reader.FilterAt(ix) == filters[offs[ix]..EndOf(filters, offs, ix)];
  }

  lemma {:induction false} FiledAfter(blocks: seq<DataBlock>, c: nat, slots: seq<seq<Bytes>>, pending: seq<Bytes>,
                                      slots': seq<seq<Bytes>>, pending': seq<Bytes>)
    requires c < |blocks| && Filed(blocks, c, slots, pending) && |slots| <= |slots'|
    requires |slots'| == |slots| ==> slots' == slots && pending' == pending
    requires |slots'| > |slots| ==> slots'[..|slots|] == slots && slots'[|slots|] == pending
    ensures Filed(blocks, c, slots', pending')
  {
    var ix := SlotFor(blocks, c);
    if ix < |slots| < |slots'| {
      assert slots'[ix] == slots'[..|slots|][ix];
    }
  }

  method AddKeys(builder: FilterBlockBuilder, blocks: seq<DataBlock>, i: nat)
    requires builder.Valid() && i < |blocks| && |builder.slots| == SlotFor(blocks, i)
    requires forall k :: k in blocks[i].keys ==> |k| >= 8
    requires forall c :: 0 <= c < i ==> Filed(blocks, c, builder.slots, builder.pending)
    modifies builder
    ensures builder.Valid() && builder.slots == old(builder.slots)
    ensures forall c :: 0 <= c <= i ==> Filed(blocks, c, builder.slots, builder.pending)
  {
    hide FilterBlockBuilder.Valid;
    var keys := blocks[i].keys;
    for n := 0 to |keys|
      invariant builder.Valid() && builder.slots == old(builder.slots)
      invariant old(builder.pending) <= builder.pending
      invariant forall k :: k in keys[..n] ==> k in builder.pending
    {
      assert keys[n] in keys;
      builder.AddKey(keys[n]);
    }
    assert keys[..|keys|] == keys;
    forall c | 0 <= c < i ensures Filed(blocks, c, builder.slots, builder.pending) {
      assert Filed(blocks, c, old(builder.slots), old(builder.pending));
    }
  }

  lemma {:induction false} SlotCount(policy: InternalFilterPolicy, filters: Bytes, offs: seq<nat>, slots: seq<seq<Bytes>>)
    requires SlotsOk(policy, filters, offs, slots)
    ensures |slots| == |offs|
  {
  }
}
