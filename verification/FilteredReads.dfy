/** A table's filter block and the lookups that ask it (src/table_builder.rs, src/table_reader.rs, src/filter_block.rs). */
module FilteredReads {
  import opened Bytes
  import opened Coding
  import opened Entries
  import opened KeyTypes
  import opened Version
  import opened Filters
  import opened FilterBlocks
  import opened PointReads

  /** An internal key as a table stores it: the user key and the tag. */
  function KeyBytes(k: InternalKey): Bytes {
    k.ukey + EncodeFixed(TAG_SIZE, TagOf(k))
  }

  function KeysOf(es: seq<Entry>): seq<Bytes> {
    seq(|es|, i requires 0 <= i < |es| => KeyBytes(es[i].key))
  }

  /** The data blocks of a table, given how many bytes each takes. */
  function DataBlocksOf(data: seq<seq<Entry>>, sizes: seq<nat>): seq<DataBlock>
    requires |sizes| == |data|
  {
    seq(|data|, i requires 0 <= i < |data| => DataBlock(KeysOf(data[i]), sizes[i]))
  }

  /** A filter block: the sizes of the data blocks, the filters with their offsets, and the keys that each is for. */
  datatype TableFilter = TableFilter(sizes: seq<nat>, filters: Bytes, offs: seq<nat>, slots: seq<seq<Bytes>>)

  ghost predicate FilterOk(policy: InternalFilterPolicy, data: seq<seq<Entry>>, tf: TableFilter) {
    && |tf.sizes| == |data| && SlotsOk(policy, tf.filters, tf.offs, tf.slots)
    && KeysFiled(DataBlocksOf(data, tf.sizes), tf.slots)
  }

  /** What the filter of the i-th block's slot says of a key. */
  ghost predicate Answer(policy: InternalFilterPolicy, data: seq<seq<Entry>>, tf: TableFilter, key: InternalKey, i: nat)
    requires |tf.sizes| == |data| && i < |data|
  {
    var ix := SlotFor(DataBlocksOf(data, tf.sizes), i);
    && ix < |tf.offs| && tf.offs[ix] <= EndOf(tf.filters, tf.offs, ix) <= |tf.filters|
    && policy.May(KeyBytes(key), tf.filters[tf.offs[ix]..EndOf(tf.filters, tf.offs, ix)])
  }

  lemma {:induction false} KeyLength(k: InternalKey)
    ensures |KeyBytes(k)| == |k.ukey| + 8 && KeyBytes(k)[..|k.ukey|] == k.ukey
  {
    hide EncodeFixed;
  }

  /** The filter block that the builder writes for a table. */
  method BuildFilter(policy: InternalFilterPolicy, data: seq<seq<Entry>>, sizes: seq<nat>)
    returns (block: Bytes, ghost tf: TableFilter)
    requires 1 <= policy.inner.k <= 30 && |sizes| == |data|
    ensures tf.sizes == sizes && FilterOk(policy, data, tf) && block == BlockOf(tf.filters, tf.offs)
  {
    hide SlotsOk;
    hide KeysFiled;
    hide BlockOf;
    var blocks := DataBlocksOf(data, sizes);
    forall i, k | 0 <= i < |blocks| && k in blocks[i].keys ensures |k| >= 8 {
      var j :| 0 <= j < |data[i]| && k == KeyBytes(data[i][j].key);
      KeyLength(data[i][j].key);
    }
    ghost var filters, offs, slots;
    block, filters, offs, slots := BuildFilterBlock(policy, blocks);
    tf := TableFilter(sizes, filters, offs, slots);
  }

  /** A lookup asks the bytes at the start of a data block. */
  method Ask(policy: InternalFilterPolicy, data: seq<seq<Entry>>, sizes: seq<nat>, block: Bytes, key: InternalKey, i: nat,
             ghost tf: TableFilter) returns (r: bool)
    requires FilterOk(policy, data, tf) && tf.sizes == sizes && block == BlockOf(tf.filters, tf.offs)
    requires |tf.filters| < 0x1_0000_0000 && i < |data| && data[i] != []
    ensures r <==> Answer(policy, data, tf, key, i)
  {
    hide SlotsOk;
    hide KeysFiled;
    hide BlockOf;
    KeyLength(key);
    var blocks := DataBlocksOf(data, sizes);
    r := AskBuilt(policy, blocks, i, KeyBytes(key), block, tf.filters, tf.offs, tf.slots);
  }

  /** The filter says yes to every user key that its block has a version of. */
  lemma {:induction false} HeldAnswered(policy: InternalFilterPolicy, data: seq<seq<Entry>>, tf: TableFilter, key: InternalKey,
                                        i: nat, e: Entry)
    requires FilterOk(policy, data, tf) && i < |data| && e in data[i] && e.key.ukey == key.ukey
    ensures Answer(policy, data, tf, key, i)
  {
    hide FilterIndex;
    hide EncodeFixed;
    KeyLength(key);
    KeyLength(e.key);
    var j :| 0 <= j < |data[i]| && data[i][j] == e;
    var blocks := DataBlocksOf(data, tf.sizes);
    assert blocks[i].keys[j] == KeyBytes(e.key);
    assert KeyBytes(e.key) in blocks[i].keys;
    var ix := SlotFor(blocks, i);
    assert KeyBytes(e.key) in tf.slots[ix];
    assert SlotOk(policy, tf.filters, tf.offs, tf.slots[ix], ix);
  }

  /** So a table whose lookups ask its built filter block is read as a built table. */
  lemma {:induction false} FilteredBuilt(rd: Reader, f: File, u: Bytes, s: nat, policy: InternalFilterPolicy, tf: TableFilter)
    requires Blocks.TableOk(rd.blocks(f)) && Blocks.Flat(rd.blocks(f).data) == f.entries
    requires FilterOk(policy, rd.blocks(f).data, tf)
    requires forall i :: 0 <= i < |rd.blocks(f).data| ==> (rd.may(f)(i) <==> Answer(policy, rd.blocks(f).data, tf, Target(u, s), i))
    ensures Built(rd, f, u)
  {
    hide Blocks.TableOk;
    hide Blocks.Flat;
    hide FilterOk;
    hide Answer;
    var data := rd.blocks(f).data;
    forall i, e: Entry | 0 <= i < |data| && e in data[i] && e.key.ukey == u ensures rd.may(f)(i) {
      HeldAnswered(policy, data, tf, Target(u, s), i, e);
    }
  }
}
