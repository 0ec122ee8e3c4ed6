/** Memtable keys, lookup keys and tags (src/key_types.rs). */
module KeyTypes {
  import opened Bytes
  import opened Coding
  import opened Entries
  import opened SkipMap

  const TAG_SIZE: nat := 8

  /** Sequence number and type in one 64-bit word. */
  function TagOf(k: InternalKey): nat {
    256 * k.seqno + if k.typ.TypeValue? then 1 else 0
  }

  /** Any low byte but zero stands for a value. */
  function ParseTag(tag: nat): (ValueType, nat) {
    (if tag % 256 == 0 then TypeDeletion else TypeValue, tag / 256)
  }

  /** The tag fits its eight bytes. */
  ghost predicate Taggable(k: InternalKey) {
    k.seqno <= MAX_SEQUENCE_NUMBER
  }

  /** Key length with tag, key and tag: a lookup key. */
  function LookupBytes(k: InternalKey): Bytes {
    EncodeVar(|k.ukey| + TAG_SIZE) + k.ukey + EncodeFixed(TAG_SIZE, TagOf(k))
  }

  /** The same with the length of the value and the value: a memtable key. */
  function BuildMemtableKey(e: Entry): Bytes {
    LookupBytes(e.key) + EncodeVar(|e.val|) + e.val
  }

  datatype Parsed = Parsed(keyLen: nat, keyOff: nat, tag: nat, valLen: nat, valOff: nat)

  /** Where the parts lie; no tag and no value if the bytes end with the user key. None where the source would panic. */
  function ParseMemtableKey(m: Bytes): Option<Parsed> {
    match DecodeVar(m)
    case None => None
    case Some((len, off)) =>
      if len < TAG_SIZE then None
      else
        var i := off + (len - TAG_SIZE);
        if i >= |m| then Some(Parsed(len - TAG_SIZE, off, 0, 0, 0))
        else if i + TAG_SIZE > |m| then None
        else
          match DecodeVar(m[i + TAG_SIZE..])
          case None => None
          case Some((vallen, j)) =>
            Some(Parsed(len - TAG_SIZE, off, DecodeFixed(m[i..i + TAG_SIZE]), vallen, i + TAG_SIZE + j))
  }

  /** What a comparison of memtable keys looks at: user key and sequence number. */
  function KeyOf(m: Bytes): InternalKey {
    match DecodeVar(m)
    case None => InternalKey([], 0, TypeValue)
    case Some((len, off)) =>
      if len < TAG_SIZE || off + len > |m| then InternalKey([], 0, TypeValue)
      else InternalKey(m[off..off + len - TAG_SIZE], ParseTag(DecodeFixed(m[off + len - TAG_SIZE..off + len])).1, TypeValue)
  }

  function CmpMemtableKey(a: Bytes, b: Bytes): Ordering {
    var x, y := KeyOf(a), KeyOf(b);
    if KeyLess(x, y) then Less else if KeyLess(y, x) then Greater else Equal
  }

  lemma {:induction false} CmpIsOrder()
    ensures IsOrder(CmpMemtableKey)
  {
    LtOrder();
    hide Lt;
    hide KeyOf;
  }

  lemma {:induction false} TagRoundTrip(k: InternalKey)
    requires Taggable(k)
    ensures DecodeFixed(EncodeFixed(TAG_SIZE, TagOf(k))) == TagOf(k) && ParseTag(TagOf(k)) == (k.typ, k.seqno)
  {
    assert Limit(0) == 1 && Limit(1) == 0x100 && Limit(2) == 0x1_0000 && Limit(3) == 0x100_0000 && Limit(4) == 0x1_0000_0000;
    assert Limit(5) == 0x100_0000_0000 && Limit(6) == 0x1_0000_0000_0000 && Limit(7) == 0x100_0000_0000_0000;
    assert Limit(8) == 0x1_0000_0000_0000_0000;
    FixedRoundTrip(TAG_SIZE, TagOf(k));
  }

  lemma {:induction false} KeyOfLookup(k: InternalKey, rest: Bytes)
    requires Taggable(k)
    ensures var p := KeyOf(LookupBytes(k) + rest); p.ukey == k.ukey && p.seqno == k.seqno
  {
    hide EncodeVar;
    hide DecodeVar;
    hide EncodeFixed;
    hide DecodeFixed;
    var len, tag := EncodeVar(|k.ukey| + TAG_SIZE), EncodeFixed(TAG_SIZE, TagOf(k));
    var m := LookupBytes(k) + rest;
    assert m == len + (k.ukey + tag + rest);
    VarRoundTrip(|k.ukey| + TAG_SIZE, k.ukey + tag + rest);
    TagRoundTrip(k);
    var off := |len|;
    assert m[off..off + |k.ukey|] == k.ukey;
    assert m[off + |k.ukey|..off + |k.ukey| + TAG_SIZE] == tag;
  }

  /** Keys of entries compare as user key and sequence number do. */
  lemma {:induction false} CmpEntries(a: Entry, b: Entry)
    requires Taggable(a.key) && Taggable(b.key)
    ensures CmpMemtableKey(BuildMemtableKey(a), BuildMemtableKey(b))
         == if KeyLess(a.key, b.key) then Less else if KeyLess(b.key, a.key) then Greater else Equal
  {
    hide KeyOf;
    hide LookupBytes;
    hide Lt;
    KeyOfLookup(a.key, EncodeVar(|a.val|) + a.val);
    KeyOfLookup(b.key, EncodeVar(|b.val|) + b.val);
    assert BuildMemtableKey(a) == LookupBytes(a.key) + (EncodeVar(|a.val|) + a.val);
    assert BuildMemtableKey(b) == LookupBytes(b.key) + (EncodeVar(|b.val|) + b.val);
  }

  lemma {:induction false} CmpLookup(a: Entry, k: InternalKey)
    requires Taggable(a.key) && Taggable(k)
    ensures CmpMemtableKey(BuildMemtableKey(a), LookupBytes(k))
         == if KeyLess(a.key, k) then Less else if KeyLess(k, a.key) then Greater else Equal
  {
    hide KeyOf;
    hide LookupBytes;
    hide Lt;
    KeyOfLookup(a.key, EncodeVar(|a.val|) + a.val);
    KeyOfLookup(k, []);
    assert BuildMemtableKey(a) == LookupBytes(a.key) + (EncodeVar(|a.val|) + a.val);
    assert LookupBytes(k) + [] == LookupBytes(k);
  }

  /** A memtable key gives back user key, tag and value. */
  lemma {:induction false} ParseBuilt(e: Entry)
    requires Taggable(e.key)
    ensures var m := BuildMemtableKey(e);
            && ParseMemtableKey(m).Some?
            && var p := ParseMemtableKey(m).value;
            && p.keyOff + p.keyLen <= |m| && m[p.keyOff..p.keyOff + p.keyLen] == e.key.ukey
            && ParseTag(p.tag) == (e.key.typ, e.key.seqno)
            && p.valOff + p.valLen == |m| && m[p.valOff..] == e.val
  {
    hide EncodeVar;
    hide DecodeVar;
    hide EncodeFixed;
    hide DecodeFixed;
    var m, u := BuildMemtableKey(e), e.key.ukey;
    var len, tag, vlen := EncodeVar(|u| + TAG_SIZE), EncodeFixed(TAG_SIZE, TagOf(e.key)), EncodeVar(|e.val|);
    assert m == len + (u + tag + vlen + e.val);
    VarRoundTrip(|u| + TAG_SIZE, u + tag + vlen + e.val);
    TagRoundTrip(e.key);
    var i := |len| + |u|;
    assert m[|len|..i] == u && m[i..i + TAG_SIZE] == tag && m[i + TAG_SIZE..] == vlen + e.val;
    VarRoundTrip(|e.val|, e.val);
    assert m[i + TAG_SIZE + |vlen|..] == e.val;
  }
}
