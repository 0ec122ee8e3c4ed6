/** Bloom filters over user keys (src/filter.rs). */
module Filters {
  import opened Bytes

  type Word = x: int | 0 <= x < 0x1_0000_0000

  // ----- bits -----

  predicate Bit(b: nat, j: nat) {
    if j == 0 then b % 2 == 1 else Bit(b / 2, j - 1)
  }

  function SetBit(b: nat, j: nat): nat {
    if j == 0 then (if b % 2 == 1 then b else b + 1) else 2 * SetBit(b / 2, j - 1) + b % 2
  }

  function Pow2(n: nat): nat {
    if n == 0 then 1 else 2 * Pow2(n - 1)
  }

  lemma {:induction false} SetBitHalf(b: nat, j: nat)
    requires j > 0
    ensures SetBit(b, j) / 2 == SetBit(b / 2, j - 1) && SetBit(b, j) % 2 == b % 2
  {
    assert SetBit(b, j) == 2 * SetBit(b / 2, j - 1) + b % 2;
    hide SetBit;
  }

  /** Exactly one bit changes. */
  lemma {:induction false} SetBitIs(b: nat, j: nat, i: nat)
    ensures Bit(SetBit(b, j), i) <==> i == j || Bit(b, i)
  {
    if j == 0 {
      assert SetBit(b, j) / 2 == b / 2;
    } else {
      SetBitHalf(b, j);
      if i > 0 {
        SetBitIs(b / 2, j - 1, i - 1);
      }
    }
  }

  lemma {:induction false} HalfBound(b: nat, half: nat)
    requires b / 2 < half
    ensures b < 2 * half
  {
  }

  lemma {:induction false} SetBitBound(b: nat, j: nat, n: nat)
    requires j < n && b < Pow2(n)
    ensures SetBit(b, j) < Pow2(n)
  {
    var half := Pow2(n - 1);
    assert Pow2(n) == 2 * half && b / 2 < half;
    if j > 0 {
      SetBitHalf(b, j);
      SetBitBound(b / 2, j - 1, n - 1);
      HalfBound(SetBit(b, j), half);
    } else {
      assert SetBit(b, j) / 2 == b / 2;
      HalfBound(SetBit(b, j), half);
    }
  }

  lemma {:induction false} Pow2Of8()
    ensures Pow2(8) == 256
  {
    assert Pow2(0) == 1 && Pow2(1) == 2 && Pow2(2) == 4 && Pow2(3) == 8 && Pow2(4) == 16;
    assert Pow2(5) == 32 && Pow2(6) == 64 && Pow2(7) == 128;
  }

  ghost predicate BitAt(bits: Bytes, pos: nat) {
    pos / 8 < |bits| && Bit(bits[pos / 8], pos % 8)
  }

  method WithBit(bits: Bytes, pos: nat) returns (r: Bytes)
    requires pos / 8 < |bits|
    ensures |r| == |bits| && forall p: nat :: BitAt(r, p) <==> p == pos || BitAt(bits, p)
  {
    Pow2Of8();
    var j := pos % 8;
    SetBitBound(bits[pos / 8], j, 8);
    r := bits[pos / 8 := SetBit(bits[pos / 8], j)];
    forall p: nat ensures BitAt(r, p) <==> p == pos || BitAt(bits, p) {
      if p / 8 == pos / 8 {
        SetBitIs(bits[pos / 8], j, p % 8);
      }
    }
  }

  // ----- probes -----

  function Rotated(h: Word): Word {
    h / 0x2_0000 + h % 0x2_0000 * 0x8000
  }

  function Wrapped(x: nat): Word {
    x % 0x1_0000_0000
  }

  function Plus(h: Word, delta: Word): Word {
    Wrapped(h + delta)
  }

  /** The j-th probe of a key. */
  function Probe(h: Word, j: nat): Word {
    if j == 0 then h else Plus(Probe(h, j - 1), Rotated(h))
  }

  /** The upper 15 bits and the lower 17 change places. */
  lemma {:induction false} RotatedIs(hi: nat, lo: nat)
    requires hi < 0x8000 && lo < 0x2_0000
    ensures hi * 0x2_0000 + lo < 0x1_0000_0000 && Rotated(hi * 0x2_0000 + lo) == lo * 0x8000 + hi
  {
    var h := hi * 0x2_0000 + lo;
    assert h / 0x2_0000 == hi && h % 0x2_0000 == lo;
  }

  /** The probes are as far apart as the rotated hash says, modulo the width of a word. */
  lemma {:induction false} ProbeIs(h: Word, j: nat)
    ensures Probe(h, j) == Wrapped(h + j * Rotated(h))
  {
    hide Wrapped;
    hide Rotated;
    if j == 0 {
      WrappedWord(h);
    } else {
      var d := Rotated(h);
      ProbeIs(h, j - 1);
      OneMore(j, d);
      WrappedMore(h + (j - 1) * d, d);
    }
  }

  lemma {:induction false} OneMore(j: nat, d: nat)
    requires j > 0
    ensures j * d == (j - 1) * d + d
  {
  }

  lemma {:induction false} WrappedWord(h: Word)
    ensures Wrapped(h) == h
  {
  }

  lemma {:induction false} WrappedMore(x: nat, d: nat)
    ensures Wrapped(Wrapped(x) + d) == Wrapped(x + d)
  {
  }

  /** The bit of a filter of so many bytes that a probe asks for. */
  function BitPos(h: Word, size: nat): (p: nat)
    requires size > 0
    ensures p / 8 < size
  {
    InRange(h, size);
    h % (8 * size)
  }

  /** The first k probes of the hash are all set. */
  ghost predicate AllSet(bits: Bytes, h: Word, k: nat) {
    (k > 0 ==> bits != []) && forall j :: 0 <= j < k ==> BitAt(bits, BitPos(Probe(h, j), |bits|))
  }

  /** Whether one of the first k probes of the hash asks for the bit. */
  ghost predicate Asked(h: Word, k: nat, size: nat, pos: nat) {
    size > 0 && exists j :: 0 <= j < k && BitPos(Probe(h, j), size) == pos
  }

  lemma {:induction false} AskedMore(h: Word, k: nat, size: nat)
    requires size > 0
    ensures forall pos: nat :: Asked(h, k + 1, size, pos) <==> Asked(h, k, size, pos) || pos == BitPos(Probe(h, k), size)
  {
    hide BitPos;
    hide Probe;
    forall pos: nat ensures Asked(h, k + 1, size, pos) <==> Asked(h, k, size, pos) || pos == BitPos(Probe(h, k), size) {
      if Asked(h, k + 1, size, pos) {
        var j :| 0 <= j < k + 1 && BitPos(Probe(h, j), size) == pos;
        assert j == k || j < k;
      }
    }
  }

  /** The bits that are set are those that the probes of the hashes ask for, and no others. */
  ghost predicate Exactly(bits: Bytes, hashes: seq<Word>, k: nat) {
    forall pos: nat :: BitAt(bits, pos) <==> exists i :: 0 <= i < |hashes| && Asked(hashes[i], k, |bits|, pos)
  }

  lemma {:induction false} ExactlyMore(bits: Bytes, more: Bytes, hashes: seq<Word>, h: Word, k: nat)
    requires Exactly(bits, hashes, k) && |more| == |bits|
    requires forall pos: nat :: BitAt(more, pos) <==> BitAt(bits, pos) || Asked(h, k, |bits|, pos)
    ensures Exactly(more, hashes + [h], k)
  {
    hide BitAt;
    hide Asked;
    var hs := hashes + [h];
    forall pos: nat ensures BitAt(more, pos) <==> exists i :: 0 <= i < |hs| && Asked(hs[i], k, |more|, pos) {
      if BitAt(bits, pos) {
        var i :| 0 <= i < |hashes| && Asked(hashes[i], k, |bits|, pos);
        assert hs[i] == hashes[i];
      }
      assert hs[|hashes|] == h;
    }
  }

  lemma {:induction false} ExactlySet(bits: Bytes, hashes: seq<Word>, k: nat, i: nat)
    requires Exactly(bits, hashes, k) && bits != [] && i < |hashes|
    ensures AllSet(bits, hashes[i], k)
  {
    hide BitAt;
    hide BitPos;
    hide Probe;
    forall j | 0 <= j < k ensures BitAt(bits, BitPos(Probe(hashes[i], j), |bits|)) {
      assert Asked(hashes[i], k, |bits|, BitPos(Probe(hashes[i], j), |bits|));
    }
  }

  lemma {:induction false} NotAsked(h: Word, size: nat)
    ensures forall pos: nat :: !Asked(h, 0, size, pos)
  {
  }

  lemma {:induction false} NoneSet(bits: Bytes, k: nat)
    requires forall i :: 0 <= i < |bits| ==> bits[i] == 0
    ensures Exactly(bits, [], k)
  {
    forall pos: nat ensures !BitAt(bits, pos) {
      ZeroBit(pos % 8);
    }
  }

  lemma {:induction false} ZeroBit(j: nat)
    ensures !Bit(0, j)
  {
    if j > 0 {
      ZeroBit(j - 1);
    }
  }

  lemma {:induction false} InRange(x: nat, n: nat)
    requires n > 0
    ensures x % (8 * n) / 8 < n
  {
    var m := 8 * n;
    assert x % m < m;
  }

  // ----- keys in one byte string -----

  /** The pieces that the offsets cut from the data. */
  function Pieces(data: Bytes, offsets: seq<nat>): seq<Bytes> {
    seq(|offsets|, i requires 0 <= i < |offsets| =>
      var upper := if i == |offsets| - 1 then |data| else offsets[i + 1];
      if offsets[i] <= upper <= |data| then data[offsets[i]..upper] else [])
  }

  ghost predicate OffsetsOk(data: Bytes, offsets: seq<nat>) {
    && (forall i :: 0 <= i < |offsets| ==> offsets[i] <= |data|)
    && (forall i :: 0 < i < |offsets| ==> offsets[i - 1] <= offsets[i])
  }

  /** Appending a key to the data and its start to the offsets appends one piece. */
  lemma {:induction false} PiecesMore(data: Bytes, offsets: seq<nat>, key: Bytes)
    requires OffsetsOk(data, offsets) && (offsets == [] ==> data == [])
    ensures OffsetsOk(data + key, offsets + [|data|])
    ensures Pieces(data + key, offsets + [|data|]) == Pieces(data, offsets) + [key]
  {
    var d, o, n := data + key, offsets + [|data|], |offsets|;
    var p := Pieces(data, offsets) + [key];
    forall i | 0 <= i <= n ensures Pieces(d, o)[i] == p[i] {
      if i == n {
        assert d[|data|..|d|] == key;
      } else {
        var upper := if i == n - 1 then |data| else offsets[i + 1];
        assert o[i] == offsets[i] && o[i + 1] == upper;
        assert offsets[i] <= upper <= |data|;
        assert d[offsets[i]..upper] == data[offsets[i]..upper];
      }
    }
  }

  lemma {:induction false} NoPieces()
    ensures OffsetsOk([], []) && Pieces([], []) == []
  {
  }

  lemma {:induction false} PieceCount(data: Bytes, offsets: seq<nat>)
    ensures |Pieces(data, offsets)| == |offsets|
  {
  }

  lemma {:induction false} PieceAt(data: Bytes, offsets: seq<nat>, i: nat)
    requires OffsetsOk(data, offsets) && i < |offsets|
    ensures var upper := if i == |offsets| - 1 then |data| else offsets[i + 1];
            && offsets[i] <= upper <= |data|
            && i < |Pieces(data, offsets)| && Pieces(data, offsets)[i] == data[offsets[i]..upper]
  {
  }

  // ----- policies -----

  class BloomPolicy {
    const bitsPerKey: nat
    const k: nat
    const hash: Bytes -> Word

    /** The number of probes is the one nearest to k between 1 and 30. */
    constructor (bitsPerKey: nat, k: nat, hash: Bytes -> Word)
      ensures this.bitsPerKey == bitsPerKey && this.hash == hash && 1 <= this.k <= 30
      ensures (1 <= k <= 30 ==> this.k == k) && (k < 1 ==> this.k == 1) && (k > 30 ==> this.k == 30)
    {
      this.bitsPerKey, this.hash := bitsPerKey, hash;
      this.k := if k < 1 then 1 else if k > 30 then 30 else k;
    }

    /** What the test of a key looks at: an empty filter and an unknown number of probes match everything. */
    ghost predicate May(key: Bytes, filter: Bytes) {
      || filter == []
      || filter[|filter| - 1] > 30
      || AllSet(filter[..|filter| - 1], hash(key), filter[|filter| - 1])
    }

    ghost function Hashes(keys: seq<Bytes>): seq<Word> {
      seq(|keys|, i requires 0 <= i < |keys| => hash(keys[i]))
    }

    /** A filter for the keys: so many bits for every key, those of the keys set and no others, and the number of probes. */
    ghost predicate FilterFor(filter: Bytes, keys: seq<Bytes>) {
      var bits := |keys| * bitsPerKey;
      && |filter| == 1 + (if bits < 64 then 8 else (bits + 7) / 8)
      && filter[|filter| - 1] == k
      && Exactly(filter[..|filter| - 1], Hashes(keys), k)
    }

    /** No false negatives. */
    lemma {:induction false} FilterMatches(filter: Bytes, keys: seq<Bytes>, key: Bytes)
      requires FilterFor(filter, keys) && key in keys
      ensures May(key, filter)
    {
      var i :| 0 <= i < |keys| && keys[i] == key;
      ExactlySet(filter[..|filter| - 1], Hashes(keys), k, i);
    }

    method CreateFilter(keys: Bytes, keyOffsets: seq<nat>) returns (filter: Bytes)
      requires 1 <= k <= 30 && OffsetsOk(keys, keyOffsets)
      ensures FilterFor(filter, Pieces(keys, keyOffsets))
    {
      hide Exactly;
      hide BitAt;
      hide AllSet;
      hide Asked;
      var filterBits := |keyOffsets| * bitsPerKey;
      var bits: Bytes := if filterBits < 64 then seq(8, _ => 0) else seq((filterBits + 7) / 8, _ => 0);
      ghost var size, hashes := |bits|, Hashes(Pieces(keys, keyOffsets));
      NoneSet(bits, k);
      for i := 0 to |keyOffsets|
        invariant |bits| == size && Exactly(bits, hashes[..i], k)
      {
        var upper := if i == |keyOffsets| - 1 then |keys| else keyOffsets[i + 1];
        var more := AddHash(bits, hash(keys[keyOffsets[i]..upper]));
        assert hashes[..i + 1] == hashes[..i] + [hash(keys[keyOffsets[i]..upper])];
        ExactlyMore(bits, more, hashes[..i], hashes[i], k);
        bits := more;
      }
      assert hashes[..|keyOffsets|] == hashes;
      filter := bits + [k];
      assert filter[..|filter| - 1] == bits;
    }

    /** Sets the bits of a hash and no others. */
    method AddHash(bits: Bytes, hashed: Word) returns (r: Bytes)
      requires |bits| >= 8
      ensures |r| == |bits| && forall pos: nat :: BitAt(r, pos) <==> BitAt(bits, pos) || Asked(hashed, k, |bits|, pos)
    {
      hide BitAt;
      hide BitPos;
      hide Plus;
      hide Rotated;
      hide Asked;
      var h := hashed;
      var delta := Rotated(h);
      r := bits;
      NotAsked(hashed, |bits|);
      for j := 0 to k
        invariant |r| == |bits| && h == Probe(hashed, j)
        invariant forall pos: nat :: BitAt(r, pos) <==> BitAt(bits, pos) || Asked(hashed, j, |bits|, pos)
      {
        var bitpos := BitPos(h, |r|);
        AskedMore(hashed, j, |bits|);
        r := WithBit(r, bitpos);
        h := Plus(h, delta);
      }
    }

    /** The test divides by the number of bits, unless it looks at none of them. */
    static predicate Testable(filter: Bytes) {
      |filter| != 1 || filter[0] == 0 || filter[0] > 30
    }

    /** Whether the key may be in the filter. */
    method KeyMayMatch(key: Bytes, filter: Bytes) returns (r: bool)
      requires Testable(filter)
      ensures r <==> May(key, filter)
    {
      hide Bit;
      hide BitPos;
      hide Plus;
      hide Rotated;
      if filter == [] {
        return true;
      }
      var n := filter[|filter| - 1];
      var bits := filter[..|filter| - 1];
      if n > 30 {
        return true;
      }
      r := TestHash(bits, hash(key), n);
    }

    /** Whether all the bits that a hash asks for are set. */
    static method TestHash(bits: Bytes, hashed: Word, n: nat) returns (r: bool)
      requires bits != [] || n == 0
      ensures r <==> AllSet(bits, hashed, n)
    {
      hide Bit;
      hide BitPos;
      hide Plus;
      hide Rotated;
      var h := hashed;
      var delta := Rotated(h);
      for j := 0 to n
        invariant h == Probe(hashed, j) && AllSet(bits, hashed, j)
      {
        var bitpos := BitPos(h, |bits|);
        if !Bit(bits[bitpos / 8], bitpos % 8) {
          assert !BitAt(bits, BitPos(Probe(hashed, j), |bits|));
          return false;
        }
        h := Plus(h, delta);
      }
      return true;
    }
  }

  /** Filters for internal keys: only the user key, all but the last eight bytes, counts. */
  class InternalFilterPolicy {
    const inner: BloomPolicy

    constructor (inner: BloomPolicy)
      requires 1 <= inner.k <= 30
      ensures this.inner == inner
    {
      this.inner := inner;
    }

    ghost predicate May(key: Bytes, filter: Bytes)
      requires |key| >= 8
    {
      inner.May(key[..|key| - 8], filter)
    }

    static function UserKey(key: Bytes): Bytes {
      if |key| >= 8 then key[..|key| - 8] else []
    }

    static function UserKeys(keys: seq<Bytes>): seq<Bytes> {
      seq(|keys|, i requires 0 <= i < |keys| => UserKey(keys[i]))
    }

    /** The filter is the one for the user keys, so that every key matches. */
    method CreateFilter(keys: Bytes, keyOffsets: seq<nat>) returns (filter: Bytes)
      requires 1 <= inner.k <= 30 && OffsetsOk(keys, keyOffsets)
      requires forall key :: key in Pieces(keys, keyOffsets) ==> |key| >= 8
      ensures inner.FilterFor(filter, UserKeys(Pieces(keys, keyOffsets)))
      ensures |filter| > 8 && forall key :: key in Pieces(keys, keyOffsets) ==> May(key, filter)
    {
      hide Pieces;
      hide OffsetsOk;
      hide BloomPolicy.FilterFor;
      var modKeys: Bytes, modKeyOffsets: seq<nat> := [], [];
      ghost var pieces := Pieces(keys, keyOffsets);
      NoPieces();
      PieceCount(keys, keyOffsets);
      for i := 0 to |keyOffsets|
        invariant OffsetsOk(modKeys, modKeyOffsets) && (modKeyOffsets == [] ==> modKeys == [])
        invariant Pieces(modKeys, modKeyOffsets) == UserKeys(pieces[..i])
      {
        PieceAt(keys, keyOffsets, i);
        var upper := if i == |keyOffsets| - 1 then |keys| else keyOffsets[i + 1];
        var key := keys[keyOffsets[i]..upper];
        assert pieces[i] in pieces;
        PiecesMore(modKeys, modKeyOffsets, key[..|key| - 8]);
        assert UserKeys(pieces[..i + 1]) == UserKeys(pieces[..i]) + [UserKey(pieces[i])];
        modKeyOffsets := modKeyOffsets + [|modKeys|];
        modKeys := modKeys + key[..|key| - 8];
      }
      assert pieces[..|keyOffsets|] == pieces;
      filter := inner.CreateFilter(modKeys, modKeyOffsets);
      AllMatch(filter, pieces);
    }

    lemma {:induction false} AllMatch(filter: Bytes, pieces: seq<Bytes>)
      requires inner.FilterFor(filter, UserKeys(pieces)) && forall key :: key in pieces ==> |key| >= 8
      ensures |filter| > 8 && forall key :: key in pieces ==> May(key, filter)
    {
      forall key | key in pieces ensures May(key, filter) {
        var j :| 0 <= j < |pieces| && pieces[j] == key;
        assert UserKeys(pieces)[j] in UserKeys(pieces);
        inner.FilterMatches(filter, UserKeys(pieces), key[..|key| - 8]);
      }
    }

    method KeyMayMatch(key: Bytes, filter: Bytes) returns (r: bool)
      requires |key| >= 8 && BloomPolicy.Testable(filter)
      ensures r <==> May(key, filter)
    {
      r := inner.KeyMayMatch(key[..|key| - 8], filter);
    }
  }
}
