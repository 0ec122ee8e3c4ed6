/** The record log: records cut into checksummed fragments that never cross a block (src/log.rs). */
module Log {
  import opened Bytes
  import opened Coding

  const HEADER_SIZE: nat := 7
  const FULL: Byte := 1
  const FIRST: Byte := 2
  const MIDDLE: Byte := 3
  const LAST: Byte := 4

  type Word = x: int | 0 <= x < 0x1_0000_0000

  const MASK_DELTA: nat := 0xa282ead8

  /** The checksum rotated right by 15 bits, plus a constant, modulo the word size. */
  function MaskCrc(c: Word): (r: Word) {
    (c / 0x8000 + c % 0x8000 * 0x2_0000 + MASK_DELTA) % 0x1_0000_0000
  }

  function UnmaskCrc(mc: nat): (r: Word) {
    var rot := (mc + 0x1_0000_0000 - MASK_DELTA) % 0x1_0000_0000;
    rot / 0x2_0000 + rot % 0x2_0000 * 0x8000
  }

  lemma {:induction false} UnmaskMask(c: Word)
    ensures UnmaskCrc(MaskCrc(c)) == c
  {
    var hi, lo := c / 0x8000, c % 0x8000;
    var rot := hi + lo * 0x2_0000;
    assert rot < 0x1_0000_0000;
    assert (MaskCrc(c) + 0x1_0000_0000 - MASK_DELTA) % 0x1_0000_0000 == rot;
    assert rot / 0x2_0000 == lo && rot % 0x2_0000 == hi;
  }

  /** The upper 17 bits and the lower 15 change places before the constant is added. */
  lemma {:induction false} MaskIs(hi: nat, lo: nat)
    requires hi < 0x2_0000 && lo < 0x8000
    ensures hi * 0x8000 + lo < 0x1_0000_0000
    ensures MaskCrc(hi * 0x8000 + lo) == (lo * 0x2_0000 + hi + 0xa282ead8) % 0x1_0000_0000
  {
    var c := hi * 0x8000 + lo;
    assert c / 0x8000 == hi && c % 0x8000 == lo;
  }

  /** The log's parameters: block size and checksum. The source asserts that a fragment's length fits 16 bits. */
  datatype Format = Format(blockSize: nat, crc: Bytes -> Word)

  predicate FormatOk(fm: Format) {
    HEADER_SIZE < fm.blockSize < 0x1_0000 + HEADER_SIZE
  }

  function Min(a: nat, b: nat): nat {
    if a < b then a else b
  }

  function Zeros(n: nat): (z: Bytes)
    ensures |z| == n
  {
    seq(n, _ => 0)
  }

  // ----- the writer -----

  /** A fragment, with the padding that fills the block before it. */
  datatype Chunk = Chunk(pad: nat, typ: Byte, data: Bytes)

  function Header(fm: Format, typ: Byte, data: Bytes): (h: Bytes)
    ensures |h| == HEADER_SIZE
  {
    EncodeFixed(4, MaskCrc(fm.crc([typ] + data))) + EncodeFixed(2, |data|) + [typ]
  }

  function ChunkBytes(fm: Format, c: Chunk): Bytes {
    Zeros(c.pad) + Header(fm, c.typ, c.data) + c.data
  }

  function Encode(fm: Format, cs: seq<Chunk>): Bytes {
    if cs == [] then [] else ChunkBytes(fm, cs[0]) + Encode(fm, cs[1..])
  }

  function PadAt(fm: Format, off: nat): nat
    requires off <= fm.blockSize
  {
    if fm.blockSize - off < HEADER_SIZE then fm.blockSize - off else 0
  }

  /** Where a fragment that follows the offset starts in its block. */
  function StartAt(fm: Format, off: nat): nat
    requires off <= fm.blockSize
  {
    if fm.blockSize - off < HEADER_SIZE then 0 else off
  }

  function TypeOf(first: bool, last: bool): Byte {
    if first && last then FULL else if first then FIRST else if last then LAST else MIDDLE
  }

  function NextChunk(fm: Format, off: nat, first: bool, r: Bytes): Chunk
    requires FormatOk(fm) && off <= fm.blockSize
  {
    var n := Min(|r|, fm.blockSize - StartAt(fm, off) - HEADER_SIZE);
    Chunk(PadAt(fm, off), TypeOf(first, n == |r|), r[..n])
  }

  function EndAt(fm: Format, off: nat, c: Chunk): nat
    requires off <= fm.blockSize
  {
    StartAt(fm, off) + HEADER_SIZE + |c.data|
  }

  /** The fragments of a record written at an offset of a block. */
  function Chunks(fm: Format, off: nat, first: bool, r: Bytes): seq<Chunk>
    requires FormatOk(fm) && off <= fm.blockSize
    decreases |r|, if fm.blockSize - off == HEADER_SIZE then 1 else 0
  {
    if r == [] then []
    else
      var c := NextChunk(fm, off, first, r);
      [c] + Chunks(fm, EndAt(fm, off, c), false, r[|c.data|..])
  }

  /** Each fragment is padded to where the previous one ends and lies within a block. */
  ghost predicate Fits(fm: Format, off: nat, cs: seq<Chunk>)
    requires off <= fm.blockSize
    decreases cs
  {
    cs == [] ||
    (&& cs[0].pad == PadAt(fm, off) && EndAt(fm, off, cs[0]) <= fm.blockSize && |cs[0].data| < 0x1_0000
     && Fits(fm, EndAt(fm, off, cs[0]), cs[1..]))
  }

  /** The block offset after fragments. */
  function OffAfter(fm: Format, off: nat, cs: seq<Chunk>): (r: nat)
    requires off <= fm.blockSize
    ensures r <= fm.blockSize
    decreases cs
  {
    if cs == [] then off
    else if EndAt(fm, off, cs[0]) <= fm.blockSize then OffAfter(fm, EndAt(fm, off, cs[0]), cs[1..])
    else fm.blockSize
  }

  lemma {:induction false} ChunksFit(fm: Format, off: nat, first: bool, r: Bytes)
    requires FormatOk(fm) && off <= fm.blockSize
    ensures Fits(fm, off, Chunks(fm, off, first, r))
    decreases |r|, if fm.blockSize - off == HEADER_SIZE then 1 else 0
  {
    if r != [] {
      var c := NextChunk(fm, off, first, r);
      ChunksFit(fm, EndAt(fm, off, c), false, r[|c.data|..]);
    }
  }

  /** The i-th fragment says whether it is the first and the last, and all but the last fill their block. */
  lemma {:induction false} ChunkAt(fm: Format, off: nat, first: bool, r: Bytes, i: nat)
    requires FormatOk(fm) && off <= fm.blockSize && i < |Chunks(fm, off, first, r)|
    ensures var cs := Chunks(fm, off, first, r);
            && cs[i].typ == (if first && i == 0 then (if |cs| == 1 then FULL else FIRST)
                             else if i == |cs| - 1 then LAST else MIDDLE)
            && (i + 1 < |cs| ==> OffAfter(fm, off, cs[..i + 1]) == fm.blockSize)
    decreases i
  {
    hide Zeros;
    var cs, c := Chunks(fm, off, first, r), NextChunk(fm, off, first, r);
    var more := Chunks(fm, EndAt(fm, off, c), false, r[|c.data|..]);
    assert cs == [c] + more;
    if i > 0 {
      ChunkAt(fm, EndAt(fm, off, c), false, r[|c.data|..], i - 1);
      assert cs[..i + 1][1..] == more[..i];
    } else {
      assert cs[..1] == [c];
      assert more == [] <==> |c.data| == |r|;
    }
  }

  /** Records written one after the other. */
  function EncodeAll(fm: Format, off: nat, rs: seq<Bytes>): Bytes
    requires FormatOk(fm) && off <= fm.blockSize
    decreases rs
  {
    if rs == [] then []
    else
      var cs := Chunks(fm, off, true, rs[0]);
      Encode(fm, cs) + EncodeAll(fm, OffAfter(fm, off, cs), rs[1..])
  }

  function OffAfterAll(fm: Format, off: nat, rs: seq<Bytes>): (r: nat)
    requires FormatOk(fm) && off <= fm.blockSize
    ensures r <= fm.blockSize
    decreases rs
  {
    if rs == [] then off else OffAfterAll(fm, OffAfter(fm, off, Chunks(fm, off, true, rs[0])), rs[1..])
  }

  class LogWriter {
    const fm: Format
    var dst: Bytes
    var offset: nat

    ghost predicate Valid()
      reads this
    {
      FormatOk(fm) && offset <= fm.blockSize
    }

    constructor (fm: Format)
      requires FormatOk(fm)
      ensures Valid() && this.fm == fm && dst == [] && offset == 0
    {
      this.fm := fm;
      dst, offset := [], 0;
    }

    /** A writer that continues a file of the given length. */
    constructor WithOffset(fm: Format, file: Bytes)
      requires FormatOk(fm)
      ensures Valid() && this.fm == fm && dst == file && offset == |file| % fm.blockSize
    {
      this.fm := fm;
      dst, offset := file, |file| % fm.blockSize;
    }

    method AddRecord(r: Bytes)
      requires Valid()
      modifies this
      ensures Valid()
      ensures dst == old(dst) + Encode(fm, Chunks(fm, old(offset), true, r))
      ensures offset == OffAfter(fm, old(offset), Chunks(fm, old(offset), true, r))
    {
      var record := r;
      var firstFrag := true;
      while record != []
        invariant Valid()
        invariant dst + Encode(fm, Chunks(fm, offset, firstFrag, record)) == old(dst) + Encode(fm, Chunks(fm, old(offset), true, r))
        invariant OffAfter(fm, offset, Chunks(fm, offset, firstFrag, record)) == OffAfter(fm, old(offset), Chunks(fm, old(offset), true, r))
        decreases |record|, if fm.blockSize - offset == HEADER_SIZE then 1 else 0
      {
        hide ChunkBytes;
        hide NextChunk;
        FirstChunk(fm, offset, firstFrag, record, dst);
        var n := AddFragment(firstFrag, record);
        record := record[n..];
        firstFrag := false;
      }
    }

    /** One turn of the loop: padding if the block has no room for a header, then as much as fits. */
    method AddFragment(firstFrag: bool, record: Bytes) returns (n: nat)
      requires Valid() && record != []
      modifies this
      ensures Valid() && var c := NextChunk(fm, old(offset), firstFrag, record);
              n == |c.data| <= |record| && dst == old(dst) + ChunkBytes(fm, c) && offset == EndAt(fm, old(offset), c)
    {
      hide Header;
      var spaceLeft := fm.blockSize - offset;
      if spaceLeft < HEADER_SIZE {
        assert [0, 0, 0, 0, 0, 0][0..spaceLeft] == Zeros(spaceLeft);
        dst := dst + [0, 0, 0, 0, 0, 0][0..spaceLeft];
        offset := 0;
      }
      assert dst == old(dst) + Zeros(PadAt(fm, old(offset)));
      var availForData := fm.blockSize - offset - HEADER_SIZE;
      n := if |record| < availForData then |record| else availForData;
      var recordType := if firstFrag && n == |record| then FULL
                        else if firstFrag then FIRST
                        else if n == |record| then LAST
                        else MIDDLE;
      EmitRecord(recordType, record, n);
    }

    method EmitRecord(t: Byte, data: Bytes, len: nat)
      requires FormatOk(fm) && len <= |data| && len < 0x1_0000
      modifies this
      ensures dst == old(dst) + (Header(fm, t, data[..len]) + data[..len])
      ensures offset == old(offset) + HEADER_SIZE + len
    {
      var chksum := MaskCrc(fm.crc([t] + data[0..len]));
      var s := EncodeFixed(4, chksum) + EncodeFixed(2, len) + [t] + data[0..len];
      dst := dst + s;
      offset := offset + |s|;
    }
  }

  /** The first fragment and those that follow it. */
  lemma {:induction false} FirstChunk(fm: Format, off: nat, first: bool, r: Bytes, dst: Bytes)
    requires FormatOk(fm) && off <= fm.blockSize && r != []
    ensures var c := NextChunk(fm, off, first, r);
            && |c.data| <= |r| && EndAt(fm, off, c) <= fm.blockSize
            && (|c.data| == 0 ==> fm.blockSize - off == HEADER_SIZE && EndAt(fm, off, c) == fm.blockSize)
            && var more := Chunks(fm, EndAt(fm, off, c), false, r[|c.data|..]);
            && Chunks(fm, off, first, r) == [c] + more
            && dst + Encode(fm, Chunks(fm, off, first, r)) == dst + ChunkBytes(fm, c) + Encode(fm, more)
            && OffAfter(fm, off, Chunks(fm, off, first, r)) == OffAfter(fm, EndAt(fm, off, c), more)
  {
    hide ChunkBytes;
    var c := NextChunk(fm, off, first, r);
    var more := Chunks(fm, EndAt(fm, off, c), false, r[|c.data|..]);
    assert ([c] + more)[1..] == more;
    assert dst + (ChunkBytes(fm, c) + Encode(fm, more)) == dst + ChunkBytes(fm, c) + Encode(fm, more);
  }

  // ----- the reader -----

  /** What is left of the file, the offset in the block, and the header buffer. */
  datatype Source = Source(data: Bytes, off: nat, head: Bytes)

  datatype Outcome = Got(record: Bytes, src: Source) | AtEnd | Failed

  /** Bytes read over the front of a buffer. */
  function Filled(buf: Bytes, data: Bytes): (r: Bytes)
    requires |data| <= |buf|
    ensures |r| == |buf|
  {
    data + buf[|data|..]
  }

  /** The source without the padding at the end of a block. */
  function Skipped(fm: Format, s: Source): Source
    requires s.off <= fm.blockSize && PadAt(fm, s.off) <= |s.data| && |s.head| == HEADER_SIZE
  {
    var n := PadAt(fm, s.off);
    Source(s.data[n..], StartAt(fm, s.off), Filled(s.head, s.data[..n]))
  }

  function HeaderRead(s: Source): Source
    requires |s.head| == HEADER_SIZE
  {
    var n := Min(HEADER_SIZE, |s.data|);
    Source(s.data[n..], s.off + n, Filled(s.head, s.data[..n]))
  }

  datatype FragmentRead = Fragment(typ: Byte, data: Bytes, src: Source) | NoMore | Bad

  /** One fragment: padding is skipped, a short read leaves zeros, the checksum is compared. */
  function ReadFragment(fm: Format, check: bool, s: Source): (r: FragmentRead)
    requires |s.head| == HEADER_SIZE
    ensures r.Fragment? ==> |r.src.head| == HEADER_SIZE && |r.src.data| < |s.data|
  {
    if s.off > fm.blockSize || |s.data| < PadAt(fm, s.off) then Bad
    else
      var t := Skipped(fm, s);
      if t.data == [] then NoMore
      else
        var u := HeaderRead(t);
        var len, typ := DecodeFixed(u.head[4..6]), u.head[6];
        var n := Min(len, |u.data|);
        if check && UnmaskCrc(DecodeFixed(u.head[0..4])) != fm.crc([typ] + u.data[..n]) then Bad
        else Fragment(typ, u.data[..n] + Zeros(len - n), Source(u.data[n..], u.off + n, u.head))
  }

  /** The next record, after acc of it has been read. Nothing marks where it began. */
  function ReadFrom(fm: Format, check: bool, s: Source, acc: Bytes): (r: Outcome)
    requires |s.head| == HEADER_SIZE
    ensures r.Got? ==> |r.src.head| == HEADER_SIZE && |r.src.data| < |s.data|
    decreases |s.data|
  {
    match ReadFragment(fm, check, s)
    case NoMore => AtEnd
    case Bad => Failed
    case Fragment(typ, data, w) =>
      if typ == FULL || typ == LAST then Got(acc + data, w) else ReadFrom(fm, check, w, acc + data)
  }

  /** All records up to the end, an error or an empty record, as recovery reads them. */
  function ReadAll(fm: Format, check: bool, s: Source): seq<Bytes>
    requires |s.head| == HEADER_SIZE
    decreases |s.data|
  {
    match ReadFrom(fm, check, s, [])
    case Got(r, s') => if r == [] then [] else [r] + ReadAll(fm, check, s')
    case _ => []
  }

  class LogReader {
    const fm: Format
    const checksums: bool
    var src: Bytes
    var blkOff: nat
    var head: Bytes

    function S(): Source
      reads this
    {
      Source(src, blkOff, head)
    }

    constructor (fm: Format, src: Bytes, checksums: bool)
      ensures this.fm == fm && this.checksums == checksums && S() == Source(src, 0, Zeros(HEADER_SIZE))
    {
      this.fm, this.checksums := fm, checksums;
      this.src, blkOff, head := src, 0, Zeros(HEADER_SIZE);
    }

    /** None on an error; an empty record at the end of the file. */
    method Read() returns (dst: Option<Bytes>)
      requires |head| == HEADER_SIZE
      modifies this
      ensures |head| == HEADER_SIZE
      ensures match old(ReadFrom(fm, checksums, S(), []))
              case Got(r, s') => dst == Some(r) && S() == s'
              case AtEnd => dst == Some([])
              case Failed => dst == None
    {
      hide ReadFragment;
      var buf: Bytes := [];
      while true
        invariant |head| == HEADER_SIZE
        invariant ReadFrom(fm, checksums, S(), buf) == old(ReadFrom(fm, checksums, S(), []))
        decreases |src|
      {
        var r := NextFragment();
        match r {
          case Bad => return None;
          case NoMore => return Some([]);
          case Fragment(typ, data, _) =>
            buf := buf + data;
            if typ == FULL || typ == LAST {
              return Some(buf);
            }
        }
      }
    }

    /** One turn of the loop. */
    method NextFragment() returns (r: FragmentRead)
      requires |head| == HEADER_SIZE
      modifies this
      ensures |head| == HEADER_SIZE
      ensures r == old(ReadFragment(fm, checksums, S()))
      ensures r.Fragment? ==> S() == r.src
    {
      hide HeaderRead;
      hide Skipped;
      hide DecodeFixed;
      hide UnmaskCrc;
      var ok := SkipTrailer();
      if !ok {
        return Bad;
      }
      if src == [] {
        return NoMore;
      }
      ReadHeader();
      var checksum := DecodeFixed(head[0..4]);
      var length := DecodeFixed(head[4..6]);
      var typ := head[6];
      var bytesRead := Min(length, |src|);
      var data := src[..bytesRead];
      src := src[bytesRead..];
      blkOff := blkOff + bytesRead;
      if checksums && UnmaskCrc(checksum) != fm.crc([typ] + data) {
        return Bad;
      }
      return Fragment(typ, data + Zeros(length - bytesRead), S());
    }

    /** Skips what is left of a block without room for a header. */
    method SkipTrailer() returns (ok: bool)
      requires |head| == HEADER_SIZE
      modifies this
      ensures |head| == HEADER_SIZE
      ensures ok <==> old(blkOff) <= fm.blockSize && PadAt(fm, old(blkOff)) <= |old(src)|
      ensures ok ==> S() == old(Skipped(fm, S()))
    {
      if blkOff > fm.blockSize {
        return false;
      }
      if fm.blockSize - blkOff < HEADER_SIZE {
        var gap := fm.blockSize - blkOff;
        if |src| < gap {
          return false;
        }
        head := src[..gap] + head[gap..];
        src := src[gap..];
        blkOff := 0;
      }
      return true;
    }

    method ReadHeader()
      requires |head| == HEADER_SIZE
      modifies this
      ensures |head| == HEADER_SIZE && S() == old(HeaderRead(S()))
    {
      var bytesRead := Min(HEADER_SIZE, |src|);
      head := src[..bytesRead] + head[bytesRead..];
      src := src[bytesRead..];
      blkOff := blkOff + bytesRead;
    }
  }

  // ----- reading back -----

  lemma {:induction false} HeaderFields(fm: Format, typ: Byte, data: Bytes)
    requires |data| < 0x1_0000
    ensures var h := Header(fm, typ, data);
            h[6] == typ && DecodeFixed(h[4..6]) == |data| && UnmaskCrc(DecodeFixed(h[0..4])) == fm.crc([typ] + data)
  {
    var h, c := Header(fm, typ, data), MaskCrc(fm.crc([typ] + data));
    assert h[0..4] == EncodeFixed(4, c) && h[4..6] == EncodeFixed(2, |data|);
    assert Limit(0) == 1 && Limit(1) == 0x100 && Limit(2) == 0x1_0000 && Limit(3) == 0x100_0000 && Limit(4) == 0x1_0000_0000;
    FixedRoundTrip(4, c);
    FixedRoundTrip(2, |data|);
    UnmaskMask(fm.crc([typ] + data));
  }

  lemma {:induction false} SkipPad(fm: Format, pad: nat, rest: Bytes, off: nat, head: Bytes)
    requires off <= fm.blockSize && |head| == HEADER_SIZE && pad == PadAt(fm, off)
    ensures var s := Source(Zeros(pad) + rest, off, head);
            pad <= |s.data| && Skipped(fm, s).data == rest && Skipped(fm, s).off == StartAt(fm, off) && |Skipped(fm, s).head| == HEADER_SIZE
  {
  }

  lemma {:induction false} TakeHeader(h: Bytes, data: Bytes, rest: Bytes, off: nat, head: Bytes)
    requires |h| == HEADER_SIZE == |head|
    ensures HeaderRead(Source(h + data + rest, off, head)) == Source(data + rest, off + HEADER_SIZE, h)
  {
    var s := Source(h + data + rest, off, head);
    assert s.data == h + (data + rest);
    assert h + head[HEADER_SIZE..] == h;
  }

  /** A fragment whose data is replaced is refused exactly if checksums are compared and the data's is another. */
  lemma {:induction false} ReadReplaced(fm: Format, check: bool, c: Chunk, data: Bytes, rest: Bytes, off: nat, head: Bytes)
    requires off <= fm.blockSize && |head| == HEADER_SIZE && c.pad == PadAt(fm, off) && |data| == |c.data| < 0x1_0000
    ensures var h := Header(fm, c.typ, c.data);
            ReadFragment(fm, check, Source(Zeros(c.pad) + (h + data + rest), off, head))
            == if check && fm.crc([c.typ] + data) != fm.crc([c.typ] + c.data) then Bad
               else Fragment(c.typ, data, Source(rest, EndAt(fm, off, c), h))
  {
    hide Header;
    hide Skipped;
    hide HeaderRead;
    hide DecodeFixed;
    hide UnmaskCrc;
    var h := Header(fm, c.typ, c.data);
    var s := Source(Zeros(c.pad) + (h + data + rest), off, head);
    SkipPad(fm, c.pad, h + data + rest, off, head);
    var t := Skipped(fm, s);
    TakeHeader(h, data, rest, t.off, t.head);
    HeaderFields(fm, c.typ, c.data);
    var all := data + rest;
    assert all[..|data|] == data && all[|data|..] == rest;
    assert data + Zeros(0) == data;
  }

  /** A fragment is read back whole. */
  lemma {:induction false} ReadChunk(fm: Format, check: bool, c: Chunk, rest: Bytes, off: nat, head: Bytes)
    requires off <= fm.blockSize && |head| == HEADER_SIZE && c.pad == PadAt(fm, off) && |c.data| < 0x1_0000
    ensures ReadFragment(fm, check, Source(ChunkBytes(fm, c) + rest, off, head))
            == Fragment(c.typ, c.data, Source(rest, EndAt(fm, off, c), Header(fm, c.typ, c.data)))
  {
    hide Header;
    hide ReadFragment;
    var h := Header(fm, c.typ, c.data);
    assert ChunkBytes(fm, c) + rest == Zeros(c.pad) + (h + c.data + rest);
    ReadReplaced(fm, check, c, c.data, rest, off, head);
  }

  /** A record is read back exactly, and the reader then stands where the writer does. */
  lemma {:induction false} ReadBack(fm: Format, check: bool, off: nat, first: bool, r: Bytes, rest: Bytes, head: Bytes, acc: Bytes)
    returns (h: Bytes)
    requires FormatOk(fm) && off <= fm.blockSize && r != [] && |head| == HEADER_SIZE
    ensures |h| == HEADER_SIZE
    ensures ReadFrom(fm, check, Source(Encode(fm, Chunks(fm, off, first, r)) + rest, off, head), acc)
            == Got(acc + r, Source(rest, OffAfter(fm, off, Chunks(fm, off, first, r)), h))
    decreases |r|, if fm.blockSize - off == HEADER_SIZE then 1 else 0
  {
    hide ChunkBytes;
    hide Header;
    hide ReadFragment;
    var c := NextChunk(fm, off, first, r);
    var r' := r[|c.data|..];
    FirstChunk(fm, off, first, r, []);
    hide Chunks;
    hide OffAfter;
    var more := Chunks(fm, EndAt(fm, off, c), false, r');
    var bytes := Encode(fm, Chunks(fm, off, first, r)) + rest;
    assert bytes == ChunkBytes(fm, c) + (Encode(fm, more) + rest);
    ReadChunk(fm, check, c, Encode(fm, more) + rest, off, head);
    h := Header(fm, c.typ, c.data);
    assert acc + c.data + r' == acc + r;
    if r' == [] {
      NoChunks(fm, EndAt(fm, off, c));
      assert Encode(fm, more) + rest == rest;
    } else {
      h := ReadBack(fm, check, EndAt(fm, off, c), false, r', rest, h, acc + c.data);
    }
  }

  lemma {:induction false} NoChunks(fm: Format, off: nat)
    requires FormatOk(fm) && off <= fm.blockSize
    ensures Chunks(fm, off, false, []) == [] && Encode(fm, Chunks(fm, off, false, [])) == []
    ensures OffAfter(fm, off, Chunks(fm, off, false, [])) == off
  {
  }

  lemma {:induction false} NothingLeft(fm: Format, check: bool, off: nat, head: Bytes, acc: Bytes)
    requires |head| == HEADER_SIZE
    ensures !ReadFrom(fm, check, Source([], off, head), acc).Got?
  {
  }

  lemma {:induction false} ReadAllStep(fm: Format, check: bool, s: Source, r: Bytes, s': Source)
    requires |s.head| == HEADER_SIZE == |s'.head| && r != [] && ReadFrom(fm, check, s, []) == Got(r, s')
    ensures ReadAll(fm, check, s) == [r] + ReadAll(fm, check, s')
  {
    hide ReadFrom;
  }

  /** Whatever follows, the records written are read first. */
  lemma {:induction false} ReadAllBack(fm: Format, check: bool, off: nat, rs: seq<Bytes>, rest: Bytes, head: Bytes) returns (h: Bytes)
    requires FormatOk(fm) && off <= fm.blockSize && |head| == HEADER_SIZE && [] !in rs
    ensures |h| == HEADER_SIZE
    ensures ReadAll(fm, check, Source(EncodeAll(fm, off, rs) + rest, off, head))
            == rs + ReadAll(fm, check, Source(rest, OffAfterAll(fm, off, rs), h))
    decreases rs
  {
    hide ReadFrom;
    hide ReadAll;
    hide Chunks;
    hide Encode;
    hide OffAfter;
    if rs == [] {
      h := head;
      assert EncodeAll(fm, off, rs) + rest == rest;
    } else {
      var cs := Chunks(fm, off, true, rs[0]);
      var off', more := OffAfter(fm, off, cs), rs[1..];
      assert rs[0] in rs;
      var bytes := EncodeAll(fm, off', more) + rest;
      assert EncodeAll(fm, off, rs) + rest == Encode(fm, cs) + bytes;
      var h' := ReadBack(fm, check, off, true, rs[0], bytes, head, []);
      assert [] + rs[0] == rs[0];
      ReadAllStep(fm, check, Source(EncodeAll(fm, off, rs) + rest, off, head), rs[0], Source(bytes, off', h'));
      h := ReadAllBack(fm, check, off', more, rest, h');
      assert [rs[0]] + more == rs;
    }
  }

  /** The reader returns exactly the records written, and then no more. */
  lemma {:induction false} RoundTrip(fm: Format, check: bool, rs: seq<Bytes>)
    requires FormatOk(fm) && [] !in rs
    ensures ReadAll(fm, check, Source(EncodeAll(fm, 0, rs), 0, Zeros(HEADER_SIZE))) == rs
  {
    var h := ReadAllBack(fm, check, 0, rs, [], Zeros(HEADER_SIZE));
    assert EncodeAll(fm, 0, rs) + [] == EncodeAll(fm, 0, rs);
    NothingLeft(fm, check, OffAfterAll(fm, 0, rs), h, []);
    hide ReadFrom;
    assert rs + [] == rs;
  }

  // ----- cut files -----

  function DataOf(cs: seq<Chunk>): Bytes {
    if cs == [] then [] else cs[0].data + DataOf(cs[1..])
  }

  lemma {:induction false} PrefixChunks(fm: Format, off: nat, first: bool, r: Bytes, k: nat)
    requires FormatOk(fm) && off <= fm.blockSize && 0 < k < |Chunks(fm, off, first, r)|
    ensures var cs, c := Chunks(fm, off, first, r), NextChunk(fm, off, first, r);
            && EndAt(fm, off, c) <= fm.blockSize && |c.data| < |r| && c.typ != FULL && c.typ != LAST && |c.data| < 0x1_0000
            && c.pad == PadAt(fm, off)
            && var more := Chunks(fm, EndAt(fm, off, c), false, r[|c.data|..]);
            && cs[..k] == [c] + more[..k - 1] && k - 1 < |more|
            && Encode(fm, cs[..k]) == ChunkBytes(fm, c) + Encode(fm, more[..k - 1])
            && DataOf(cs[..k]) == c.data + DataOf(more[..k - 1])
            && OffAfter(fm, off, cs[..k]) == OffAfter(fm, EndAt(fm, off, c), more[..k - 1])
  {
    hide ChunkBytes;
    var cs, c := Chunks(fm, off, first, r), NextChunk(fm, off, first, r);
    var more := Chunks(fm, EndAt(fm, off, c), false, r[|c.data|..]);
    assert cs == [c] + more;
    assert cs[..k] == [c] + more[..k - 1];
    assert cs[..k][1..] == more[..k - 1];
  }

  /** Fragments without the last one are carried over into whatever is read next. */
  lemma {:induction false} ReadPart(fm: Format, check: bool, off: nat, first: bool, r: Bytes, k: nat, rest: Bytes, head: Bytes, acc: Bytes)
    returns (h: Bytes)
    requires FormatOk(fm) && off <= fm.blockSize && |head| == HEADER_SIZE && k < |Chunks(fm, off, first, r)|
    ensures |h| == HEADER_SIZE
    ensures var cs := Chunks(fm, off, first, r)[..k];
            ReadFrom(fm, check, Source(Encode(fm, cs) + rest, off, head), acc)
            == ReadFrom(fm, check, Source(rest, OffAfter(fm, off, cs), h), acc + DataOf(cs))
    decreases k
  {
    hide ChunkBytes;
    hide Header;
    hide ReadFragment;
    if k == 0 {
      h := head;
      assert [] + rest == rest && acc + [] == acc;
    } else {
      PrefixChunks(fm, off, first, r, k);
      hide Chunks;
      hide NextChunk;
      hide OffAfter;
      hide DataOf;
      var c := NextChunk(fm, off, first, r);
      var cs, end := Chunks(fm, off, first, r), EndAt(fm, off, c);
      var more := Chunks(fm, end, false, r[|c.data|..])[..k - 1];
      assert Encode(fm, cs[..k]) + rest == ChunkBytes(fm, c) + (Encode(fm, more) + rest);
      ReadChunk(fm, check, c, Encode(fm, more) + rest, off, head);
      h := ReadPart(fm, check, end, false, r[|c.data|..], k - 1, rest, Header(fm, c.typ, c.data), acc + c.data);
      assert acc + c.data + DataOf(more) == acc + DataOf(cs[..k]);
    }
  }

  /** A file that ends after k fragments of a record. */
  function CutFile(fm: Format, rs: seq<Bytes>, r: Bytes, k: nat): Bytes
    requires FormatOk(fm) && k <= |Chunks(fm, OffAfterAll(fm, 0, rs), true, r)|
  {
    EncodeAll(fm, 0, rs) + Encode(fm, Chunks(fm, OffAfterAll(fm, 0, rs), true, r)[..k])
  }

  /** The fragments before a cut hold a proper prefix of the record. */
  lemma {:induction false} CutData(fm: Format, off: nat, first: bool, r: Bytes, k: nat)
    requires FormatOk(fm) && off <= fm.blockSize && k < |Chunks(fm, off, first, r)|
    ensures DataOf(Chunks(fm, off, first, r)[..k]) < r
    decreases k
  {
    hide Encode;
    hide OffAfter;
    if k > 0 {
      PrefixChunks(fm, off, first, r, k);
      var c := NextChunk(fm, off, first, r);
      hide Chunks;
      CutData(fm, EndAt(fm, off, c), false, r[|c.data|..], k - 1);
      assert r == c.data + r[|c.data|..];
    }
  }

  /** A file cut at any fragment boundary yields exactly the records wholly before the cut. */
  lemma {:induction false} CutAtFragment(fm: Format, check: bool, rs: seq<Bytes>, r: Bytes, k: nat)
    requires FormatOk(fm) && [] !in rs && k < |Chunks(fm, OffAfterAll(fm, 0, rs), true, r)|
    ensures ReadAll(fm, check, Source(CutFile(fm, rs, r, k), 0, Zeros(HEADER_SIZE))) == rs
  {
    hide ReadFrom;
    hide Chunks;
    hide EncodeAll;
    hide Encode;
    hide OffAfter;
    var off := OffAfterAll(fm, 0, rs);
    var part := Encode(fm, Chunks(fm, off, true, r)[..k]);
    var h := ReadAllBack(fm, check, 0, rs, part, Zeros(HEADER_SIZE));
    var h' := ReadPart(fm, check, off, true, r, k, [], h, []);
    assert part + [] == part;
    NothingLeft(fm, check, OffAfter(fm, off, Chunks(fm, off, true, r)[..k]), h', [] + DataOf(Chunks(fm, off, true, r)[..k]));
    assert rs + [] == rs;
  }

  // ----- reopened writers -----

  lemma {:induction false} ModAdd(a: nat, b: nat, n: nat, m: nat)
    requires m > 0 && a % m == b % m
    ensures (a + n) % m == (b + n) % m
  {
    Division(a, m);
    Division(b, m);
    ModSplit(a, n, a / m, a % m, m);
    ModSplit(b, n, b / m, a % m, m);
  }

  lemma {:induction false} ModSplit(a: nat, n: nat, x: nat, r: nat, m: nat)
    requires m > 0 && a == r + x * m
    ensures (a + n) % m == (r + n) % m
  {
    ModPlus(r + n, x, m);
    assert a + n == r + n + x * m;
  }

  lemma {:induction false} ModPlus(a: nat, k: nat, m: nat)
    requires m > 0
    ensures (a + k * m) % m == a % m
  {
    if k > 0 {
      ModPlus(a, k - 1, m);
      assert a + k * m == (a + (k - 1) * m) + m;
      ModOnce(a + (k - 1) * m, m);
    }
  }

  lemma {:induction false} ModOnce(a: nat, m: nat)
    requires m > 0
    ensures (a + m) % m == a % m
  {
    Division(a, m);
    Quotient(a + m, m, a / m + 1, a % m);
  }

  /** The block offset is the file position modulo the block size; only a full block may stand for zero. */
  lemma {:induction false} OffsetIsPosition(fm: Format, off: nat, cs: seq<Chunk>, pos: nat)
    requires FormatOk(fm) && off <= fm.blockSize && Fits(fm, off, cs) && pos % fm.blockSize == off % fm.blockSize
    ensures (pos + |Encode(fm, cs)|) % fm.blockSize == OffAfter(fm, off, cs) % fm.blockSize
    decreases cs
  {
    if cs != [] {
      var c := cs[0];
      var n, end := |ChunkBytes(fm, c)|, EndAt(fm, off, c);
      ModAdd(pos, off, n, fm.blockSize);
      if c.pad > 0 {
        assert off + n == end + fm.blockSize;
        ModOnce(end, fm.blockSize);
      } else if fm.blockSize - off < HEADER_SIZE {
        assert off + n == end + fm.blockSize;
        ModOnce(end, fm.blockSize);
      } else {
        assert off + n == end;
      }
      OffsetIsPosition(fm, end, cs[1..], pos + n);
    }
  }

  lemma {:induction false} PrefixFits(fm: Format, off: nat, cs: seq<Chunk>, k: nat)
    requires FormatOk(fm) && off <= fm.blockSize && Fits(fm, off, cs) && k <= |cs|
    ensures Fits(fm, off, cs[..k])
    decreases k
  {
    if k > 0 {
      PrefixFits(fm, EndAt(fm, off, cs[0]), cs[1..], k - 1);
      assert cs[..k][1..] == cs[1..][..k - 1];
    }
  }

  lemma {:induction false} OffsetAfterAll(fm: Format, off: nat, rs: seq<Bytes>, pos: nat)
    requires FormatOk(fm) && off <= fm.blockSize && pos % fm.blockSize == off % fm.blockSize
    ensures (pos + |EncodeAll(fm, off, rs)|) % fm.blockSize == OffAfterAll(fm, off, rs) % fm.blockSize
    decreases rs
  {
    hide Chunks;
    if rs != [] {
      var cs := Chunks(fm, off, true, rs[0]);
      ChunksFit(fm, off, true, rs[0]);
      OffsetIsPosition(fm, off, cs, pos);
      OffsetAfterAll(fm, OffAfter(fm, off, cs), rs[1..], pos + |Encode(fm, cs)|);
    }
  }

  /** Offsets that agree modulo the block size give the same bytes. */
  lemma {:induction false} SameOffset(fm: Format, a: nat, b: nat)
    requires FormatOk(fm) && a <= fm.blockSize && b <= fm.blockSize && a % fm.blockSize == b % fm.blockSize
    ensures a == b || (PadAt(fm, a) == PadAt(fm, b) == 0 && StartAt(fm, a) == StartAt(fm, b) == 0)
  {
    OffsetMod(a, fm.blockSize);
    OffsetMod(b, fm.blockSize);
  }

  lemma {:induction false} OffsetMod(a: nat, m: nat)
    requires a <= m && m > 0
    ensures a % m == if a == m then 0 else a
  {
    if a == m {
      Quotient(a, m, 1, 0);
    } else {
      Quotient(a, m, 0, a);
    }
  }

  lemma {:induction false} SameChunks(fm: Format, a: nat, b: nat, first: bool, r: Bytes)
    requires FormatOk(fm) && a <= fm.blockSize && b <= fm.blockSize && a % fm.blockSize == b % fm.blockSize
    ensures Chunks(fm, a, first, r) == Chunks(fm, b, first, r)
    ensures r != [] ==> OffAfter(fm, a, Chunks(fm, a, first, r)) == OffAfter(fm, b, Chunks(fm, b, first, r))
  {
    SameOffset(fm, a, b);
  }

  lemma {:induction false} SameBytes(fm: Format, a: nat, b: nat, rs: seq<Bytes>)
    requires FormatOk(fm) && a <= fm.blockSize && b <= fm.blockSize && a % fm.blockSize == b % fm.blockSize
    ensures EncodeAll(fm, a, rs) == EncodeAll(fm, b, rs)
    decreases rs
  {
    if rs != [] {
      SameChunks(fm, a, b, true, rs[0]);
      if rs[0] == [] {
        SameBytes(fm, a, b, rs[1..]);
      }
    }
  }

  lemma {:induction false} EncodeConcat(fm: Format, off: nat, rs: seq<Bytes>, more: seq<Bytes>)
    requires FormatOk(fm) && off <= fm.blockSize
    ensures EncodeAll(fm, off, rs + more) == EncodeAll(fm, off, rs) + EncodeAll(fm, OffAfterAll(fm, off, rs), more)
    decreases rs
  {
    hide Chunks;
    if rs == [] {
      assert rs + more == more;
    } else {
      assert (rs + more)[1..] == rs[1..] + more;
      EncodeConcat(fm, OffAfter(fm, off, Chunks(fm, off, true, rs[0])), rs[1..], more);
    }
  }

  /** A writer reopened at the file's length goes on as the first one would have. */
  lemma {:induction false} Reopened(fm: Format, rs: seq<Bytes>, more: seq<Bytes>)
    requires FormatOk(fm)
    ensures var file := EncodeAll(fm, 0, rs);
            EncodeAll(fm, 0, rs + more) == file + EncodeAll(fm, |file| % fm.blockSize, more)
  {
    var file := EncodeAll(fm, 0, rs);
    EncodeConcat(fm, 0, rs, more);
    OffsetAfterAll(fm, 0, rs, 0);
    SmallMod(|file|, fm.blockSize);
    SameBytes(fm, OffAfterAll(fm, 0, rs), |file| % fm.blockSize, more);
  }

  lemma {:induction false} SmallMod(a: nat, m: nat)
    requires m > 0
    ensures (a % m) % m == a % m
  {
  }

  // ----- appending after a cut -----

  lemma {:induction false} CutOffset(fm: Format, rs: seq<Bytes>, r: Bytes, k: nat)
    requires FormatOk(fm) && k <= |Chunks(fm, OffAfterAll(fm, 0, rs), true, r)|
    ensures |CutFile(fm, rs, r, k)| % fm.blockSize
            == OffAfter(fm, OffAfterAll(fm, 0, rs), Chunks(fm, OffAfterAll(fm, 0, rs), true, r)[..k]) % fm.blockSize
  {
    hide Chunks;
    var off := OffAfterAll(fm, 0, rs);
    var cs := Chunks(fm, off, true, r);
    OffsetAfterAll(fm, 0, rs, 0);
    ChunksFit(fm, off, true, r);
    PrefixFits(fm, off, cs, k);
    OffsetIsPosition(fm, off, cs[..k], |EncodeAll(fm, 0, rs)|);
  }

  /** After a cut inside a record, the next record that a reopened writer adds is read with the cut part before it. */
  lemma {:induction false} AppendedAfterCut(fm: Format, check: bool, rs: seq<Bytes>, r: Bytes, k: nat, next: Bytes, more: seq<Bytes>)
    requires FormatOk(fm) && [] !in rs && next != [] && [] !in more
    requires k < |Chunks(fm, OffAfterAll(fm, 0, rs), true, r)|
    ensures var file := CutFile(fm, rs, r, k);
            var part := DataOf(Chunks(fm, OffAfterAll(fm, 0, rs), true, r)[..k]);
            ReadAll(fm, check, Source(file + EncodeAll(fm, |file| % fm.blockSize, [next] + more), 0, Zeros(HEADER_SIZE)))
            == rs + [part + next] + more
  {
    hide ReadFrom;
    hide ReadAll;
    hide Chunks;
    hide Encode;
    hide OffAfter;
    hide DataOf;
    var off := OffAfterAll(fm, 0, rs);
    var cs := Chunks(fm, off, true, r)[..k];
    var off', part, file := OffAfter(fm, off, cs), DataOf(cs), CutFile(fm, rs, r, k);
    CutOffset(fm, rs, r, k);
    SmallMod(|file|, fm.blockSize);
    SameBytes(fm, |file| % fm.blockSize, off', [next] + more);
    var cs' := Chunks(fm, off', true, next);
    var off'' := OffAfter(fm, off', cs');
    var tail := EncodeAll(fm, off'', more);
    assert EncodeAll(fm, off', [next] + more) == Encode(fm, cs') + tail by {
      assert ([next] + more)[1..] == more;
    }
    var rest := Encode(fm, cs') + tail;
    assert file + rest == EncodeAll(fm, 0, rs) + (Encode(fm, cs) + rest);
    var h1 := ReadAllBack(fm, check, 0, rs, Encode(fm, cs) + rest, Zeros(HEADER_SIZE));
    var h2 := ReadPart(fm, check, off, true, r, k, rest, h1, []);
    var h3 := ReadBack(fm, check, off', true, next, tail, h2, part);
    assert [] + part == part;
    ReadAllStep(fm, check, Source(Encode(fm, cs) + rest, off, h1), part + next, Source(tail, off'', h3));
    TailReads(fm, check, off'', more, h3);
    assert rs + ([part + next] + more) == rs + [part + next] + more;
  }

  lemma {:induction false} TailReads(fm: Format, check: bool, off: nat, more: seq<Bytes>, head: Bytes)
    requires FormatOk(fm) && off <= fm.blockSize && |head| == HEADER_SIZE && [] !in more
    ensures ReadAll(fm, check, Source(EncodeAll(fm, off, more), off, head)) == more
  {
    hide ReadFrom;
    var h := ReadAllBack(fm, check, off, more, [], head);
    assert EncodeAll(fm, off, more) + [] == EncodeAll(fm, off, more);
    NothingLeft(fm, check, OffAfterAll(fm, off, more), h, []);
    assert more + [] == more;
  }

  /**
   * So a log that is reused after a cut gives back what was added exactly if the fragments left over hold no data:
   * the reader does not start anew at a first fragment.
   */
  lemma {:induction false} ReuseAfterCut(fm: Format, check: bool, rs: seq<Bytes>, r: Bytes, k: nat, next: Bytes, more: seq<Bytes>)
    requires FormatOk(fm) && [] !in rs && next != [] && [] !in more
    requires k < |Chunks(fm, OffAfterAll(fm, 0, rs), true, r)|
    ensures var file := CutFile(fm, rs, r, k);
            ReadAll(fm, check, Source(file + EncodeAll(fm, |file| % fm.blockSize, [next] + more), 0, Zeros(HEADER_SIZE)))
            == rs + [next] + more
            <==> DataOf(Chunks(fm, OffAfterAll(fm, 0, rs), true, r)[..k]) == []
  {
    hide ReadAll;
    hide Chunks;
    hide DataOf;
    hide EncodeAll;
    hide CutFile;
    AppendedAfterCut(fm, check, rs, r, k, next, more);
    var part := DataOf(Chunks(fm, OffAfterAll(fm, 0, rs), true, r)[..k]);
    var got, want := rs + [part + next] + more, rs + [next] + more;
    if part == [] {
      assert part + next == next;
    } else {
      assert got[|rs|] == part + next && want[|rs|] == next && |part + next| != |next|;
    }
  }

  lemma {:induction false} TwoChunks(fm: Format)
    requires fm.blockSize == 10
    ensures |Chunks(fm, 0, true, [1, 2, 3, 4])| == 2 && DataOf(Chunks(fm, 0, true, [1, 2, 3, 4])[..1]) == [1, 2, 3]
  {
    var r: Bytes := [1, 2, 3, 4];
    var c, c' := NextChunk(fm, 0, true, r), NextChunk(fm, 10, false, [4]);
    assert c.data == [1, 2, 3] && r[3..] == [4] && c'.data == [4] && [4][1..] == [];
    assert Chunks(fm, 10, false, [4]) == [c'] + Chunks(fm, 8, false, []);
    assert Chunks(fm, 0, true, r) == [c] + [c'];
    assert Chunks(fm, 0, true, r)[..1] == [c];
    assert DataOf([c]) == [1, 2, 3] + DataOf([]);
  }

  /** A first fragment of three bytes is left over; the next record comes back with those bytes before it. */
  lemma {:induction false} ReuseAfterCutFails(crc: Bytes -> Word)
    ensures var fm := Format(10, crc);
            && |Chunks(fm, 0, true, [1, 2, 3, 4])| == 2
            && var file := CutFile(fm, [], [1, 2, 3, 4], 1);
            ReadAll(fm, true, Source(file + EncodeAll(fm, |file| % 10, [[9]]), 0, Zeros(HEADER_SIZE))) == [[1, 2, 3, 9]]
  {
    hide ReadAll;
    hide EncodeAll;
    hide Chunks;
    hide DataOf;
    hide CutFile;
    var fm := Format(10, crc);
    TwoChunks(fm);
    AppendedAfterCut(fm, true, [], [1, 2, 3, 4], 1, [9], []);
    assert [[9]] + [] == [[9]];
    assert [1, 2, 3] + [9] == [1, 2, 3, 9];
    assert [] + [[1, 2, 3] + [9]] + [] == [[1, 2, 3] + [9]];
  }
}
