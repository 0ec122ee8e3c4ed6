/** Version edits as bytes (src/version_edit.rs). */
module VersionEdits {
  import opened Bytes
  import opened Coding

  datatype FileMeta = FileMeta(num: nat, size: nat, smallest: Bytes, largest: Bytes, allowedSeeks: int)

  datatype VersionEdit = VersionEdit(
    comparator: Option<Bytes>, logNumber: Option<nat>, prevLogNumber: Option<nat>, nextFileNumber: Option<nat>,
    lastSeq: Option<nat>, compactionPtrs: seq<(nat, Bytes)>, deleted: set<(nat, nat)>, newFiles: seq<(nat, FileMeta)>)

  const Empty := VersionEdit(None, None, None, None, None, [], {}, [])

  /** One tagged part of an edit. */
  datatype Item =
    | Comparator(name: Bytes)
    | LogNumber(n: nat)
    | PrevLogNumber(n: nat)
    | NextFileNumber(n: nat)
    | LastSequence(n: nat)
    | CompactPointer(level: nat, key: Bytes)
    | DeletedFile(level: nat, n: nat)
    | NewFile(level: nat, file: FileMeta)

  function Prefixed(bs: Bytes): Bytes {
    EncodeVar(|bs|) + bs
  }

  function Tag(it: Item): (t: nat)
    ensures t < 128
  {
    match it
    case Comparator(_) => 1
    case LogNumber(_) => 2
    case NextFileNumber(_) => 3
    case LastSequence(_) => 4
    case CompactPointer(_, _) => 5
    case DeletedFile(_, _) => 6
    case NewFile(_, _) => 7
    case PrevLogNumber(_) => 9
  }

  function Body(it: Item): Bytes {
    match it
    case Comparator(name) => Prefixed(name)
    case LogNumber(n) => EncodeVar(n)
    case PrevLogNumber(n) => EncodeVar(n)
    case NextFileNumber(n) => EncodeVar(n)
    case LastSequence(n) => EncodeVar(n)
    case CompactPointer(l, key) => EncodeVar(l) + Prefixed(key)
    case DeletedFile(l, n) => EncodeVar(l) + EncodeVar(n)
    case NewFile(l, f) => EncodeVar(l) + (EncodeVar(f.num) + (EncodeVar(f.size) + (Prefixed(f.smallest) + Prefixed(f.largest))))
  }

  function EncodeItem(it: Item): Bytes {
    EncodeVar(Tag(it)) + Body(it)
  }

  // ----- reading -----

  /** A value at the front and what follows it. */
  datatype Read<T> = Got(value: T, rest: Bytes) | Failed

  function ReadVar(bs: Bytes): (r: Read<nat>)
    ensures r.Got? ==> |r.rest| < |bs|
  {
    match DecodeVar(bs)
    case None => Failed
    case Some((x, n)) => Got(x, bs[n..])
  }

  function ReadPrefixed(bs: Bytes): (r: Read<Bytes>)
    ensures r.Got? ==> |r.rest| < |bs|
  {
    match ReadVar(bs)
    case Failed => Failed
    case Got(len, rest) => if len > |rest| then Failed else Got(rest[..len], rest[len..])
  }

  /** The part behind a tag; an unknown tag is an error. */
  function ReadItem(tag: nat, bs: Bytes): (r: Read<Item>)
    ensures r.Got? ==> |r.rest| < |bs|
  {
    match tag
    case 1 => (match ReadPrefixed(bs) case Failed => Failed case Got(name, rest) => Got(Comparator(name), rest))
    case 2 => (match ReadVar(bs) case Failed => Failed case Got(n, rest) => Got(LogNumber(n), rest))
    case 3 => (match ReadVar(bs) case Failed => Failed case Got(n, rest) => Got(NextFileNumber(n), rest))
    case 4 => (match ReadVar(bs) case Failed => Failed case Got(n, rest) => Got(LastSequence(n), rest))
    case 5 => (match ReadVar(bs)
               case Failed => Failed
               case Got(l, rest) =>
                 match ReadPrefixed(rest) case Failed => Failed case Got(key, rest') => Got(CompactPointer(l, key), rest'))
    case 6 => (match ReadVar(bs)
               case Failed => Failed
               case Got(l, rest) => match ReadVar(rest) case Failed => Failed case Got(n, rest') => Got(DeletedFile(l, n), rest'))
    case 7 => ReadNewFile(bs)
    case 9 => (match ReadVar(bs) case Failed => Failed case Got(n, rest) => Got(PrevLogNumber(n), rest))
    case _ => Failed
  }

  function ReadNewFile(bs: Bytes): (r: Read<Item>)
    ensures r.Got? ==> |r.rest| < |bs|
  {
    match ReadVar(bs)
    case Failed => Failed
    case Got(l, r1) =>
      match ReadVar(r1)
      case Failed => Failed
      case Got(num, r2) =>
        match ReadVar(r2)
        case Failed => Failed
        case Got(size, r3) =>
          match ReadPrefixed(r3)
          case Failed => Failed
          case Got(smallest, r4) =>
            match ReadPrefixed(r4)
            case Failed => Failed
            case Got(largest, r5) => Got(NewFile(l, FileMeta(num, size, smallest, largest, 0)), r5)
  }

  function Apply(ve: VersionEdit, it: Item): VersionEdit {
    match it
    case Comparator(name) => ve.(comparator := Some(name))
    case LogNumber(n) => ve.(logNumber := Some(n))
    case PrevLogNumber(n) => ve.(prevLogNumber := Some(n))
    case NextFileNumber(n) => ve.(nextFileNumber := Some(n))
    case LastSequence(n) => ve.(lastSeq := Some(n))
    case CompactPointer(l, key) => ve.(compactionPtrs := ve.compactionPtrs + [(l, key)])
    case DeletedFile(l, n) => ve.(deleted := ve.deleted + {(l, n)})
    case NewFile(l, f) => ve.(newFiles := ve.newFiles + [(l, f)])
  }

  /** What an edit's bytes add to an edit; None on an error. A tag that cannot be read ends the edit. */
  function Decoded(utf8: Bytes -> bool, bs: Bytes, ve: VersionEdit): Option<VersionEdit>
    decreases |bs|
  {
    match ReadVar(bs)
    case Failed => Some(ve)
    case Got(tag, rest) =>
      match ReadItem(tag, rest)
      case Failed => None
      case Got(it, rest') =>
        if it.Comparator? && !utf8(it.name) then None else Decoded(utf8, rest', Apply(ve, it))
  }

  method DecodeFrom(utf8: Bytes -> bool, src: Bytes) returns (r: Option<VersionEdit>)
    ensures r == Decoded(utf8, src, Empty)
  {
    hide ReadItem;
    hide ReadVar;
    var reader, ve := src, Empty;
    while true
      invariant Decoded(utf8, reader, ve) == Decoded(utf8, src, Empty)
      decreases |reader|
    {
      var t := ReadVar(reader);
      if t.Failed? {
        return Some(ve);
      }
      var item := ReadItem(t.value, t.rest);
      if item.Failed? || (item.value.Comparator? && !utf8(item.value.name)) {
        return None;
      }
      ve := Apply(ve, item.value);
      reader := item.rest;
    }
  }

  // ----- round trip -----

  lemma {:induction false} ReadVarBack(x: nat, rest: Bytes)
    ensures ReadVar(EncodeVar(x) + rest) == Got(x, rest)
  {
    hide EncodeVar;
    hide DecodeVar;
    VarRoundTrip(x, rest);
    assert (EncodeVar(x) + rest)[|EncodeVar(x)|..] == rest;
  }

  lemma {:induction false} ReadPrefixedBack(bs: Bytes, rest: Bytes)
    ensures ReadPrefixed(Prefixed(bs) + rest) == Got(bs, rest)
  {
    hide EncodeVar;
    hide ReadVar;
    ReadVarBack(|bs|, bs + rest);
    assert Prefixed(bs) + rest == EncodeVar(|bs|) + (bs + rest);
    assert (bs + rest)[..|bs|] == bs && (bs + rest)[|bs|..] == rest;
  }

  /** The number of seeks is not stored. */
  function Zeroed(it: Item): Item {
    if it.NewFile? then it.(file := it.file.(allowedSeeks := 0)) else it
  }

  lemma {:induction false} ReadNewFileBack(l: nat, f: FileMeta, rest: Bytes)
    ensures ReadNewFile(Body(NewFile(l, f)) + rest) == Got(Zeroed(NewFile(l, f)), rest)
  {
    hide EncodeVar;
    hide ReadVar;
    hide ReadPrefixed;
    hide Prefixed;
    var a, b, c, s, t := EncodeVar(l), EncodeVar(f.num), EncodeVar(f.size), Prefixed(f.smallest), Prefixed(f.largest);
    var r4 := t + rest;
    var r3 := s + r4;
    var r2 := c + r3;
    var r1 := b + r2;
    assert Body(NewFile(l, f)) + rest == a + r1;
    ReadVarBack(l, r1);
    ReadVarBack(f.num, r2);
    ReadVarBack(f.size, r3);
    ReadPrefixedBack(f.smallest, r4);
    ReadPrefixedBack(f.largest, rest);
  }

  lemma {:induction false} ReadItemBack(it: Item, rest: Bytes)
    ensures ReadItem(Tag(it), Body(it) + rest) == Got(Zeroed(it), rest)
  {
    hide EncodeVar;
    hide ReadVar;
    hide ReadPrefixed;
    hide Prefixed;
    hide ReadNewFile;
    match it {
      case Comparator(name) => ReadPrefixedBack(name, rest);
      case LogNumber(n) => ReadVarBack(n, rest);
      case PrevLogNumber(n) => ReadVarBack(n, rest);
      case NextFileNumber(n) => ReadVarBack(n, rest);
      case LastSequence(n) => ReadVarBack(n, rest);
      case CompactPointer(l, key) =>
        assert Body(it) + rest == EncodeVar(l) + (Prefixed(key) + rest);
        ReadVarBack(l, Prefixed(key) + rest);
        ReadPrefixedBack(key, rest);
      case DeletedFile(l, n) =>
        assert Body(it) + rest == EncodeVar(l) + (EncodeVar(n) + rest);
        ReadVarBack(l, EncodeVar(n) + rest);
        ReadVarBack(n, rest);
      case NewFile(l, f) => ReadNewFileBack(l, f, rest);
    }
  }

  /** Items one after the other. */
  function EncodeItems(items: seq<Item>): Bytes {
    if items == [] then [] else EncodeItems(items[..|items| - 1]) + EncodeItem(items[|items| - 1])
  }

  function ApplyAll(ve: VersionEdit, items: seq<Item>): VersionEdit {
    if items == [] then ve else Apply(ApplyAll(ve, items[..|items| - 1]), Zeroed(items[|items| - 1]))
  }

  ghost predicate Readable(utf8: Bytes -> bool, items: seq<Item>) {
    forall i :: 0 <= i < |items| && items[i].Comparator? ==> utf8(items[i].name)
  }

  /** These bytes are items that make up this edit. */
  ghost predicate Builds(utf8: Bytes -> bool, buf: Bytes, ve: VersionEdit) {
    exists items :: Readable(utf8, items) && EncodeItems(items) == buf && ApplyAll(Empty, items) == ve
  }

  /** An item at the front is read and applied. */
  lemma {:induction false} DecodedItem(utf8: Bytes -> bool, it: Item, rest: Bytes, ve: VersionEdit)
    requires it.Comparator? ==> utf8(it.name)
    ensures Decoded(utf8, EncodeItem(it) + rest, ve) == Decoded(utf8, rest, Apply(ve, Zeroed(it)))
  {
    hide EncodeVar;
    hide ReadVar;
    hide ReadItem;
    hide Body;
    hide Tag;
    hide Apply;
    assert EncodeItem(it) + rest == EncodeVar(Tag(it)) + (Body(it) + rest);
    ReadVarBack(Tag(it), Body(it) + rest);
    ReadItemBack(it, rest);
  }

  /** Items in front of anything are applied first. */
  lemma {:induction false} DecodedItems(utf8: Bytes -> bool, items: seq<Item>, rest: Bytes, ve: VersionEdit)
    requires Readable(utf8, items)
    ensures Decoded(utf8, EncodeItems(items) + rest, ve) == Decoded(utf8, rest, ApplyAll(ve, items))
  {
    hide Decoded;
    hide EncodeItem;
    hide Apply;
    hide Zeroed;
    if items == [] {
      assert [] + rest == rest;
    } else {
      var init, it := items[..|items| - 1], items[|items| - 1];
      DecodedItems(utf8, init, EncodeItem(it) + rest, ve);
      DecodedItem(utf8, it, rest, ApplyAll(ve, init));
      assert EncodeItems(items) + rest == EncodeItems(init) + (EncodeItem(it) + rest);
    }
  }

  lemma {:induction false} BuildsMore(utf8: Bytes -> bool, buf: Bytes, ve: VersionEdit, it: Item)
    requires Builds(utf8, buf, ve) && (it.Comparator? ==> utf8(it.name))
    ensures Builds(utf8, buf + EncodeItem(it), Apply(ve, Zeroed(it)))
  {
    hide EncodeItem;
    hide Apply;
    hide Zeroed;
    var items :| Readable(utf8, items) && EncodeItems(items) == buf && ApplyAll(Empty, items) == ve;
    assert (items + [it])[..|items|] == items;
    assert Readable(utf8, items + [it]);
    assert EncodeItems(items + [it]) == buf + EncodeItem(it);
  }

  function ZeroedFiles(fs: seq<(nat, FileMeta)>): seq<(nat, FileMeta)> {
    seq(|fs|, i requires 0 <= i < |fs| => (fs[i].0, fs[i].1.(allowedSeeks := 0)))
  }

  /** Encoding in any order of the deleted files is undone by decoding, but for the numbers of seeks. */
  method Encode(utf8: Bytes -> bool, e: VersionEdit) returns (buf: Bytes)
    requires e.comparator.Some? ==> utf8(e.comparator.value)
    ensures Builds(utf8, buf, e.(newFiles := ZeroedFiles(e.newFiles)))
    ensures Decoded(utf8, buf, Empty) == Some(e.(newFiles := ZeroedFiles(e.newFiles)))
  {
    hide Decoded;
    hide Builds;
    buf := EncodeCounters(utf8, e);
    buf := EncodePointers(utf8, e, buf);
    buf := EncodeDeleted(utf8, e, buf);
    buf := EncodeNewFiles(utf8, e, buf);
    BuildsDecodes(utf8, buf, e.(newFiles := ZeroedFiles(e.newFiles)));
  }

  method EncodeCounters(utf8: Bytes -> bool, e: VersionEdit) returns (buf: Bytes)
    requires e.comparator.Some? ==> utf8(e.comparator.value)
    ensures Builds(utf8, buf, e.(compactionPtrs := [], deleted := {}, newFiles := []))
  {
    hide EncodeItem;
    hide Builds;
    buf := [];
    ghost var ve := Empty;
    BuildsNothing(utf8);
    if e.comparator.Some? {
      buf, ve := Append(utf8, buf, ve, Comparator(e.comparator.value));
    }
    if e.logNumber.Some? {
      buf, ve := Append(utf8, buf, ve, LogNumber(e.logNumber.value));
    }
    if e.prevLogNumber.Some? {
      buf, ve := Append(utf8, buf, ve, PrevLogNumber(e.prevLogNumber.value));
    }
    if e.nextFileNumber.Some? {
      buf, ve := Append(utf8, buf, ve, NextFileNumber(e.nextFileNumber.value));
    }
    if e.lastSeq.Some? {
      buf, ve := Append(utf8, buf, ve, LastSequence(e.lastSeq.value));
    }
  }

  method EncodePointers(utf8: Bytes -> bool, e: VersionEdit, before: Bytes) returns (buf: Bytes)
    requires Builds(utf8, before, e.(compactionPtrs := [], deleted := {}, newFiles := []))
    ensures Builds(utf8, buf, e.(deleted := {}, newFiles := []))
  {
    hide EncodeItem;
    hide Builds;
    buf := before;
    ghost var ve := e.(compactionPtrs := [], deleted := {}, newFiles := []);
    for i := 0 to |e.compactionPtrs|
      invariant Builds(utf8, buf, ve) && ve == e.(compactionPtrs := e.compactionPtrs[..i], deleted := {}, newFiles := [])
    {
      var (l, key) := e.compactionPtrs[i];
      buf, ve := Append(utf8, buf, ve, CompactPointer(l, key));
    }
    assert e.compactionPtrs[..|e.compactionPtrs|] == e.compactionPtrs;
  }

  method EncodeDeleted(utf8: Bytes -> bool, e: VersionEdit, before: Bytes) returns (buf: Bytes)
    requires Builds(utf8, before, e.(deleted := {}, newFiles := []))
    ensures Builds(utf8, buf, e.(newFiles := []))
  {
    hide EncodeItem;
    hide Builds;
    buf := before;
    ghost var ve := e.(deleted := {}, newFiles := []);
    var todo := e.deleted;
    while todo != {}
      invariant todo <= e.deleted && Builds(utf8, buf, ve) && ve == e.(deleted := e.deleted - todo, newFiles := [])
    {
      var df :| df in todo;
      todo := todo - {df};
      buf, ve := Append(utf8, buf, ve, DeletedFile(df.0, df.1));
    }
    assert e.deleted - todo == e.deleted;
  }

  method EncodeNewFiles(utf8: Bytes -> bool, e: VersionEdit, before: Bytes) returns (buf: Bytes)
    requires Builds(utf8, before, e.(newFiles := []))
    ensures Builds(utf8, buf, e.(newFiles := ZeroedFiles(e.newFiles)))
  {
    hide EncodeItem;
    hide Builds;
    buf := before;
    ghost var ve := e.(newFiles := []);
    for i := 0 to |e.newFiles|
      invariant Builds(utf8, buf, ve) && ve == e.(newFiles := ZeroedFiles(e.newFiles[..i]))
    {
      var (l, f) := e.newFiles[i];
      buf, ve := Append(utf8, buf, ve, NewFile(l, f));
      assert ZeroedFiles(e.newFiles[..i + 1]) == ZeroedFiles(e.newFiles[..i]) + [(l, f.(allowedSeeks := 0))];
    }
    assert e.newFiles[..|e.newFiles|] == e.newFiles;
  }

  lemma {:induction false} BuildsNothing(utf8: Bytes -> bool)
    ensures Builds(utf8, [], Empty)
  {
    assert Readable(utf8, []) && EncodeItems([]) == [];
  }

  lemma {:induction false} BuildsDecodes(utf8: Bytes -> bool, buf: Bytes, ve: VersionEdit)
    requires Builds(utf8, buf, ve)
    ensures Decoded(utf8, buf, Empty) == Some(ve)
  {
    var items :| Readable(utf8, items) && EncodeItems(items) == buf && ApplyAll(Empty, items) == ve;
    DecodedItems(utf8, items, [], Empty);
    assert buf + [] == buf;
    assert Decoded(utf8, [], ve) == Some(ve);
  }

  method Append(utf8: Bytes -> bool, buf: Bytes, ghost ve: VersionEdit, it: Item) returns (buf': Bytes, ghost ve': VersionEdit)
    requires Builds(utf8, buf, ve) && (it.Comparator? ==> utf8(it.name))
    ensures buf' == buf + EncodeItem(it) && Builds(utf8, buf', ve') && ve' == Apply(ve, Zeroed(it))
  {
    hide Decoded;
    buf', ve' := buf + EncodeItem(it), Apply(ve, Zeroed(it));
    BuildsMore(utf8, buf, ve, it);
  }

  // ----- an edit behind a leftover -----

  /** An edit and then another one, read as one. */
  function Combined(a: VersionEdit, b: VersionEdit): VersionEdit {
    VersionEdit(Override(a.comparator, b.comparator), Override(a.logNumber, b.logNumber),
                Override(a.prevLogNumber, b.prevLogNumber), Override(a.nextFileNumber, b.nextFileNumber),
                Override(a.lastSeq, b.lastSeq), a.compactionPtrs + b.compactionPtrs, a.deleted + b.deleted,
                a.newFiles + b.newFiles)
  }

  lemma {:induction false} CombinedItems(a: VersionEdit, items: seq<Item>)
    ensures ApplyAll(a, items) == Combined(a, ApplyAll(Empty, items))
  {
    if items != [] {
      var init, it := items[..|items| - 1], Zeroed(items[|items| - 1]);
      CombinedItems(a, init);
      CombinedOne(a, ApplyAll(Empty, init), it);
    } else {
      assert a.compactionPtrs + [] == a.compactionPtrs && a.deleted + {} == a.deleted && a.newFiles + [] == a.newFiles;
    }
  }

  lemma {:induction false} CombinedOne(a: VersionEdit, b: VersionEdit, it: Item)
    ensures Apply(Combined(a, b), it) == Combined(a, Apply(b, it))
  {
    match it {
      case CompactPointer(l, key) =>
        assert a.compactionPtrs + b.compactionPtrs + [(l, key)] == a.compactionPtrs + (b.compactionPtrs + [(l, key)]);
      case DeletedFile(l, n) =>
        assert a.deleted + b.deleted + {(l, n)} == a.deleted + (b.deleted + {(l, n)});
      case NewFile(l, f) =>
        assert a.newFiles + b.newFiles + [(l, f)] == a.newFiles + (b.newFiles + [(l, f)]);
      case _ =>
    }
  }

  /** What the items of a leftover set is set again. */
  predicate Overridden(a: VersionEdit, b: VersionEdit) {
    && (a.comparator.Some? ==> b.comparator.Some?) && (a.logNumber.Some? ==> b.logNumber.Some?)
    && (a.prevLogNumber.Some? ==> b.prevLogNumber.Some?) && (a.nextFileNumber.Some? ==> b.nextFileNumber.Some?)
    && (a.lastSeq.Some? ==> b.lastSeq.Some?)
    && a.compactionPtrs == [] && a.newFiles == [] && a.deleted <= b.deleted
  }

  /**
   * An edit written behind a leftover of whole items is read as the two combined. That is the edit itself if and only
   * if it sets every counter that the leftover sets and deletes every file that the leftover deletes, and the leftover
   * has neither files nor compaction pointers.
   */
  lemma {:induction false} BehindItems(utf8: Bytes -> bool, left: seq<Item>, buf: Bytes, ve: VersionEdit)
    requires Readable(utf8, left) && Builds(utf8, buf, ve)
    ensures Decoded(utf8, EncodeItems(left) + buf, Empty) == Some(Combined(ApplyAll(Empty, left), ve))
    ensures Decoded(utf8, EncodeItems(left) + buf, Empty) == Some(ve) <==> Overridden(ApplyAll(Empty, left), ve)
  {
    hide Decoded;
    hide EncodeItems;
    hide ApplyAll;
    var a := ApplyAll(Empty, left);
    var items :| Readable(utf8, items) && EncodeItems(items) == buf && ApplyAll(Empty, items) == ve;
    DecodedItems(utf8, left, buf, Empty);
    DecodedItems(utf8, items, [], a);
    assert buf + [] == buf;
    CombinedItems(a, items);
    DecodedEnd(utf8, Combined(a, ve));
    CombinedSame(a, ve);
  }

  lemma {:induction false} DecodedEnd(utf8: Bytes -> bool, ve: VersionEdit)
    ensures Decoded(utf8, [], ve) == Some(ve)
  {
  }

  lemma {:induction false} CombinedSame(a: VersionEdit, b: VersionEdit)
    ensures Combined(a, b) == b <==> Overridden(a, b)
  {
    assert a.compactionPtrs + b.compactionPtrs == b.compactionPtrs <==> a.compactionPtrs == [] by {
      assert |a.compactionPtrs + b.compactionPtrs| == |a.compactionPtrs| + |b.compactionPtrs|;
    }
    assert a.newFiles + b.newFiles == b.newFiles <==> a.newFiles == [] by {
      assert |a.newFiles + b.newFiles| == |a.newFiles| + |b.newFiles|;
    }
    assert a.deleted + b.deleted == b.deleted <==> a.deleted <= b.deleted;
  }

  /**
   * A cut can leave the first byte of an edit that sets the log number; an edit that sets it to one from 10 to 127, read
   * behind that byte, is an error.
   */
  lemma {:induction false} TornEditFails(utf8: Bytes -> bool, cut: nat, logNum: nat, rest: Bytes)
    requires 10 <= logNum < 128
    ensures [2] < EncodeItem(LogNumber(cut))
    ensures Decoded(utf8, [2] + (EncodeItem(LogNumber(logNum)) + rest), Empty) == None
  {
    hide ReadItem;
    hide ReadVar;
    var l := Body(LogNumber(logNum)) + rest;
    assert EncodeVar(2) == [2] && l == EncodeVar(logNum) + rest;
    assert [2] + (EncodeItem(LogNumber(logNum)) + rest) == EncodeVar(2) + (EncodeVar(2) + l);
    ReadVarBack(2, EncodeVar(2) + l);
    ReadTag(l);
    ReadVarBack(logNum, rest);
    UnknownTag(logNum, rest);
  }

  /** Read as a log number, a log number's tag is one. */
  lemma {:induction false} ReadTag(l: Bytes)
    ensures ReadItem(2, EncodeVar(2) + l) == Got(LogNumber(2), l)
  {
    hide ReadVar;
    ReadVarBack(2, l);
  }

  lemma {:induction false} UnknownTag(tag: nat, bs: Bytes)
    requires tag >= 10
    ensures ReadItem(tag, bs) == Failed
  {
  }
}
