/** Separators and successors of the default and the internal-key comparator (src/cmp.rs). */
module Comparators {
  import opened Bytes
  import opened Entries

  /** The first difference decides. */
  lemma {:induction false} LtAt(a: Bytes, b: Bytes, d: nat)
    requires d < |a| && d < |b| && a[..d] == b[..d] && a[d] != b[d]
    ensures Lt(a, b) <==> a[d] < b[d]
  {
    if d > 0 {
      assert a[0] == a[..d][0] && b[0] == b[..d][0];
      assert a[1..][..d - 1] == a[..d][1..] && b[1..][..d - 1] == b[..d][1..];
      LtAt(a[1..], b[1..], d - 1);
    }
  }

  lemma {:induction false} LtPrefix(a: Bytes, more: Bytes)
    requires more != []
    ensures Lt(a, a + more)
  {
    if a != [] {
      LtPrefix(a[1..], more);
      assert (a + more)[1..] == a[1..] + more;
    }
  }

  /** Nothing lies between a and a with a zero byte. */
  lemma {:induction false} LtSuccessor(a: Bytes, b: Bytes)
    requires Lt(a, b)
    ensures Lt(a + [0], b) || b == a + [0]
  {
    if a == [] {
      if b[0] == 0 && |b| == 1 {
        assert b == [0];
      } else {
        assert (a + [0])[1..] == [];
      }
    } else {
      assert (a + [0])[1..] == a[1..] + [0];
      if a[0] == b[0] {
        LtSuccessor(a[1..], b[1..]);
        if b[1..] == a[1..] + [0] {
          assert b == [b[0]] + b[1..] == a + [0];
        }
      }
    }
  }

  /** Raising a byte makes a larger string, whatever follows. */
  lemma {:induction false} LtRaised(a: Bytes, k: nat, more: Bytes)
    requires k < |a| && a[k] < 255
    ensures Lt(a, a[..k] + [a[k] + 1] + more)
  {
    var r := a[..k] + [a[k] + 1] + more;
    assert r[..k] == a[..k];
    LtAt(a, r, k);
  }

  /** Where the two strings begin to differ, from a place on. */
  function DiffAt(a: Bytes, b: Bytes, i: nat): (d: nat)
    requires i <= |a| && i <= |b|
    ensures i <= d <= |a| && d <= |b|
    decreases |a| - i
  {
    if i < |a| && i < |b| && a[i] == b[i] then DiffAt(a, b, i + 1) else i
  }

  /** The first place from which the first string can be raised and cut; the end of the shorter one if there is none. */
  function RaisableAt(a: Bytes, b: Bytes, i: nat): (k: nat)
    requires i <= |a| && i <= |b|
    ensures i <= k <= |a| && k <= |b| && (k < |a| && k < |b| ==> a[k] < 255 && a[k] + 1 < b[k])
    decreases |a| - i
  {
    if i == |a| || i == |b| || (a[i] < 255 && a[i] + 1 < b[i]) then i else RaisableAt(a, b, i + 1)
  }

  /** The last byte up to a place that is not the highest; the first one if there is none. */
  function LastBelowMax(a: Bytes, i: nat): (k: nat)
    requires i < |a|
    ensures k <= i
  {
    if i > 0 && a[i] == 255 then LastBelowMax(a, i - 1) else i
  }

  /** A string above a and below b, usually short; the first string must not be empty. */
  function ShortestSep(a: Bytes, b: Bytes): Bytes
    requires a == b || a != []
  {
    if a == b then a
    else
      var k := RaisableAt(a, b, DiffAt(a, b, 0));
      if k < |a| && k < |b| then a[..k] + [a[k] + 1]
      else
        var i := LastBelowMax(a, |a| - 1);
        if a[i] < 255 && Lt(a[..i] + [a[i] + 1] + a[i + 1..], b) then a[..i] + [a[i] + 1] + a[i + 1..] else a + [0]
  }

  lemma {:induction false} DiffAtIs(a: Bytes, b: Bytes, i: nat)
    requires i <= |a| && i <= |b| && a[..i] == b[..i]
    ensures var d := DiffAt(a, b, i); a[..d] == b[..d] && (d < |a| && d < |b| ==> a[d] != b[d])
    decreases |a| - i
  {
    if i < |a| && i < |b| && a[i] == b[i] {
      assert a[..i + 1] == a[..i] + [a[i]] && b[..i + 1] == b[..i] + [b[i]];
      DiffAtIs(a, b, i + 1);
    }
  }

  /** The separator is b itself exactly if b is a with a zero byte. */
  lemma {:induction false} ShortestSepIs(a: Bytes, b: Bytes)
    requires Lt(a, b) && a != []
    ensures var sep := ShortestSep(a, b); Lt(a, sep) && (Lt(sep, b) <==> b != a + [0]) && (b == a + [0] ==> sep == b)
  {
    hide Lt;
    hide DiffAt;
    hide RaisableAt;
    hide LastBelowMax;
    LtOrder();
    var d := DiffAt(a, b, 0);
    var k := RaisableAt(a, b, d);
    DiffAtIs(a, b, 0);
    if k < |a| && k < |b| {
      assert a[..k] + [a[k] + 1] == a[..k] + [a[k] + 1] + [];
      LtRaised(a, k, []);
      ShortBelow(a, b, d, k);
    } else {
      UncutSep(a, b, LastBelowMax(a, |a| - 1));
    }
  }

  /** The first string with a byte raised, if that is below the second one, and else with a zero byte. */
  lemma {:induction false} UncutSep(a: Bytes, b: Bytes, i: nat)
    requires Lt(a, b) && i < |a|
    ensures Lt(a, a + [0]) && (Lt(a + [0], b) <==> b != a + [0])
    ensures a[i] < 255 ==> var up := a[..i] + [a[i] + 1] + a[i + 1..]; Lt(a, up) && (Lt(up, b) ==> b != a + [0])
  {
    hide Lt;
    LtOrder();
    if a[i] < 255 {
      var up := a[..i] + [a[i] + 1] + a[i + 1..];
      LtRaised(a, i, a[i + 1..]);
      if Lt(up, b) {
        NotNext(a, up, b);
      }
    }
    LtPrefix(a, [0]);
    LtSuccessor(a, b);
  }

  /** The byte can be raised and still be below the other string's. */
  predicate Raisable(a: Bytes, b: Bytes, k: nat) {
    k < |a| && k < |b| && a[k] < 255 && a[k] + 1 < b[k]
  }

  function Raised(a: Bytes, i: nat): Bytes
    requires i < |a| && a[i] < 255
  {
    a[..i] + [a[i] + 1] + a[i + 1..]
  }

  /** The last byte that is not the highest. */
  ghost predicate IsLastBelowMax(a: Bytes, i: nat) {
    i < |a| && a[i] < 255 && forall j :: i < j < |a| ==> a[j] == 255
  }

  /** If some byte can be raised and stay below b's, the first string is cut behind the first such byte. */
  lemma {:induction false} SepCut(a: Bytes, b: Bytes, k: nat)
    requires Lt(a, b) && Raisable(a, b, k) && forall j :: 0 <= j < k ==> !Raisable(a, b, j)
    ensures ShortestSep(a, b) == a[..k] + [a[k] + 1]
  {
    hide Lt;
    hide DiffAt;
    hide RaisableAt;
    hide LastBelowMax;
    var d := DiffAt(a, b, 0);
    DiffAtIs(a, b, 0);
    RaisableAtIs(a, b, d);
    assert k >= d by {
      assert a[k] != b[k];
    }
    assert k == RaisableAt(a, b, d);
  }

  /**
   * Otherwise it keeps its length, with the last byte below the highest raised, if that is below b, and else it gets a
   * zero byte.
   */
  lemma {:induction false} SepRaised(a: Bytes, b: Bytes)
    requires Lt(a, b) && a != [] && forall j :: 0 <= j < |a| ==> !Raisable(a, b, j)
    ensures (forall j :: 0 <= j < |a| ==> a[j] == 255) ==> ShortestSep(a, b) == a + [0]
    ensures forall i: nat :: IsLastBelowMax(a, i) ==>
                               ShortestSep(a, b) == if Lt(Raised(a, i), b) then Raised(a, i) else a + [0]
  {
    hide Lt;
    hide DiffAt;
    hide RaisableAt;
    hide LastBelowMax;
    var d := DiffAt(a, b, 0);
    RaisableAtIs(a, b, d);
    LastBelowMaxIs(a, |a| - 1);
    assert a != b by { LtOrder(); }
    forall i: nat | IsLastBelowMax(a, i) ensures i == LastBelowMax(a, |a| - 1) {
    }
  }

  lemma {:induction false} RaisableAtIs(a: Bytes, b: Bytes, i: nat)
    requires i <= |a| && i <= |b|
    ensures forall j :: i <= j < RaisableAt(a, b, i) ==> !Raisable(a, b, j)
    ensures var k := RaisableAt(a, b, i); Raisable(a, b, k) || k == |a| || k == |b|
    decreases |a| - i
  {
    if !(i == |a| || i == |b| || Raisable(a, b, i)) {
      RaisableAtIs(a, b, i + 1);
    }
  }

  lemma {:induction false} LastBelowMaxIs(a: Bytes, i: nat)
    requires i < |a|
    ensures forall j :: LastBelowMax(a, i) < j <= i ==> a[j] == 255
    ensures a[LastBelowMax(a, i)] == 255 ==> forall j :: 0 <= j <= i ==> a[j] == 255
  {
    if i > 0 && a[i] == 255 {
      LastBelowMaxIs(a, i - 1);
    }
  }

  method FindShortestSep(a: Bytes, b: Bytes) returns (sep: Bytes)
    requires a == b || (Lt(a, b) && a != [])
    ensures sep == ShortestSep(a, b)
    ensures a != b ==> Lt(a, sep) && (Lt(sep, b) <==> b != a + [0]) && (b == a + [0] ==> sep == b)
  {
    if a == b {
      return a;
    }
    ShortestSepIs(a, b);
    hide Lt;
    hide DiffAt;
    hide RaisableAt;
    hide LastBelowMax;
    var diffAt := FindRaisable(a, b);
    if diffAt < |a| && diffAt < |b| {
      return a[..diffAt] + [a[diffAt] + 1];
    }
    var i := FindBelowMax(a);
    if a[i] < 0xff {
      sep := a[..i] + [a[i] + 1] + a[i + 1..];
      if Lt(sep, b) {
        return;
      }
    }
    sep := a + [0];
  }

  method FindRaisable(a: Bytes, b: Bytes) returns (diffAt: nat)
    ensures diffAt == RaisableAt(a, b, DiffAt(a, b, 0))
  {
    var min := if |a| < |b| then |a| else |b|;
    diffAt := 0;
    while diffAt < min && a[diffAt] == b[diffAt]
      invariant diffAt <= min && DiffAt(a, b, diffAt) == DiffAt(a, b, 0)
    {
      diffAt := diffAt + 1;
    }
    ghost var d := diffAt;
    while diffAt < min && !(a[diffAt] < 0xff && a[diffAt] + 1 < b[diffAt])
      invariant d <= diffAt <= min && RaisableAt(a, b, diffAt) == RaisableAt(a, b, d)
    {
      diffAt := diffAt + 1;
    }
  }

  method FindBelowMax(a: Bytes) returns (i: nat)
    requires a != []
    ensures i == LastBelowMax(a, |a| - 1)
  {
    i := |a| - 1;
    while i > 0 && a[i] == 0xff
      invariant 0 <= i < |a| && LastBelowMax(a, i) == LastBelowMax(a, |a| - 1)
    {
      i := i - 1;
    }
  }

  lemma {:induction false} ShortBelow(a: Bytes, b: Bytes, d: nat, k: nat)
    requires Lt(a, b) && d <= k < |a| && k < |b| && a[..d] == b[..d] && a[d] != b[d] && a[k] < 255 && a[k] + 1 < b[k]
    ensures Lt(a[..k] + [a[k] + 1], b) && b != a + [0]
  {
    LtAt(a, b, d);
    var sep := a[..k] + [a[k] + 1];
    assert sep[..d] == a[..d];
    LtAt(sep, b, d);
  }

  lemma {:induction false} NotNext(a: Bytes, sep: Bytes, b: Bytes)
    requires Lt(a, sep) && Lt(sep, b)
    ensures b != a + [0]
  {
    LtSuccessor(a, sep);
    LtOrder();
  }

  /** The first byte from i on that is not the highest is raised and the rest cut; else a byte is appended. */
  function ShortSucc(a: Bytes, i: nat): Bytes
    requires i <= |a|
    decreases |a| - i
  {
    if i == |a| then a + [255] else if a[i] != 255 then a[..i] + [a[i] + 1] else ShortSucc(a, i + 1)
  }

  lemma {:induction false} ShortSuccIs(a: Bytes, i: nat)
    requires i <= |a|
    ensures Lt(a, ShortSucc(a, i))
    decreases |a| - i
  {
    if i == |a| {
      LtPrefix(a, [255]);
    } else if a[i] != 255 {
      assert a[..i] + [a[i] + 1] == a[..i] + [a[i] + 1] + [];
      LtRaised(a, i, []);
    } else {
      ShortSuccIs(a, i + 1);
    }
  }

  /** The successor is cut behind the first byte below the highest, which is raised. */
  lemma {:induction false} SuccCut(a: Bytes, i: nat, k: nat)
    requires i <= k < |a| && a[k] != 255 && forall j :: i <= j < k ==> a[j] == 255
    ensures ShortSucc(a, i) == a[..k] + [a[k] + 1]
    decreases k - i
  {
    if i < k {
      SuccCut(a, i + 1, k);
    }
  }

  lemma {:induction false} SuccAppended(a: Bytes, i: nat)
    requires i <= |a| && forall j :: i <= j < |a| ==> a[j] == 255
    ensures ShortSucc(a, i) == a + [255]
    decreases |a| - i
  {
    if i < |a| {
      SuccAppended(a, i + 1);
    }
  }

  method FindShortSucc(a: Bytes) returns (r: Bytes)
    ensures r == ShortSucc(a, 0) && Lt(a, r)
  {
    ShortSuccIs(a, 0);
    for i := 0 to |a|
      invariant ShortSucc(a, i) == ShortSucc(a, 0)
    {
      if a[i] != 255 {
        return a[..i] + [a[i] + 1];
      }
    }
    r := a + [255];
  }

  /** The second user key is the first with a zero byte: no user key lies between the two. */
  predicate Adjacent(a: InternalKey, b: InternalKey) {
    b.ukey == a.ukey + [0]
  }

  /**
   * What a separator of a and b must be: not before a, before b, and of a user key of its own unless it is a's
   * position itself.
   */
  ghost predicate Separates(sep: InternalKey, a: InternalKey, b: InternalKey) {
    && !KeyLess(sep, a) && KeyLess(sep, b)
    && ((sep.ukey == a.ukey && sep.seqno == a.seqno) || Lt(sep.ukey, b.ukey))
  }

  /** A separator can be computed: the first user key is not empty, or both are the same. */
  predicate HasSep(a: InternalKey, b: InternalKey) {
    a.ukey != [] || a.ukey == b.ukey
  }

  function InternalSep(a: InternalKey, b: InternalKey): InternalKey
    requires HasSep(a, b)
  {
    var s := ShortestSep(a.ukey, b.ukey);
    InternalKey(s, if |s| < |a.ukey| && Lt(a.ukey, s) then MAX_SEQUENCE_NUMBER else a.seqno, TypeValue)
  }

  /** Separates exactly if the two user keys are not adjacent; never lies before the first key. */
  lemma {:induction false} InternalSepIs(a: InternalKey, b: InternalKey)
    requires KeyLess(a, b) && HasSep(a, b)
    ensures var sep := InternalSep(a, b);
            && !KeyLess(sep, a) && (Separates(sep, a, b) <==> !Adjacent(a, b))
            && (Adjacent(a, b) ==> sep.ukey == b.ukey && sep.seqno == a.seqno)
            && sep.ukey == ShortestSep(a.ukey, b.ukey)
            && sep.seqno == if |sep.ukey| < |a.ukey| then MAX_SEQUENCE_NUMBER else a.seqno
  {
    if a.ukey != b.ukey {
      ShortestSepIs(a.ukey, b.ukey);
    }
    LtOrder();
    hide Lt;
    hide ShortestSep;
  }

  method InternalShortestSep(a: InternalKey, b: InternalKey) returns (sep: InternalKey)
    requires KeyLess(a, b) && HasSep(a, b)
    ensures sep == InternalSep(a, b)
    ensures Separates(sep, a, b) <==> !Adjacent(a, b)
  {
    InternalSepIs(a, b);
    var s := FindShortestSep(a.ukey, b.ukey);
    hide ShortestSep;
    if |s| < |a.ukey| && Lt(a.ukey, s) {
      return InternalKey(s, MAX_SEQUENCE_NUMBER, TypeValue);
    }
    return InternalKey(s, a.seqno, TypeValue);
  }

  function InternalSucc(a: InternalKey): InternalKey {
    InternalKey(ShortSucc(a.ukey, 0), a.seqno, TypeValue)
  }

  lemma {:induction false} InternalSuccIs(a: InternalKey)
    ensures Lt(a.ukey, InternalSucc(a).ukey) && KeyLess(a, InternalSucc(a))
  {
    ShortSuccIs(a.ukey, 0);
  }

  method InternalShortSucc(a: InternalKey) returns (r: InternalKey)
    ensures r == InternalSucc(a) && Lt(a.ukey, r.ukey) && KeyLess(a, r)
  {
    InternalSuccIs(a);
    var s := FindShortSucc(a.ukey);
    return InternalKey(s, a.seqno, TypeValue);
  }
}
