/** Internal keys, entries and the meaning of a read (src/key_types.rs, src/types.rs). */
module Entries {
  import opened Bytes

  const MAX_SEQUENCE_NUMBER: nat := 0xff_ffff_ffff_ffff

  datatype ValueType = TypeDeletion | TypeValue

  datatype InternalKey = InternalKey(ukey: Bytes, seqno: nat, typ: ValueType)

  datatype Entry = Entry(key: InternalKey, val: Bytes)

  /** User keys ascend; versions of one user key descend by sequence number. The type is not compared. */
  predicate KeyLess(a: InternalKey, b: InternalKey) {
    Lt(a.ukey, b.ukey) || (a.ukey == b.ukey && a.seqno > b.seqno)
  }

  ghost predicate Sorted(es: seq<Entry>) {
    forall i, j :: 0 <= i < j < |es| ==> KeyLess(es[i].key, es[j].key)
  }

  lemma {:induction false} KeyOrder()
    ensures forall a, b :: KeyLess(a, b) || KeyLess(b, a) || (a.ukey == b.ukey && a.seqno == b.seqno)
    ensures forall a, b :: !(KeyLess(a, b) && KeyLess(b, a))
    ensures forall a, b, c {:trigger KeyLess(a, b), KeyLess(b, c)} :: KeyLess(a, b) && KeyLess(b, c) ==> KeyLess(a, c)
  {
    hide Lt;
    LtOrder();
  }

  function EntrySet(es: seq<Entry>): set<Entry> {
    set e | e in es
  }

  // ----- reads -----

  /** No two entries share user key and sequence number. */
  ghost predicate Distinct(S: set<Entry>) {
    forall e, f :: e in S && f in S && e.key.ukey == f.key.ukey && e.key.seqno == f.key.seqno ==> e == f
  }

  lemma {:induction false} SortedDistinct(all: seq<Entry>)
    requires Sorted(all)
    ensures Distinct(EntrySet(all))
  {
    forall e, f | e in EntrySet(all) && f in EntrySet(all) && e.key.ukey == f.key.ukey && e.key.seqno == f.key.seqno
      ensures e == f
    {
      var i :| 0 <= i < |all| && all[i] == e;
      var j :| 0 <= j < |all| && all[j] == f;
      LtOrder();
      hide Lt;
    }
  }

  ghost predicate Visible(S: set<Entry>, u: Bytes, s: nat, e: Entry) {
    e in S && e.key.ukey == u && e.key.seqno <= s
  }

  ghost predicate IsNewest(S: set<Entry>, u: Bytes, s: nat, e: Entry) {
    Visible(S, u, s, e) && forall f :: Visible(S, u, s, f) ==> f.key.seqno <= e.key.seqno
  }

  /** What an entry means to a reader. */
  function Meaning(e: Entry): Option<Bytes> {
    if e.key.typ.TypeValue? then Some(e.val) else None
  }

  /** What a reader at snapshot s sees for user key u when the store holds the entries S. */
  ghost function ReadAt(S: set<Entry>, u: Bytes, s: nat): Option<Bytes> {
    if exists e :: IsNewest(S, u, s, e) then
      var e :| IsNewest(S, u, s, e);
      Meaning(e)
    else None
  }

  lemma {:induction false} NewestExists(S: set<Entry>, u: Bytes, s: nat, e: Entry)
    requires Visible(S, u, s, e)
    ensures exists n :: IsNewest(S, u, s, n)
    decreases S
  {
    if !IsNewest(S, u, s, e) {
      var f :| Visible(S, u, s, f) && f.key.seqno > e.key.seqno;
      var T := S - {e};
      NewestExists(T, u, s, f);
      var n :| IsNewest(T, u, s, n);
      forall g | Visible(S, u, s, g) ensures g.key.seqno <= n.key.seqno {
        assert g != e ==> Visible(T, u, s, g);
        assert Visible(T, u, s, f);
      }
      assert IsNewest(S, u, s, n);
    }
  }

  lemma {:induction false} ReadIs(S: set<Entry>, u: Bytes, s: nat, e: Entry)
    requires Distinct(S) && IsNewest(S, u, s, e)
    ensures ReadAt(S, u, s) == Meaning(e)
  {
    forall n | IsNewest(S, u, s, n) ensures n == e {
      assert Visible(S, u, s, n) && Visible(S, u, s, e);
    }
  }

  lemma {:induction false} ReadNothing(S: set<Entry>, u: Bytes, s: nat)
    requires forall e :: !Visible(S, u, s, e)
    ensures ReadAt(S, u, s) == None
  {
  }

  /** e is hidden from every snapshot at or above smallest by a newer version in S. */
  ghost predicate Shadowed(S: set<Entry>, e: Entry, smallest: nat) {
    exists f :: f in S && f.key.ukey == e.key.ukey && e.key.seqno < f.key.seqno <= smallest
  }

  /** A tombstone that every live snapshot sees. */
  predicate OldTombstone(e: Entry, smallest: nat) {
    e.key.typ.TypeDeletion? && e.key.seqno <= smallest
  }

  /**
   * Replacing I by K next to R keeps every read at or above smallest, if K drops from I exactly the shadowed
   * entries and some old tombstones below which R holds nothing.
   */
  lemma {:induction false} DropPreservesReads(I: set<Entry>, K: set<Entry>, R: set<Entry>, smallest: nat, u: Bytes, s: nat)
    requires Distinct(I + R) && K <= I && smallest <= s
    requires forall e :: e in K ==> !Shadowed(I, e, smallest)
    requires forall e :: e in I && e !in K && !Shadowed(I, e, smallest) ==>
               OldTombstone(e, smallest) && forall f :: f in R && f.key.ukey == e.key.ukey ==> f.key.seqno >= e.key.seqno
    ensures ReadAt(K + R, u, s) == ReadAt(I + R, u, s)
  {
    var A, B := I + R, K + R;
    if n :| IsNewest(A, u, s, n) {
      ReadIs(A, u, s, n);
      if n in B {
        assert IsNewest(B, u, s, n) by {
          forall f | Visible(B, u, s, f) ensures Visible(A, u, s, f) {}
        }
        ReadIs(B, u, s, n);
      } else {
        assert forall f :: Visible(B, u, s, f) || Visible(I, u, smallest, f) ==> Visible(A, u, s, f);
        assert !Shadowed(I, n, smallest) by {
          forall f | f in I && f.key.ukey == u && f.key.seqno <= smallest ensures f.key.seqno <= n.key.seqno {
            assert Visible(I, u, smallest, f);
          }
        }
        forall f | f in B ensures !Visible(B, u, s, f) {
          if f.key.ukey == u && f.key.seqno <= s {
            assert !(f.key.seqno < n.key.seqno) by {
              if f in I && f.key.seqno < n.key.seqno { assert Shadowed(I, f, smallest); }
            }
          }
        }
        ReadNothing(B, u, s);
      }
    } else {
      forall e ensures !Visible(B, u, s, e) {
        if Visible(B, u, s, e) {
          assert Visible(A, u, s, e);
          NewestExists(A, u, s, e);
        }
      }
      ReadNothing(B, u, s);
    }
  }
}
