/** The memtable: entries as keys of a skip list (src/memtable.rs). */
module MemTables {
  import opened Bytes
  import opened Entries
  import opened KeyTypes
  import opened SkipMap

  /** An entry of the list's node. */
  ghost predicate Holds(key: Bytes, e: Entry) {
    Taggable(e.key) && key == BuildMemtableKey(e)
  }

  class MemTable {
    const list: InnerSkipMap
    ghost var es: seq<Entry>

    /** The list's keys encode the entries in key order. */
    ghost predicate Valid()
      reads this, list, list.nodes
    {
      && list.Valid() && list.cmp == CmpMemtableKey
      && |list.nodes| == |es| + 1
      && (forall i :: 0 <= i < |es| ==> Holds(list.nodes[i + 1].key, es[i]))
      && Sorted(es)
    }

    ghost function Repr(): set<object>
      reads this, list
    {
      {this, list} + set x | x in list.nodes
    }

    constructor ()
      ensures Valid() && fresh(Repr()) && es == []
    {
      CmpIsOrder();
      list := new InnerSkipMap(CmpMemtableKey);
      es := [];
    }

    method Add(seqno: nat, t: ValueType, key: Bytes, value: Bytes)
      requires Valid() && seqno <= MAX_SEQUENCE_NUMBER
      requires forall e :: e in es && e.key.ukey == key ==> e.key.seqno != seqno
      modifies Repr()
      ensures Valid() && fresh(Repr() - old(Repr()))
      ensures EntrySet(es) == old(EntrySet(es)) + {Entry(InternalKey(key, seqno, t), value)}
    {
      hide BuildMemtableKey;
      hide CmpMemtableKey;
      hide Holds;
      hide Sorted;
      hide Inserted;
      hide PairsOf;
      hide InnerSkipMap.Valid;
      ghost var e := Entry(InternalKey(key, seqno, t), value);
      ghost var was := es;
      NewKey(e);
      PairsHold(list.nodes, es);
      assert list.nodes != [];
      ghost var pairs := PairsOf(list.nodes);
      var ci := list.Insert(BuildMemtableKey(Entry(InternalKey(key, seqno, t), value)), []);
      es := Inserted(was, ci, e);
      InsertedEntries(was, ci, e, pairs, PairsOf(list.nodes));
      NodesHold(list.nodes, es);
      NodesSorted();
    }

    lemma {:induction false} NewKey(e: Entry)
      requires Valid() && e.key.seqno <= MAX_SEQUENCE_NUMBER
      requires forall x :: x in es && x.key.ukey == e.key.ukey ==> x.key.seqno != e.key.seqno
      ensures Taggable(e.key) && BuildMemtableKey(e) != []
      ensures forall k :: 0 < k < |list.nodes| ==> list.cmp(list.nodes[k].key, BuildMemtableKey(e)) != Equal
    {
      hide BuildMemtableKey;
      hide CmpMemtableKey;
      KeyNotEmpty(e);
      forall k | 0 < k < |list.nodes| ensures list.cmp(list.nodes[k].key, BuildMemtableKey(e)) != Equal {
        assert Holds(list.nodes[k].key, es[k - 1]);
        assert es[k - 1] in es;
        CmpEntries(es[k - 1], e);
        KeysDiffer(es[k - 1].key, e.key);
      }
    }

    /** The entries are sorted because the list's keys are. */
    lemma {:induction false} NodesSorted()
      requires list.Valid() && list.cmp == CmpMemtableKey && |list.nodes| == |es| + 1
      requires forall i :: 0 <= i < |es| ==> Holds(list.nodes[i + 1].key, es[i])
      ensures Sorted(es)
    {
      forall i, j | 0 <= i < j < |es| ensures KeyLess(es[i].key, es[j].key) {
        assert Holds(list.nodes[i + 1].key, es[i]) && Holds(list.nodes[j + 1].key, es[j]);
        CmpEntries(es[i], es[j]);
        assert list.cmp(list.nodes[i + 1].key, list.nodes[j + 1].key) == Less;
      }
    }

    /** The newest version at or below the sequence number: a value, a deletion, or nothing. */
    method Get(u: Bytes, s: nat) returns (r: Option<Bytes>, deleted: bool)
      requires Valid() && s <= MAX_SEQUENCE_NUMBER
      ensures r.Some? ==> !deleted && exists e :: IsNewest(EntrySet(es), u, s, e) && e.key.typ.TypeValue? && e.val == r.value
      ensures deleted ==> r.None? && exists e :: IsNewest(EntrySet(es), u, s, e) && e.key.typ.TypeDeletion?
      ensures r.None? && !deleted ==> forall e :: !Visible(EntrySet(es), u, s, e)
    {
      hide BuildMemtableKey;
      hide LookupBytes;
      hide CmpMemtableKey;
      hide ParseTag;
      hide Taggable;
      ghost var k := InternalKey(u, s, TypeValue);
      assert Taggable(k) by { IsTaggable(k); }
      var node, ix := list.GetGreaterOrEqual(LookupBytes(InternalKey(u, s, TypeValue)));
      LookupBound(k, ix);
      if node != null {
        ghost var e := es[ix - 1];
        assert Holds(node.key, e);
        ParseBuilt(e);
        var p := ParseMemtableKey(node.key).value;
        if u == node.key[p.keyOff..p.keyOff + p.keyLen] {
          FoundIsNewest(es, u, s, ix - 1);
          var (typ, _) := ParseTag(p.tag);
          if typ.TypeValue? {
            return Some(node.key[p.valOff..p.valOff + p.valLen]), false;
          } else {
            return None, true;
          }
        }
      }
      NothingVisible(es, u, s, ix - 1);
      return None, false;
    }

    lemma {:induction false} LookupBound(k: InternalKey, ix: nat)
      requires Valid() && Taggable(k) && 0 < ix <= |list.nodes|
      requires forall n :: 0 < n < ix ==> list.cmp(list.nodes[n].key, LookupBytes(k)) == Less
      requires ix < |list.nodes| ==> list.cmp(list.nodes[ix].key, LookupBytes(k)) != Less
      ensures forall i :: 0 <= i < ix - 1 ==> KeyLess(es[i].key, k)
      ensures ix - 1 < |es| ==> !KeyLess(es[ix - 1].key, k)
    {
      hide BuildMemtableKey;
      hide LookupBytes;
      forall i | 0 <= i < |es| && i < ix
        ensures list.cmp(list.nodes[i + 1].key, LookupBytes(k)) == Less <==> KeyLess(es[i].key, k)
      {
        assert Holds(list.nodes[i + 1].key, es[i]);
        CmpLookup(es[i], k);
      }
    }
  }

  lemma {:induction false} PairsHold(nodes: seq<Node>, es: seq<Entry>)
    requires |nodes| == |es| + 1 && forall i :: 0 <= i < |es| ==> Holds(nodes[i + 1].key, es[i])
    ensures |PairsOf(nodes)| == |es| && forall i :: 0 <= i < |es| ==> Holds(PairsOf(nodes)[i].0, es[i])
  {
    hide Holds;
  }

  lemma {:induction false} NodesHold(nodes: seq<Node>, es: seq<Entry>)
    requires nodes != [] && |PairsOf(nodes)| == |es| && forall i :: 0 <= i < |es| ==> Holds(PairsOf(nodes)[i].0, es[i])
    ensures |nodes| == |es| + 1 && forall i :: 0 <= i < |es| ==> Holds(nodes[i + 1].key, es[i])
  {
    hide Holds;
    forall i | 0 <= i < |es| ensures Holds(nodes[i + 1].key, es[i]) {
      assert PairsOf(nodes)[i].0 == nodes[i + 1].key;
    }
  }

  lemma {:induction false} IsTaggable(k: InternalKey)
    requires k.seqno <= MAX_SEQUENCE_NUMBER
    ensures Taggable(k)
  {
  }

  lemma {:induction false} KeyNotEmpty(e: Entry)
    ensures BuildMemtableKey(e) != []
  {
  }

  lemma {:induction false} KeysDiffer(a: InternalKey, b: InternalKey)
    requires a.ukey != b.ukey || a.seqno != b.seqno
    ensures KeyLess(a, b) || KeyLess(b, a)
  {
    LtOrder();
  }

  lemma {:induction false} InsertedEntries(es: seq<Entry>, ci: nat, e: Entry, was: seq<(Bytes, Bytes)>, now: seq<(Bytes, Bytes)>)
    requires ci <= |es| == |was| && now == Inserted(was, ci, (BuildMemtableKey(e), [])) && Taggable(e.key)
    requires forall i :: 0 <= i < |es| ==> Holds(was[i].0, es[i])
    ensures |now| == |es| + 1 == |Inserted(es, ci, e)|
    ensures forall i :: 0 <= i < |now| ==> Holds(now[i].0, Inserted(es, ci, e)[i])
    ensures EntrySet(Inserted(es, ci, e)) == EntrySet(es) + {e}
  {
    hide BuildMemtableKey;
    hide Taggable;
    InsertedAt(es, ci, e);
    InsertedAt(was, ci, (BuildMemtableKey(e), []));
    assert es == es[..ci] + es[ci..];
  }

  /** The first entry not before (u, s) is the newest version of u at or below s. */
  lemma {:induction false} FoundIsNewest(es: seq<Entry>, u: Bytes, s: nat, k: nat)
    requires Sorted(es) && k < |es| && es[k].key.ukey == u
    requires (forall i :: 0 <= i < k ==> KeyLess(es[i].key, InternalKey(u, s, TypeValue))) && !KeyLess(es[k].key, InternalKey(u, s, TypeValue))
    ensures IsNewest(EntrySet(es), u, s, es[k])
  {
    LtOrder();
    hide Lt;
    forall f | Visible(EntrySet(es), u, s, f) ensures f.key.seqno <= es[k].key.seqno {
      var i :| 0 <= i < |es| && es[i] == f;
      assert i >= k;
    }
  }

  lemma {:induction false} NothingVisible(es: seq<Entry>, u: Bytes, s: nat, k: nat)
    requires Sorted(es) && k <= |es| && (k < |es| ==> es[k].key.ukey != u)
    requires forall i :: 0 <= i < k ==> KeyLess(es[i].key, InternalKey(u, s, TypeValue))
    requires k < |es| ==> !KeyLess(es[k].key, InternalKey(u, s, TypeValue))
    ensures forall e :: !Visible(EntrySet(es), u, s, e)
  {
    LtOrder();
    hide Lt;
    forall e ensures !Visible(EntrySet(es), u, s, e) {
      if e in es {
        var i :| 0 <= i < |es| && es[i] == e;
        assert i > k ==> KeyLess(es[k].key, es[i].key);
      }
    }
  }
}
