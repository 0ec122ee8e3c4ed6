/** The least-recently-used list and the cache over it (src/cache.rs). */
module Caches {
  import opened Bytes

  class LRUNode<T> {
    var next: LRUNode?<T>
    var prev: LRUNode?<T>
    const data: T

    constructor (data: T, prev: LRUNode?<T>)
      ensures this.data == data && this.prev == prev && next == null
    {
      this.data, this.prev := data, prev;
      next := null;
    }
  }

  /** The node at a place of the ring: the head before the first and after the last. */
  ghost function Neighbour<T>(nodes: seq<LRUNode<T>>, head: LRUNode<T>, i: int): LRUNode<T> {
    if 0 <= i < |nodes| then nodes[i] else head
  }

  /** The i-th node's links agree with its neighbours; the last node has no next one. */
  ghost predicate NodeOk<T>(nodes: seq<LRUNode<T>>, head: LRUNode<T>, i: nat)
    reads nodes
    requires i < |nodes|
  {
    && nodes[i].prev == Neighbour(nodes, head, i - 1)
    && nodes[i].next == if i + 1 < |nodes| then nodes[i + 1] else null
  }

  ghost predicate Distinct<T>(nodes: seq<LRUNode<T>>) {
    forall i, j :: 0 <= i < j < |nodes| ==> nodes[i] != nodes[j]
  }

  class LRUList<T> {
    const head: LRUNode<T>
    var count: nat
    ghost var nodes: seq<LRUNode<T>>

    ghost predicate Valid()
      reads this, head, nodes
    {
      count == |nodes| && Linked()
    }

    /** Forward and backward links agree; the head's links lead to the first and the last node. */
    ghost predicate Linked()
      reads this, head, nodes
    {
      && head !in nodes && Distinct(nodes)
      && (forall i :: 0 <= i < |nodes| ==> NodeOk(nodes, head, i))
      && head.next == (if nodes == [] then null else nodes[0])
      && (nodes != [] ==> head.prev == nodes[|nodes| - 1])
    }

    constructor (filler: T)
      ensures Valid() && fresh(head) && nodes == []
    {
      var h := new LRUNode(filler, null);
      head, count, nodes := h, 0, [];
    }

    /** A new node in front. */
    method Insert(elem: T) returns (n: LRUNode<T>)
      requires Valid()
      modifies this, head, nodes
      ensures Valid() && fresh(n) && n.data == elem && nodes == [n] + old(nodes)
    {
      count := count + 1;
      ghost var was := nodes;
      n := new LRUNode(elem, head);
      if head.next != null {
        assert NodeOk(nodes, head, 0);
        head.next.prev := n;
        n.next := head.next;
        head.next := n;
      } else {
        head.prev := n;
        head.next := n;
      }
      nodes := [n] + was;
      forall i | 0 <= i < |nodes| ensures NodeOk(nodes, head, i) {
        if i > 0 {
          assert nodes[i] == was[i - 1];
          assert old(NodeOk(nodes, head, i - 1));
        }
      }
    }

    /** The last node is taken out. */
    method RemoveLast() returns (r: Option<T>)
      requires Valid()
      modifies this, head, nodes
      ensures Valid()
      ensures old(nodes) == [] ==> r == None && nodes == []
      ensures old(nodes) != [] ==> r == Some(old(nodes)[|old(nodes)| - 1].data) && nodes == old(nodes)[..|old(nodes)| - 1]
    {
      if count == 0 {
        return None;
      }
      ghost var was, k := nodes, |nodes| - 1;
      assert NodeOk(nodes, head, k);
      assert k > 0 ==> NodeOk(nodes, head, k - 1);
      var last := head.prev;
      var before := last.prev;
      before.next := null;
      head.prev := before;
      count := count - 1;
      nodes := nodes[..k];
      forall i | 0 <= i < |nodes| ensures NodeOk(nodes, head, i) {
        assert old(NodeOk(nodes, head, i));
      }
      return Some(last.data);
    }

    /** A node is moved to the front. */
    method ReinsertFront(n: LRUNode<T>, ghost k: nat)
      requires Valid() && k < |nodes| && nodes[k] == n
      modifies this, head, nodes
      ensures Valid() && nodes == [n] + (old(nodes)[..k] + old(nodes)[k + 1..])
    {
      hide Distinct;
      Detach(n, k);
      ghost var rest := nodes;
      FrontDistinct(n, rest);
      label detached:
      n.next, head.next := head.next, n.next;
      if n.next != null {
        assert NodeOk(nodes, head, 0);
        n.prev := n.next.prev;
        n.next.prev := n;
      } else {
        head.prev := n;
      }
      nodes := [n] + rest;
      forall i | 0 <= i < |nodes| ensures NodeOk(nodes, head, i) {
        if i > 0 {
          assert nodes[i] == rest[i - 1];
          assert old@detached(NodeOk(nodes, head, i - 1));
        }
      }
    }

    /** The first half of a move: the node's neighbours are linked to each other, the node to itself. */
    method Detach(n: LRUNode<T>, ghost k: nat)
      requires Linked() && k < |nodes| && nodes[k] == n
      modifies this`nodes, head, nodes
      ensures Linked() && nodes == old(nodes)[..k] + old(nodes)[k + 1..]
      ensures n.next == n && n !in nodes && n != head && (nodes == [] ==> n.prev == head)
    {
      hide Distinct;
      ghost var was, last := nodes, |nodes| - 1;
      OnlyOne(nodes, k);
      OnlyOne(nodes, if k > 0 then k - 1 else 0);
      OnlyOne(nodes, if k < last then k + 1 else 0);
      NodesApart(nodes, head, k);
      var prevp := n.prev;
      if n.next != null {
        n.next.prev := prevp;
      } else {
        head.prev := prevp;
      }
      prevp.next, n.next := n.next, prevp.next;
      nodes := Without(was, k);
      WithoutDistinct(was, k);
      forall i | 0 <= i < |nodes| ensures NodeOk(nodes, head, i) {
        var o := if i < k then i else i + 1;
        assert nodes[i] == was[o] && was[o] != n;
        assert old(NodeOk(nodes, head, o));
        assert was[o].prev == if o == k + 1 then prevp else old(was[o].prev);
        assert was[o].next == if o + 1 == k then old(n.next) else old(was[o].next);
      }
    }
  }

  ghost function Without<T>(nodes: seq<LRUNode<T>>, k: nat): seq<LRUNode<T>>
    requires k < |nodes|
  {
    nodes[..k] + nodes[k + 1..]
  }

  lemma {:induction false} WithoutDistinct<T>(nodes: seq<LRUNode<T>>, k: nat)
    requires Distinct(nodes) && k < |nodes|
    ensures Distinct(Without(nodes, k)) && forall x :: x in Without(nodes, k) ==> x in nodes && x != nodes[k]
  {
    OnlyOne(nodes, k);
  }

  lemma {:induction false} FrontDistinct<T>(n: LRUNode<T>, nodes: seq<LRUNode<T>>)
    requires Distinct(nodes) && n !in nodes
    ensures Distinct([n] + nodes)
    ensures nodes != [] ==> forall i :: 0 < i < |nodes| ==> nodes[i] != nodes[0]
  {
  }

  lemma {:induction false} OnlyOne<T>(nodes: seq<LRUNode<T>>, k: nat)
    requires Distinct(nodes) && k < |nodes|
    ensures forall j :: 0 <= j < |nodes| && j != k ==> nodes[j] != nodes[k]
  {
    forall j | 0 <= j < |nodes| && j != k ensures nodes[j] != nodes[k] {
      assert j < k || k < j;
    }
  }

  /** What lies around a node. */
  lemma {:induction false} NodesApart<T>(nodes: seq<LRUNode<T>>, head: LRUNode<T>, k: nat)
    requires Distinct(nodes) && k < |nodes| && head !in nodes
    requires forall i :: 0 <= i < |nodes| ==> NodeOk(nodes, head, i)
    ensures nodes[k].prev == Neighbour(nodes, head, k - 1)
    ensures nodes[k].next == if k + 1 < |nodes| then nodes[k + 1] else null
    ensures nodes[0].prev == head
    ensures k > 0 ==> nodes[k - 1].next == nodes[k]
  {
    assert NodeOk(nodes, head, k) && NodeOk(nodes, head, 0);
    assert k > 0 ==> NodeOk(nodes, head, k - 1);
  }

  // ----- the cache -----

  /** The keys of the nodes, most recently used first. */
  ghost function Order(nodes: seq<LRUNode<Bytes>>): seq<Bytes> {
    seq(|nodes|, i requires 0 <= i < |nodes| => nodes[i].data)
  }

  /** Stamps fall along the list. */
  ghost predicate Recent(order: seq<Bytes>, stamps: map<Bytes, nat>, clock: nat) {
    && (forall i :: 0 <= i < |order| ==> order[i] in stamps && stamps[order[i]] < clock)
    && (forall i, j :: 0 <= i < j < |order| ==> stamps[order[i]] > stamps[order[j]])
  }

  /** List and map hold the same keys, each key's handle is its node, and the list is ordered by last use. */
  ghost predicate Consistent<V>(nodes: seq<LRUNode<Bytes>>, entries: map<Bytes, (V, LRUNode<Bytes>)>, stamps: map<Bytes, nat>, clock: nat) {
    && (forall k :: k in entries ==> k in Order(nodes))
    && (forall i :: 0 <= i < |nodes| ==> HasHandle(entries, nodes[i]))
    && Recent(Order(nodes), stamps, clock)
  }

  ghost predicate HasHandle<V>(entries: map<Bytes, (V, LRUNode<Bytes>)>, n: LRUNode<Bytes>) {
    n.data in entries && entries[n.data].1 == n
  }

  ghost predicate Handled<V>(nodes: seq<LRUNode<Bytes>>, entries: map<Bytes, (V, LRUNode<Bytes>)>) {
    forall k :: k in entries ==> entries[k].1 in nodes && entries[k].1.data == k
  }

  lemma {:induction false} InsertConsistent<V>(nodes: seq<LRUNode<Bytes>>, entries: map<Bytes, (V, LRUNode<Bytes>)>,
                                               stamps: map<Bytes, nat>, clock: nat, n: LRUNode<Bytes>, v: V)
    requires Consistent(nodes, entries, stamps, clock) && n.data !in entries
    ensures Consistent([n] + nodes, entries[n.data := (v, n)], stamps[n.data := clock], clock + 1)
  {
    var nodes', entries' := [n] + nodes, entries[n.data := (v, n)];
    assert Order(nodes') == [n.data] + Order(nodes);
    forall i | 0 <= i < |nodes'| ensures HasHandle(entries', nodes'[i]) {
      assert i > 0 ==> HasHandle(entries, nodes[i - 1]);
    }
    forall k | k in Order(nodes) ensures k in entries {
      var i :| 0 <= i < |nodes| && Order(nodes)[i] == k;
      assert HasHandle(entries, nodes[i]);
    }
    hide Order;
    assert forall k :: k in entries' ==> k == n.data || k in Order(nodes);
  }

  /** With a node for a key in front, list and map agree exactly if the key was absent. */
  lemma {:induction false} ConsistentIff<V>(nodes: seq<LRUNode<Bytes>>, entries: map<Bytes, (V, LRUNode<Bytes>)>,
                                            stamps: map<Bytes, nat>, clock: nat, n: LRUNode<Bytes>, v: V)
    requires n !in nodes
    ensures Consistent(nodes, entries, stamps, clock) ==>
              (Consistent([n] + nodes, entries[n.data := (v, n)], stamps[n.data := clock], clock + 1) <==> n.data !in entries)
  {
    hide Consistent;
    if Consistent(nodes, entries, stamps, clock) {
      if n.data in entries {
        var i := PlaceOf(nodes, entries, stamps, clock, n.data);
        StaleHandle(nodes, entries, stamps[n.data := clock], clock + 1, n, v, i);
      } else {
        InsertConsistent(nodes, entries, stamps, clock, n, v);
      }
    }
  }

  lemma {:induction false} StaleHandle<V>(nodes: seq<LRUNode<Bytes>>, entries: map<Bytes, (V, LRUNode<Bytes>)>,
                                          stamps: map<Bytes, nat>, clock: nat, n: LRUNode<Bytes>, v: V, i: nat)
    requires n !in nodes && i < |nodes| && nodes[i].data == n.data
    ensures !Consistent([n] + nodes, entries[n.data := (v, n)], stamps, clock)
  {
    assert ([n] + nodes)[i + 1] == nodes[i];
    assert !HasHandle(entries[n.data := (v, n)], nodes[i]);
  }

  lemma {:induction false} EvictConsistent<V>(nodes: seq<LRUNode<Bytes>>, entries: map<Bytes, (V, LRUNode<Bytes>)>,
                                              stamps: map<Bytes, nat>, clock: nat)
    requires Consistent(nodes, entries, stamps, clock) && nodes != []
    ensures var k := nodes[|nodes| - 1].data;
            && k in entries && k in stamps && Consistent(nodes[..|nodes| - 1], entries - {k}, stamps, clock)
            && forall x :: x in entries ==> x in stamps && stamps[k] <= stamps[x]
  {
    hide Recent;
    hide Order;
    var last := |nodes| - 1;
    var k, nodes', order := nodes[last].data, nodes[..last], Order(nodes);
    OrderAt(nodes);
    OrderAt(nodes');
    assert Order(nodes') == order[..last];
    LastOldest(order, stamps, clock);
    assert HasHandle(entries, nodes[last]);
    forall i | 0 <= i < last ensures HasHandle(entries - {k}, nodes'[i]) {
      assert HasHandle(entries, nodes[i]);
      assert order[i] != order[last];
    }
    forall x | x in entries ensures x in stamps && stamps[k] <= stamps[x] && (x != k ==> x in Order(nodes')) {
      var i :| 0 <= i < |nodes| && order[i] == x;
      assert i < last ==> Order(nodes')[i] == x;
    }
  }

  lemma {:induction false} OrderAt(nodes: seq<LRUNode<Bytes>>)
    ensures |Order(nodes)| == |nodes| && forall i :: 0 <= i < |nodes| ==> Order(nodes)[i] == nodes[i].data
  {
  }

  lemma {:induction false} LastOldest(order: seq<Bytes>, stamps: map<Bytes, nat>, clock: nat)
    requires Recent(order, stamps, clock) && order != []
    ensures Recent(order[..|order| - 1], stamps, clock)
    ensures forall i :: 0 <= i < |order| ==> order[i] in stamps && stamps[order[|order| - 1]] <= stamps[order[i]]
    ensures forall i :: 0 <= i < |order| - 1 ==> order[i] != order[|order| - 1]
  {
    forall i | 0 <= i < |order| - 1 ensures stamps[order[|order| - 1]] < stamps[order[i]] {
    }
  }

  lemma {:induction false} MoveConsistent<V>(nodes: seq<LRUNode<Bytes>>, entries: map<Bytes, (V, LRUNode<Bytes>)>,
                                             stamps: map<Bytes, nat>, clock: nat, i: nat)
    requires Consistent(nodes, entries, stamps, clock) && i < |nodes|
    ensures Consistent([nodes[i]] + (nodes[..i] + nodes[i + 1..]), entries, stamps[nodes[i].data := clock], clock + 1)
    ensures forall x :: x in entries ==> x in stamps && stamps[x] < clock
  {
    hide Recent;
    hide Order;
    var order, nodes' := Order(nodes), [nodes[i]] + (nodes[..i] + nodes[i + 1..]);
    OrderAt(nodes);
    OrderAt(nodes');
    assert Order(nodes') == [order[i]] + (order[..i] + order[i + 1..]);
    forall j | 0 <= j < |nodes'| ensures HasHandle(entries, nodes'[j]) {
      var o := if j == 0 then i else if j <= i then j - 1 else j;
      assert nodes'[j] == nodes[o] && HasHandle(entries, nodes[o]);
    }
    StampsDiffer(order, stamps, clock, i);
    forall x | x in entries ensures x in stamps && stamps[x] < clock && x in Order(nodes') {
      var j :| 0 <= j < |nodes| && order[j] == x;
      assert Order(nodes')[if j == i then 0 else if j < i then j + 1 else j] == x;
    }
    MovedRecent(order, stamps, clock, i);
  }

  lemma {:induction false} StampsDiffer(order: seq<Bytes>, stamps: map<Bytes, nat>, clock: nat, i: nat)
    requires Recent(order, stamps, clock) && i < |order|
    ensures forall j :: 0 <= j < |order| ==> order[j] in stamps && stamps[order[j]] < clock
    ensures forall j :: 0 <= j < |order| && j != i ==> order[j] != order[i]
  {
    forall j | 0 <= j < |order| && j != i ensures order[j] != order[i] {
      assert j < i || i < j;
    }
  }

  lemma {:induction false} MovedRecent(order: seq<Bytes>, stamps: map<Bytes, nat>, clock: nat, i: nat)
    requires Recent(order, stamps, clock) && i < |order| && forall j :: 0 <= j < |order| && j != i ==> order[j] != order[i]
    ensures Recent([order[i]] + (order[..i] + order[i + 1..]), stamps[order[i] := clock], clock + 1)
  {
    var order', stamps' := [order[i]] + (order[..i] + order[i + 1..]), stamps[order[i] := clock];
    forall a | 0 <= a < |order'| ensures order'[a] in stamps' && stamps'[order'[a]] < clock + 1 && (a > 0 ==> stamps'[order'[a]] < clock) {
      assert order'[a] == order[if a == 0 then i else if a <= i then a - 1 else a];
    }
    forall a, b | 0 <= a < b < |order'| ensures stamps'[order'[a]] > stamps'[order'[b]] {
      if a > 0 {
        var x, y := if a <= i then a - 1 else a, if b <= i then b - 1 else b;
        assert order'[a] == order[x] && order'[b] == order[y] && x < y;
      }
    }
  }

  class Cache<V> {
    const list: LRUList<Bytes>
    const cap: nat
    var entries: map<Bytes, (V, LRUNode<Bytes>)>
    /** When each key was last inserted or read. */
    ghost var stamps: map<Bytes, nat>
    ghost var clock: nat

    ghost function Repr(): set<object>
      reads this, list
    {
      {this, list, list.head} + set x | x in list.nodes
    }

    /** The keys in the list, most recently used first. */
    ghost function Keys(): seq<Bytes>
      reads this, list
    {
      Order(list.nodes)
    }

    /** Every key's handle is a node of the list with that key, though a node may be no key's handle. */
    ghost predicate Usable()
      reads this, list, list.head, list.nodes
    {
      list.Valid() && 0 < cap && |list.nodes| <= cap && Handled(list.nodes, entries)
    }

    ghost predicate Valid()
      reads this, list, list.head, list.nodes
    {
      Usable() && Consistent(list.nodes, entries, stamps, clock)
    }

    constructor (cap: nat, filler: Bytes)
      requires cap > 0
      ensures Valid() && fresh(Repr()) && entries == map[] && this.cap == cap
    {
      list := new LRUList(filler);
      this.cap, entries := cap, map[];
      stamps, clock := map[], 0;
    }

    /**
     * Adds a key in front; if the cache is full, the last key of the list goes. False, where the source panics, if the
     * map does not have that key. In a cache whose list and map agree this does not happen and the key that goes is the
     * one used least recently; they still agree afterwards exactly if the added key was absent or went itself.
     */
    method Insert(key: Bytes, elem: V) returns (evicted: Option<Bytes>, ok: bool)
      requires Usable()
      modifies Repr()
      ensures Usable() && fresh(Repr() - old(Repr()))
      ensures evicted == if |old(Keys())| == cap then Some(old(Keys())[cap - 1]) else None
      ensures ok <==> (evicted.Some? ==> evicted.value in old(entries))
      ensures Keys() == (if ok then [key] else []) + (if evicted.Some? then old(Keys())[..cap - 1] else old(Keys()))
      ensures entries.Keys == old(entries).Keys - (if evicted.Some? then {evicted.value} else {}) + (if ok then {key} else {})
      ensures ok ==> entries[key].0 == elem
      ensures forall k :: k in entries && (ok ==> k != key) ==> k in old(entries) && entries[k].0 == old(entries)[k].0
      ensures old(Valid()) ==> ok && (evicted.Some? ==> Oldest(old(entries).Keys, old(stamps), evicted.value))
      ensures old(Valid()) ==> (Valid() <==> key !in old(entries) || evicted == Some(key))
    {
      hide Consistent;
      hide Oldest;
      hide LRUList.Linked;
      evicted, ok := None, true;
      if list.count >= cap {
        evicted, ok := Evict();
        if !ok {
          return;
        }
      }
      PutInFront(key, elem);
    }

    /** A new node for the key, which becomes the key's handle. */
    method PutInFront(key: Bytes, elem: V)
      requires Usable() && |list.nodes| < cap
      modifies Repr()
      ensures Usable() && fresh(Repr() - old(Repr()))
      ensures Keys() == [key] + old(Keys())
      ensures entries.Keys == old(entries).Keys + {key} && entries[key].0 == elem
      ensures forall k :: k in entries && k != key ==> k in old(entries) && entries[k].0 == old(entries)[k].0
      ensures old(Valid()) ==> (Valid() <==> key !in old(entries))
    {
      hide Consistent;
      hide LRUList.Linked;
      ghost var was := list.nodes;
      var handle := list.Insert(key);
      assert entries == old(entries) && stamps == old(stamps) && clock == old(clock);
      ConsistentIff(was, entries, stamps, clock, handle, elem);
      assert Order([handle] + was) == [key] + Order(was);
      entries := entries[key := (elem, handle)];
      stamps, clock := stamps[key := clock], clock + 1;
    }

    /** Takes the last key out of the list and the map; false if the map does not have it. */
    method Evict() returns (evicted: Option<Bytes>, ok: bool)
      requires Usable() && list.nodes != []
      modifies Repr()
      ensures Usable() && Repr() <= old(Repr()) && stamps == old(stamps) && clock == old(clock)
      ensures evicted == Some(old(Keys())[|old(Keys())| - 1]) && Keys() == old(Keys())[..|old(Keys())| - 1]
      ensures ok <==> evicted.value in old(entries)
      ensures entries == old(entries) - {evicted.value}
      ensures old(Valid()) ==> Valid() && ok && Oldest(old(entries).Keys, old(stamps), evicted.value)
    {
      hide Consistent;
      hide LRUList.Linked;
      if Consistent(list.nodes, entries, stamps, clock) {
        EvictConsistent(list.nodes, entries, stamps, clock);
      }
      ghost var was := list.nodes;
      evicted := list.RemoveLast();
      assert Order(was[..|was| - 1]) == Order(was)[..|was| - 1];
      ok := evicted.value in entries;
      entries := entries - {evicted.value};
    }

    /**
     * Reads a key and moves its node to the front. In a cache whose list and map agree, the key becomes the most recent
     * one.
     */
    method Get(key: Bytes) returns (r: Option<V>)
      requires Usable()
      modifies Repr()
      ensures Usable() && Repr() == old(Repr()) && entries == old(entries)
      ensures r == if key in entries then Some(entries[key].0) else None
      ensures key !in entries ==> Keys() == old(Keys()) && stamps == old(stamps)
      ensures key in entries ==> exists i :: 0 <= i < |old(list.nodes)| && old(list.nodes)[i] == entries[key].1
                                             && Keys() == [key] + (old(Keys())[..i] + old(Keys())[i + 1..])
      ensures old(Valid()) ==> Valid()
      ensures old(Valid()) && key in entries ==>
                stamps == old(stamps)[key := old(clock)] && forall k :: k in entries ==> k in stamps && stamps[k] <= stamps[key]
    {
      hide Consistent;
      hide LRUList.Linked;
      if key !in entries {
        return None;
      }
      ghost var was := list.nodes;
      ghost var i := HandlePlace(was, entries, key);
      if Consistent(was, entries, stamps, clock) {
        MoveConsistent(was, entries, stamps, clock, i);
      }
      MovedMembers(was, i);
      assert Order([was[i]] + (was[..i] + was[i + 1..])) == [key] + (Order(was)[..i] + Order(was)[i + 1..]);
      list.ReinsertFront(entries[key].1, i);
      stamps, clock := stamps[key := clock], clock + 1;
      return Some(entries[key].0);
    }
  }

  lemma {:induction false} HandlePlace<V>(nodes: seq<LRUNode<Bytes>>, entries: map<Bytes, (V, LRUNode<Bytes>)>, key: Bytes) returns (i: nat)
    requires Handled(nodes, entries) && key in entries
    ensures i < |nodes| && nodes[i].data == key && entries[key].1 == nodes[i]
  {
    i :| 0 <= i < |nodes| && nodes[i] == entries[key].1;
  }

  lemma {:induction false} MovedMembers(nodes: seq<LRUNode<Bytes>>, i: nat)
    requires i < |nodes|
    ensures forall x :: x in nodes <==> x in [nodes[i]] + (nodes[..i] + nodes[i + 1..])
  {
    assert nodes == nodes[..i] + [nodes[i]] + nodes[i + 1..];
  }

  /** No key was used less recently. */
  ghost predicate Oldest(keys: set<Bytes>, stamps: map<Bytes, nat>, k: Bytes) {
    k in stamps && forall x :: x in keys ==> x in stamps && stamps[k] <= stamps[x]
  }

  lemma {:induction false} PlaceOf<V>(nodes: seq<LRUNode<Bytes>>, entries: map<Bytes, (V, LRUNode<Bytes>)>,
                                      stamps: map<Bytes, nat>, clock: nat, key: Bytes) returns (i: nat)
    requires Consistent(nodes, entries, stamps, clock) && key in entries
    ensures i < |nodes| && nodes[i].data == key && entries[key].1 == nodes[i]
  {
    i :| 0 <= i < |nodes| && Order(nodes)[i] == key;
    assert HasHandle(entries, nodes[i]);
  }

  lemma {:induction false} FreshCache<V>(cache: Cache<V>)
    requires cache.Valid() && cache.entries == map[]
    ensures cache.Usable() && cache.Keys() == []
  {
    hide Recent;
    assert forall i :: 0 <= i < |cache.list.nodes| ==> HasHandle(cache.entries, cache.list.nodes[i]);
  }

  /** A key is inserted twice in a cache for two, then two more: the last insertion panics. */
  method StaleKeyPanics<V>(filler: Bytes, a: Bytes, b: Bytes, c: Bytes, v: V) returns (ok: bool)
    requires a != b && a != c && b != c
    ensures !ok
  {
    hide Cache.Valid;
    hide Cache.Keys;
    hide Oldest;
    var cache := new Cache<V>(2, filler);
    assert cache.Usable() && cache.Keys() == [] by { FreshCache(cache); }
    hide Cache.Usable;
    var _, _ := cache.Insert(a, v);
    var _, _ := cache.Insert(a, v);
    var _, _ := cache.Insert(b, v);
    var _, last := cache.Insert(c, v);
    return last;
  }
}
