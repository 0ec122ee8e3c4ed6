/** The skip list under the memtable (src/skipmap.rs). */
module SkipMap {
  import opened Bytes

  const MAX_HEIGHT: nat := 12

  datatype Ordering = Less | Equal | Greater

  type Cmp = (Bytes, Bytes) -> Ordering

  /** A total preorder, as a comparator must be. */
  ghost predicate IsOrder(cmp: Cmp) {
    && (forall a, b :: cmp(a, b) == Less <==> cmp(b, a) == Greater)
    && (forall a, b, c {:trigger cmp(a, b), cmp(b, c)} ::
          cmp(a, b) != Greater && cmp(b, c) != Greater && (cmp(a, b) == Less || cmp(b, c) == Less) ==> cmp(a, c) == Less)
  }

  // ----- heights -----

  /** The next node after i that reaches above level l. */
  function NextAt(hs: seq<nat>, i: nat, l: nat): (j: nat)
    requires i < |hs|
    ensures i < j <= |hs| && (j < |hs| ==> hs[j] > l)
    ensures forall k :: i < k < j ==> hs[k] <= l
    decreases |hs| - i
  {
    if i + 1 == |hs| || hs[i + 1] > l then i + 1 else NextAt(hs, i + 1, l)
  }

  lemma {:induction false} NextIs(hs: seq<nat>, i: nat, l: nat, j: nat)
    requires i < j <= |hs| && (j < |hs| ==> hs[j] > l) && forall k :: i < k < j ==> hs[k] <= l
    ensures NextAt(hs, i, l) == j
  {
    var n := NextAt(hs, i, l);
    assert !(n < j) && !(j < n);
  }

  /** The nodes met when following the links of one level. */
  function Walk(hs: seq<nat>, i: nat, l: nat): seq<nat>
    requires i < |hs|
    decreases |hs| - i
  {
    var j := NextAt(hs, i, l);
    if j == |hs| then [] else [j] + Walk(hs, j, l)
  }

  /** A level holds, in order, exactly the nodes that reach above it; so each level is a sublist of the one below. */
  lemma {:induction false} WalkIsLevel(hs: seq<nat>, i: nat, l: nat)
    requires i < |hs|
    ensures forall x :: x in Walk(hs, i, l) <==> i < x < |hs| && hs[x] > l
    ensures forall a, b :: 0 <= a < b < |Walk(hs, i, l)| ==> Walk(hs, i, l)[a] < Walk(hs, i, l)[b]
    decreases |hs| - i
  {
    var j := NextAt(hs, i, l);
    if j < |hs| {
      WalkIsLevel(hs, j, l);
      forall x ensures x in Walk(hs, i, l) <==> i < x < |hs| && hs[x] > l {
        assert x in Walk(hs, i, l) <==> x == j || x in Walk(hs, j, l);
      }
      assert forall b :: 0 <= b < |Walk(hs, j, l)| ==> Walk(hs, j, l)[b] in Walk(hs, j, l);
    }
  }

  function Inserted<T>(s: seq<T>, c: nat, x: T): seq<T>
    requires c <= |s|
  {
    s[..c] + [x] + s[c..]
  }

  /** Where a node stands after an insertion at c. */
  function Shift(c: nat, i: nat): nat {
    if i < c then i else i + 1
  }

  lemma {:induction false} InsertedAt<T>(s: seq<T>, c: nat, x: T)
    requires c <= |s|
    ensures |Inserted(s, c, x)| == |s| + 1 && Inserted(s, c, x)[c] == x
    ensures forall i {:trigger Inserted(s, c, x)[i]} :: 0 <= i < c ==> Inserted(s, c, x)[i] == s[i]
    ensures forall i {:trigger Inserted(s, c, x)[i]} :: c < i <= |s| ==> Inserted(s, c, x)[i] == s[i - 1]
  {
  }

  /** The links after an insertion: past the new node, into it, or from it. */
  lemma {:induction false} NextInserted(hs: seq<nat>, c: nat, h: nat, i: nat, l: nat)
    requires 0 < c <= |hs| && i < |hs|
    ensures var hs' := Inserted<nat>(hs, c, h);
            var j := NextAt(hs, i, l);
            && |hs'| == |hs| + 1
            && NextAt(hs', Shift(c, i), l) == (if i < c <= j && l < h then c else Shift(c, j))
            && (i < c <= j ==> NextAt(hs', c, l) == Shift(c, j))
  {
    hide Inserted;
    hide NextAt;
    var hs', j := Inserted<nat>(hs, c, h), NextAt(hs, i, l);
    InsertedAt<nat>(hs, c, h);
    var i' := Shift(c, i);
    var j' := if i < c <= j && l < h then c else Shift(c, j);
    forall k | i' < k < j' ensures hs'[k] <= l {
      if k != c {
        var k0 := if k < c then k else k - 1;
        assert i < k0 < j && hs'[k] == hs[k0];
      }
    }
    NextIs(hs', i', l, j');
    if i < c <= j {
      var n := Shift(c, j);
      forall k | c < k < n ensures hs'[k] <= l {
        assert i < k - 1 < j && hs'[k] == hs[k - 1];
      }
      NextIs(hs', c, l, n);
    }
  }

  // ----- nodes -----

  class Node {
    var skips: seq<Node?>
    var next: Node?
    const key: Bytes
    const value: Bytes

    constructor (key: Bytes, value: Bytes, height: nat)
      ensures this.key == key && this.value == value && next == null && skips == seq(height, _ => null)
    {
      this.key, this.value := key, value;
      next := null;
      skips := seq(height, _ => null);
    }
  }

  function NodeAt(nodes: seq<Node>, i: nat): Node? {
    if i < |nodes| then nodes[i] else null
  }

  ghost predicate AllDistinct(nodes: seq<Node>) {
    forall i, j :: 0 <= i < j < |nodes| ==> nodes[i] != nodes[j]
  }

  ghost predicate LinkedNode(nodes: seq<Node>, hs: seq<nat>, i: nat)
    reads nodes
    requires i < |nodes| == |hs|
  {
    && |nodes[i].skips| == hs[i]
    && nodes[i].next == NodeAt(nodes, i + 1)
    && forall l :: 0 <= l < hs[i] ==> nodes[i].skips[l] == NodeAt(nodes, NextAt(hs, i, l))
  }

  ghost predicate IsLinked(nodes: seq<Node>, hs: seq<nat>, i: nat)
    reads nodes
  {
    i < |nodes| == |hs| && LinkedNode(nodes, hs, i)
  }

  ghost predicate AllLinked(nodes: seq<Node>, hs: seq<nat>)
    reads nodes
  {
    |nodes| == |hs| && forall i :: 0 <= i < |nodes| ==> LinkedNode(nodes, hs, i)
  }

  ghost predicate Ascending(nodes: seq<Node>, cmp: Cmp) {
    forall i, j :: 0 < i < j < |nodes| ==> cmp(nodes[i].key, nodes[j].key) == Less
  }

  ghost function PairsOf(nodes: seq<Node>): seq<(Bytes, Bytes)>
    requires nodes != []
  {
    seq(|nodes| - 1, i requires 0 <= i < |nodes| - 1 => (nodes[i + 1].key, nodes[i + 1].value))
  }

  class InnerSkipMap {
    const head: Node
    const cmp: Cmp
    var len: nat
    ghost var nodes: seq<Node>
    ghost var heights: seq<nat>

    /** The nodes in key order behind the head; every link leads to the next node that is high enough. */
    ghost predicate Valid()
      reads this, nodes
    {
      && IsOrder(cmp)
      && |nodes| == |heights| == len + 1 && nodes[0] == head && heights[0] == MAX_HEIGHT
      && (forall i :: 0 <= i < |nodes| ==> 1 <= heights[i] <= MAX_HEIGHT)
      && AllLinked(nodes, heights)
      && AllDistinct(nodes)
      && Ascending(nodes, cmp)
      && forall i :: 0 < i < |nodes| ==> nodes[i].key != []
    }

    /** The stored pairs in order. */
    ghost function Contents(): seq<(Bytes, Bytes)>
      reads this
      requires nodes != []
    {
      PairsOf(nodes)
    }

    constructor (cmp: Cmp)
      requires IsOrder(cmp)
      ensures Valid() && fresh(nodes) && Contents() == [] && this.cmp == cmp
    {
      var h := new Node([], [], MAX_HEIGHT);
      head, this.cmp, len := h, cmp, 0;
      nodes, heights := [h], [MAX_HEIGHT];
    }

    /** The lower bound: the first node whose key is not less, if any. */
    method GetGreaterOrEqual(key: Bytes) returns (r: Node?, ghost ix: nat)
      requires Valid()
      ensures 0 < ix <= |nodes| && r == NodeAt(nodes, ix)
      ensures forall k :: 0 < k < ix ==> cmp(nodes[k].key, key) == Less
      ensures ix < |nodes| ==> cmp(nodes[ix].key, key) != Less
    {
      assert LinkedNode(nodes, heights, 0);
      var current := head;
      ghost var ci: nat := 0;
      var level := |head.skips| - 1;
      while true
        invariant ci < |nodes| && current == nodes[ci] && 0 <= level < heights[ci]
        invariant forall k :: 0 < k <= ci ==> cmp(nodes[k].key, key) == Less
        decreases level, |nodes| - ci
      {
        assert LinkedNode(nodes, heights, ci);
        var next := current.skips[level];
        ghost var ni := NextAt(heights, ci, level);
        if next != null {
          var ord := cmp(next.key, key);
          if ord == Less {
            assert forall k :: 0 < k < ni ==> cmp(nodes[k].key, nodes[ni].key) == Less;
            current, ci := next, ni;
            continue;
          } else if ord == Equal {
            assert forall k :: 0 < k < ni ==> cmp(nodes[k].key, nodes[ni].key) == Less;
            return next, ni;
          } else if level == 0 {
            assert ni == ci + 1 by { assert LinkedNode(nodes, heights, ci + 1); }
            return next, ni;
          }
        }
        if level == 0 {
          break;
        }
        level := level - 1;
      }
      assert ci + 1 == |nodes|;
      return null, |nodes|;
    }

    /** The strict predecessor: the last node whose key is less, if any. */
    method GetNextSmaller(key: Bytes) returns (r: Node?, ghost ix: nat)
      requires Valid()
      ensures ix < |nodes| && r == if ix == 0 then null else nodes[ix]
      ensures forall k :: 0 < k <= ix ==> cmp(nodes[k].key, key) == Less
      ensures forall k :: ix < k < |nodes| ==> cmp(nodes[k].key, key) != Less
    {
      assert LinkedNode(nodes, heights, 0);
      var current := head;
      ghost var ci: nat := 0;
      var level := |head.skips| - 1;
      while true
        invariant ci < |nodes| && current == nodes[ci] && 0 <= level < heights[ci]
        invariant forall k :: 0 < k <= ci ==> cmp(nodes[k].key, key) == Less
        decreases level, |nodes| - ci
      {
        assert LinkedNode(nodes, heights, ci);
        var next := current.skips[level];
        ghost var ni := NextAt(heights, ci, level);
        if next != null && cmp(next.key, key) == Less {
          assert forall k :: 0 < k < ni ==> cmp(nodes[k].key, nodes[ni].key) == Less;
          current, ci := next, ni;
          continue;
        }
        if level == 0 {
          assert ni == ci + 1 by {
            if ci + 1 < |nodes| { assert LinkedNode(nodes, heights, ci + 1); }
          }
          assert forall k :: ni < k < |nodes| ==> cmp(nodes[ni].key, nodes[k].key) == Less;
          break;
        }
        level := level - 1;
      }
      r, ix := if current == head then null else current, ci;
    }

    /** The search of an insertion: the last smaller node, and the last smaller node on every level of the new one. */
    method FindPrevs(key: Bytes, newHeight: nat) returns (prevs: seq<Node>, current: Node, ghost ps: seq<nat>, ghost ci: nat)
      requires Valid() && 1 <= newHeight <= MAX_HEIGHT
      requires forall k :: 0 < k < |nodes| ==> cmp(nodes[k].key, key) != Equal
      ensures ci < |nodes| && current == nodes[ci] && |prevs| == newHeight
      ensures PrevsOk(nodes, heights, prevs, ps, 0, ci)
      ensures forall k :: 0 < k <= ci ==> cmp(nodes[k].key, key) == Less
      ensures forall k :: ci < k < |nodes| ==> cmp(nodes[k].key, key) == Greater
    {
      hide Valid;
      hide NextAt;
      hide PrevOk;
      hide NextGreater;
      Shape();
      current, ci := head, 0;
      prevs := seq(newHeight, _ => head);
      ps := seq(newHeight, _ => 0);
      var level := MAX_HEIGHT - 1;
      while true
        invariant ci < |nodes| && current == nodes[ci] && 0 <= level < heights[ci] && |prevs| == newHeight == |ps|
        invariant forall l :: level < l < newHeight ==> PrevOk(nodes, heights, prevs[l], ps[l], l, ci)
        invariant forall k :: 0 < k <= ci ==> cmp(nodes[k].key, key) == Less
        invariant forall l :: level < l < newHeight ==> NextGreater(nodes, heights, ps[l], l, key)
        decreases level, |nodes| - ci
      {
        LinkAt(ci, level);
        var next := current.skips[level];
        ghost var ni := NextAt(heights, ci, level);
        if next != null && cmp(next.key, key) == Less {
          SmallerBefore(ni, key);
          forall l | level < l < newHeight ensures PrevOk(nodes, heights, prevs[l], ps[l], l, ni) {
            PrevStays(prevs[l], ps[l], l, ci, ni, key);
          }
          current, ci := next, ni;
          continue;
        }
        PrevHere(ci, level, key);
        if level < newHeight {
          prevs, ps := prevs[level := current], ps[level := ci];
        }
        if level == 0 {
          break;
        }
        level := level - 1;
      }
      GreaterAfter(ci, key);
    }

    lemma {:induction false} Shape()
      requires Valid()
      ensures |nodes| == |heights| == len + 1 && nodes[0] == head && heights[0] == MAX_HEIGHT
    {
    }

    lemma {:induction false} LinkAt(i: nat, l: nat)
      requires Valid() && i < |nodes| && l < heights[i]
      ensures |nodes[i].skips| == heights[i] && nodes[i].skips[l] == NodeAt(nodes, NextAt(heights, i, l))
      ensures NextAt(heights, i, l) < |heights| ==> l < heights[NextAt(heights, i, l)]
    {
      hide NextAt;
      assert LinkedNode(nodes, heights, i);
    }

    lemma {:induction false} PrevHere(ci: nat, l: nat, key: Bytes)
      requires Valid() && ci < |nodes| && l < heights[ci]
      requires var ni := NextAt(heights, ci, l); ni < |nodes| ==> cmp(nodes[ni].key, key) != Less
      ensures PrevOk(nodes, heights, nodes[ci], ci, l, ci) && NextGreater(nodes, heights, ci, l, key)
    {
      hide NextAt;
    }

    lemma {:induction false} PrevStays(prev: Node, p: nat, l: nat, ci: nat, ni: nat, key: Bytes)
      requires Valid() && PrevOk(nodes, heights, prev, p, l, ci) && NextGreater(nodes, heights, p, l, key)
      requires ci <= ni < |nodes| && forall k :: 0 < k <= ni ==> cmp(nodes[k].key, key) == Less
      ensures PrevOk(nodes, heights, prev, p, l, ni)
    {
      hide NextAt;
    }

    lemma {:induction false} SmallerBefore(ni: nat, key: Bytes)
      requires Valid() && 0 < ni < |nodes| && cmp(nodes[ni].key, key) == Less
      ensures forall k :: 0 < k <= ni ==> cmp(nodes[k].key, key) == Less
    {
      assert forall k :: 0 < k < ni ==> cmp(nodes[k].key, nodes[ni].key) == Less;
    }

    lemma {:induction false} GreaterAfter(ci: nat, key: Bytes)
      requires Valid() && ci < |nodes| && NextGreater(nodes, heights, ci, 0, key)
      requires forall k :: 0 < k < |nodes| ==> cmp(nodes[k].key, key) != Equal
      ensures forall k :: ci < k < |nodes| ==> cmp(nodes[k].key, key) == Greater
    {
      var ni := NextAt(heights, ci, 0);
      assert ni == ci + 1 by { assert ci + 1 < |nodes| ==> LinkedNode(nodes, heights, ci + 1); }
      hide NextAt;
      forall k | ci < k < |nodes| ensures cmp(nodes[k].key, key) == Greater {
        assert k > ni ==> cmp(nodes[ni].key, nodes[k].key) == Less;
      }
    }

    /** The height of a new node; the random source is left open. */
    method RandomHeight() returns (height: nat)
      ensures 1 <= height <= MAX_HEIGHT
    {
      height := 1;
      while height < MAX_HEIGHT
        invariant 1 <= height <= MAX_HEIGHT
      {
        var stop: bool := *;
        if stop {
          break;
        }
        height := height + 1;
      }
    }

    /** Puts a new node into the links of every level that it reaches. */
    method LinkNew(n: Node, prevs: seq<Node>, ghost ps: seq<nat>, ghost skips: seq<seq<Node?>>)
      requires |nodes| == |heights| && AllDistinct(nodes) && n !in nodes && |n.skips| == |prevs|
      requires |skips| == |nodes| && |ps| == |prevs|
      requires forall l :: 0 <= l < |prevs| ==> ps[l] < |nodes| && prevs[l] == nodes[ps[l]] && l < heights[ps[l]]
      requires forall k :: 0 <= k < |nodes| ==> nodes[k].skips == skips[k] && |skips[k]| == heights[k]
      modifies n`skips, nodes`skips
      ensures NewSkips(n.skips, skips, ps)
      ensures forall k :: 0 <= k < |nodes| ==> OldSkips(nodes[k].skips, skips[k], n, ps, k)
    {
      for i := 0 to |prevs|
        invariant |n.skips| == |prevs| && forall l :: 0 <= l < i ==> n.skips[l] == skips[ps[l]][l]
        invariant forall k :: 0 <= k < |nodes| ==> |nodes[k].skips| == heights[k]
        invariant forall k, l :: 0 <= k < |nodes| && 0 <= l < heights[k] ==>
                    nodes[k].skips[l] == if l < i && ps[l] == k then n else skips[k][l]
      {
        var prev := prevs[i];
        ghost var p := ps[i];
        OnlyOne(nodes, p);
        n.skips := n.skips[i := prev.skips[i]];
        prev.skips := prev.skips[i := n];
      }
      forall k | 0 <= k < |nodes| ensures OldSkips(nodes[k].skips, skips[k], n, ps, k) {
        assert forall l :: 0 <= l < heights[k] ==>
            nodes[k].skips[l] == if l < |prevs| && ps[l] == k then n else skips[k][l];
      }
    }

    /** Links a new node behind the current one on all its levels and in the chain of next nodes. */
    method Attach(n: Node, current: Node, prevs: seq<Node>, ghost ps: seq<nat>, ghost c: nat)
      requires c < |nodes| == |heights| && current == nodes[c] && AllDistinct(nodes) && n !in nodes
      requires |n.skips| == |prevs| && PrevsOk(nodes, heights, prevs, ps, 0, c)
      requires AllLinked(nodes, heights)
      modifies n, nodes
      ensures AllLinked(Inserted(nodes, c + 1, n), Inserted<nat>(heights, c + 1, |prevs|))
    {
      hide NextAt;
      hide Inserted;
      hide LinkedNode;
      hide AllDistinct;
      hide SkipsOf;
      hide SkipsFit;
      hide OldSkips;
      hide NewSkips;
      hide LinkedAfter;
      hide IsLinked;
      OnlyOne(nodes, c);
      ghost var skips: seq<seq<Node?>> := SkipsOf(nodes);
      NextOf(nodes, heights);
      assert forall l :: 0 <= l < |prevs| ==> PrevOk(nodes, heights, prevs[l], ps[l], l, c);
      hide PrevOk;
      LinkNew(n, prevs, ps, skips);
      n.next := current.next;
      current.next := n;
      assert forall o :: 0 <= o < |nodes| ==> nodes[o].next == if o == c then n else NodeAt(nodes, o + 1);
      forall o | 0 <= o < |nodes| ensures LinkedAfter(nodes, heights, c, n, |prevs|, o) {
        OldNodeLinked(nodes, heights, skips, n, prevs, ps, c, o);
      }
      NewNodeLinked(nodes, heights, skips, n, prevs, ps, c);
      LinkedAll(nodes, heights, c, n, |prevs|);
    }

    /** Adds a pair whose key is not there yet, at its place in the order. */
    method Insert(key: Bytes, value: Bytes) returns (ghost ci: nat)
      requires Valid() && key != []
      requires forall k :: 0 < k < |nodes| ==> cmp(nodes[k].key, key) != Equal
      modifies this, nodes
      ensures Valid() && nodes != [] && forall x :: x in nodes ==> x in old(nodes) || fresh(x)
      ensures ci < |old(nodes)| && Contents() == Inserted(old(Contents()), ci, (key, value))
    {
      hide NextAt;
      hide Inserted;
      hide AllLinked;
      hide PairsOf;
      hide AllDistinct;
      hide Ascending;
      hide IsOrder;
      hide PrevsOk;
      var newHeight := RandomHeight();
      var prevs, current, ps, c := FindPrevs(key, newHeight);
      ci := c;
      var n := new Node(key, value, newHeight);
      Attach(n, current, prevs, ps, c);
      len := len + 1;
      InsertedHeights(heights, c, newHeight);
      InsertedOrder(nodes, c, n, cmp);
      nodes, heights := Inserted(nodes, c + 1, n), Inserted<nat>(heights, c + 1, newHeight);
    }

    ghost predicate NextGreater(nodes: seq<Node>, hs: seq<nat>, i: nat, l: nat, key: Bytes) {
      && i < |nodes| == |hs|
      && var j := NextAt(hs, i, l);
      j < |nodes| ==> cmp(nodes[j].key, key) != Less
    }
  }

  /** An iterator; on the head node it is not valid. */
  class SkipMapIter {
    const list: InnerSkipMap
    var current: Node
    ghost var ix: nat

    ghost predicate Valid()
      reads this, list, list.nodes
    {
      list.Valid() && ix < |list.nodes| && current == list.nodes[ix]
    }

    constructor (list: InnerSkipMap)
      requires list.Valid()
      ensures Valid() && this.list == list && ix == 0
    {
      this.list := list;
      current, ix := list.head, 0;
    }

    method Reset()
      requires Valid()
      modifies this
      ensures Valid() && ix == 0
    {
      current, ix := list.head, 0;
    }

    method Advance() returns (ok: bool)
      requires Valid()
      modifies this
      ensures Valid() && ix == (if old(ix) + 1 < |list.nodes| then old(ix) + 1 else 0) && ok == (ix != 0)
    {
      assert LinkedNode(list.nodes, list.heights, ix);
      var next := current.next;
      if next == null {
        Reset();
        return false;
      }
      current, ix := next, ix + 1;
      return true;
    }

    method Seek(key: Bytes)
      requires Valid()
      modifies this
      ensures Valid()
      ensures if ix == 0 then forall k :: 0 < k < |list.nodes| ==> list.cmp(list.nodes[k].key, key) == Less
              else list.cmp(list.nodes[ix].key, key) != Less && forall k :: 0 < k < ix ==> list.cmp(list.nodes[k].key, key) == Less
    {
      var node, i := list.GetGreaterOrEqual(key);
      if node != null {
        current, ix := node, i;
        return;
      }
      Reset();
    }

    method Prev() returns (ok: bool)
      requires Valid()
      modifies this
      ensures Valid() && ix == (if old(ix) > 1 then old(ix) - 1 else 0) && ok == (ix != 0)
    {
      OnlyOne(list.nodes, 0);
      if current != list.head {
        var node, i := list.GetNextSmaller(current.key);
        assert i == ix - 1 by {
          assert ix > 1 ==> list.cmp(list.nodes[ix - 1].key, list.nodes[ix].key) == Less;
          assert list.cmp(list.nodes[ix].key, list.nodes[ix].key) != Less;
        }
        if node != null {
          current, ix := node, i;
          if node.key != [] {
            return true;
          }
        }
      }
      Reset();
      return false;
    }

    method Current() returns (r: Option<(Bytes, Bytes)>)
      requires Valid()
      ensures r == if ix == 0 then None else Some(list.Contents()[ix - 1])
    {
      OnlyOne(list.nodes, 0);
      if current != list.head {
        return Some((current.key, current.value));
      }
      return None;
    }
  }

  lemma {:induction false} OnlyOne(nodes: seq<Node>, p: nat)
    requires AllDistinct(nodes) && p < |nodes|
    ensures forall k :: 0 <= k < |nodes| && k != p ==> nodes[k] != nodes[p]
  {
    forall k | 0 <= k < |nodes| && k != p ensures nodes[k] != nodes[p] {
      assert k < p || p < k;
    }
  }

  /** The links of all nodes, as they are now. */
  ghost function SkipsOf(nodes: seq<Node>): (r: seq<seq<Node?>>)
    reads nodes
    ensures |r| == |nodes| && forall i :: 0 <= i < |nodes| ==> r[i] == nodes[i].skips
  {
    if nodes == [] then [] else SkipsOf(nodes[..|nodes| - 1]) + [nodes[|nodes| - 1].skips]
  }

  ghost predicate SkipsFit(nodes: seq<Node>, hs: seq<nat>, skips: seq<seq<Node?>>) {
    && |nodes| == |hs| == |skips|
    && (forall i :: 0 <= i < |nodes| ==> |skips[i]| == hs[i])
    && forall i, l :: 0 <= i < |nodes| && 0 <= l < hs[i] ==> skips[i][l] == NodeAt(nodes, NextAt(hs, i, l))
  }

  lemma {:induction false} NextOf(nodes: seq<Node>, hs: seq<nat>)
    requires AllLinked(nodes, hs)
    ensures SkipsFit(nodes, hs, SkipsOf(nodes))
    ensures forall i :: 0 <= i < |nodes| ==> |nodes[i].skips| == hs[i] && nodes[i].next == NodeAt(nodes, i + 1)
  {
    hide NextAt;
    hide SkipsOf;
    var skips := SkipsOf(nodes);
    forall i | 0 <= i < |nodes| ensures |skips[i]| == hs[i] && skips[i] == nodes[i].skips && nodes[i].next == NodeAt(nodes, i + 1) {
      assert LinkedNode(nodes, hs, i);
    }
    forall i, l | 0 <= i < |nodes| && 0 <= l < hs[i] ensures skips[i][l] == NodeAt(nodes, NextAt(hs, i, l)) {
      assert LinkedNode(nodes, hs, i);
    }
  }

  ghost predicate LinkedAfter(nodes: seq<Node>, hs: seq<nat>, c: nat, n: Node, h: nat, o: nat)
    reads nodes, n
    requires c < |nodes| == |hs| && o < |nodes|
  {
    IsLinked(Inserted(nodes, c + 1, n), Inserted<nat>(hs, c + 1, h), Shift(c + 1, o))
  }

  /** The new node took over the links of the nodes before it. */
  ghost predicate NewSkips(now: seq<Node?>, skips: seq<seq<Node?>>, ps: seq<nat>) {
    |now| == |ps| && forall l :: 0 <= l < |ps| ==> ps[l] < |skips| && l < |skips[ps[l]]| && now[l] == skips[ps[l]][l]
  }

  /** The links of node k: into the new node on the levels where it is the last one before it. */
  ghost predicate OldSkips(now: seq<Node?>, before: seq<Node?>, n: Node, ps: seq<nat>, k: nat) {
    && |now| == |before|
    && forall l :: 0 <= l < |before| ==> now[l] == if l < |ps| && ps[l] == k then n else before[l]
  }

  lemma {:induction false} OldNodeLinked(nodes: seq<Node>, hs: seq<nat>, skips: seq<seq<Node?>>, n: Node, prevs: seq<Node>,
                                         ps: seq<nat>, c: nat, o: nat)
    requires c < |nodes| == |hs| && o < |nodes| && SkipsFit(nodes, hs, skips) && PrevsOk(nodes, hs, prevs, ps, 0, c)
    requires OldSkips(nodes[o].skips, skips[o], n, ps, o)
    requires nodes[o].next == if o == c then n else NodeAt(nodes, o + 1)
    ensures LinkedAfter(nodes, hs, c, n, |prevs|, o)
  {
    hide NextAt;
    hide Inserted;
    var h, i := |prevs|, Shift(c + 1, o);
    InsertedAt(nodes, c + 1, n);
    InsertedAt<nat>(hs, c + 1, h);
    var nodes', hs' := Inserted(nodes, c + 1, n), Inserted<nat>(hs, c + 1, h);
    forall l | 0 <= l < hs[o] ensures nodes[o].skips[l] == NodeAt(nodes', NextAt(hs', i, l)) {
      assert l < h ==> PrevOk(nodes, hs, prevs[l], ps[l], l, c);
      NewLink(nodes, hs, c, n, h, if l < h then ps[l] else 0, o, l);
    }
  }

  lemma {:induction false} NewNodeLinked(nodes: seq<Node>, hs: seq<nat>, skips: seq<seq<Node?>>, n: Node, prevs: seq<Node>,
                                         ps: seq<nat>, c: nat)
    requires c < |nodes| == |hs| && SkipsFit(nodes, hs, skips) && PrevsOk(nodes, hs, prevs, ps, 0, c)
    requires NewSkips(n.skips, skips, ps)
    requires n.next == NodeAt(nodes, c + 1)
    ensures IsLinked(Inserted(nodes, c + 1, n), Inserted<nat>(hs, c + 1, |prevs|), c + 1)
  {
    hide NextAt;
    hide Inserted;
    var h := |prevs|;
    InsertedAt(nodes, c + 1, n);
    InsertedAt<nat>(hs, c + 1, h);
    var nodes', hs' := Inserted(nodes, c + 1, n), Inserted<nat>(hs, c + 1, h);
    forall l | 0 <= l < h ensures n.skips[l] == NodeAt(nodes', NextAt(hs', c + 1, l)) {
      assert PrevOk(nodes, hs, prevs[l], ps[l], l, c);
      NewLink(nodes, hs, c, n, h, ps[l], ps[l], l);
    }
  }

  lemma {:induction false} LinkedAll(nodes: seq<Node>, hs: seq<nat>, c: nat, n: Node, h: nat)
    requires c < |nodes| == |hs|
    requires IsLinked(Inserted(nodes, c + 1, n), Inserted<nat>(hs, c + 1, h), c + 1)
    requires forall o :: 0 <= o < |nodes| ==> LinkedAfter(nodes, hs, c, n, h, o)
    ensures AllLinked(Inserted(nodes, c + 1, n), Inserted<nat>(hs, c + 1, h))
  {
    hide Inserted;
    hide LinkedNode;
    InsertedAt(nodes, c + 1, n);
    var nodes', hs' := Inserted(nodes, c + 1, n), Inserted<nat>(hs, c + 1, h);
    forall i | 0 <= i < |nodes'| ensures LinkedNode(nodes', hs', i) {
      var o := if i < c + 1 then i else i - 1;
      assert i != c + 1 ==> LinkedAfter(nodes, hs, c, n, h, o);
    }
  }

  /** What a link leads to after the insertion, in terms of the links before it. */
  lemma {:induction false} NewLink(nodes: seq<Node>, hs: seq<nat>, c: nat, n: Node, h: nat, p: nat, i: nat, l: nat)
    requires c < |nodes| == |hs| && i < |nodes| && l < hs[i]
    requires l < h ==> p <= c && hs[p] > l && NextAt(hs, p, l) > c
    ensures var nodes', hs' := Inserted(nodes, c + 1, n), Inserted<nat>(hs, c + 1, h);
            && |nodes'| == |hs'| == |nodes| + 1
            && NodeAt(nodes', NextAt(hs', Shift(c + 1, i), l)) == (if l < h && p == i then n else NodeAt(nodes, NextAt(hs, i, l)))
            && (l < h && p == i ==> NodeAt(nodes', NextAt(hs', c + 1, l)) == NodeAt(nodes, NextAt(hs, i, l)))
  {
    hide NextAt;
    hide Inserted;
    InsertedAt(nodes, c + 1, n);
    NextInserted(hs, c + 1, h, i, l);
    var j := NextAt(hs, i, l);
    if l < h {
      assert i <= c < j ==> i == p;
    }
  }

  lemma {:induction false} InsertedHeights(hs: seq<nat>, c: nat, h: nat)
    requires c < |hs| && 1 <= h <= MAX_HEIGHT && forall i :: 0 <= i < |hs| ==> 1 <= hs[i] <= MAX_HEIGHT
    ensures var hs' := Inserted<nat>(hs, c + 1, h);
            |hs'| == |hs| + 1 && hs'[0] == hs[0] && forall i :: 0 <= i < |hs'| ==> 1 <= hs'[i] <= MAX_HEIGHT
  {
    InsertedAt<nat>(hs, c + 1, h);
    hide Inserted;
  }

  lemma {:induction false} InsertedOrder(nodes: seq<Node>, c: nat, n: Node, cmp: Cmp)
    requires c < |nodes| && AllDistinct(nodes) && n !in nodes && Ascending(nodes, cmp) && IsOrder(cmp)
    requires forall k :: 0 < k <= c ==> cmp(nodes[k].key, n.key) == Less
    requires forall k :: c < k < |nodes| ==> cmp(nodes[k].key, n.key) == Greater
    requires n.key != [] && forall k :: 0 < k < |nodes| ==> nodes[k].key != []
    ensures var nodes' := Inserted(nodes, c + 1, n);
            && |nodes'| == |nodes| + 1 && nodes'[0] == nodes[0]
            && (forall x :: x in nodes' ==> x in nodes || x == n)
            && (forall k :: 0 < k < |nodes'| ==> nodes'[k].key != [])
            && AllDistinct(nodes') && Ascending(nodes', cmp) && PairsOf(nodes') == Inserted(PairsOf(nodes), c, (n.key, n.value))
  {
    hide Inserted;
    hide IsOrder;
    hide AllDistinct;
    hide Ascending;
    InsertedAt(nodes, c + 1, n);
    InsertedAt(PairsOf(nodes), c, (n.key, n.value));
    InsertedDistinct(nodes, c, n);
    InsertedAscends(nodes, c, n, cmp);
    var nodes' := Inserted(nodes, c + 1, n);
    assert PairsOf(nodes') == Inserted(PairsOf(nodes), c, (n.key, n.value));
  }

  lemma {:induction false} InsertedDistinct(nodes: seq<Node>, c: nat, n: Node)
    requires c < |nodes| && AllDistinct(nodes) && n !in nodes
    ensures AllDistinct(Inserted(nodes, c + 1, n)) && forall x :: x in Inserted(nodes, c + 1, n) ==> x in nodes || x == n
  {
    hide Inserted;
    InsertedAt(nodes, c + 1, n);
    var nodes' := Inserted(nodes, c + 1, n);
    forall i, j | 0 <= i < j < |nodes'| ensures nodes'[i] != nodes'[j] {
      assert i != c + 1 ==> nodes'[i] in nodes;
      assert j != c + 1 ==> nodes'[j] in nodes;
    }
  }

  lemma {:induction false} InsertedAscends(nodes: seq<Node>, c: nat, n: Node, cmp: Cmp)
    requires c < |nodes| && Ascending(nodes, cmp) && IsOrder(cmp)
    requires forall k :: 0 < k <= c ==> cmp(nodes[k].key, n.key) == Less
    requires forall k :: c < k < |nodes| ==> cmp(nodes[k].key, n.key) == Greater
    ensures Ascending(Inserted(nodes, c + 1, n), cmp)
  {
    hide Inserted;
    InsertedAt(nodes, c + 1, n);
    var nodes' := Inserted(nodes, c + 1, n);
    forall i, j | 0 < i < j < |nodes'| ensures cmp(nodes'[i].key, nodes'[j].key) == Less {
      if j == c + 1 {
        assert nodes'[i] == nodes[i];
      } else if i == c + 1 {
        assert nodes'[j] == nodes[j - 1];
      }
    }
  }

  /** On every level from lo up, the last node not after c that reaches above it. */
  ghost predicate PrevsOk(nodes: seq<Node>, hs: seq<nat>, prevs: seq<Node>, ps: seq<nat>, lo: nat, c: nat) {
    && |nodes| == |hs| && |prevs| == |ps|
    && forall l :: lo <= l < |ps| ==> PrevOk(nodes, hs, prevs[l], ps[l], l, c)
  }

  ghost predicate PrevOk(nodes: seq<Node>, hs: seq<nat>, prev: Node, p: nat, l: nat, c: nat)
    requires |nodes| == |hs|
  {
    p <= c < |nodes| && prev == nodes[p] && hs[p] > l && NextAt(hs, p, l) > c
  }
}
