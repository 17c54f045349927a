/** The consistent-hash ring of hash/ketama.go, for an arbitrary hash of labels and keys. */
module Ketamas {
  import opened FiniteSets
  import opened Decimal

  type Hash = string -> nat

  function NodeName(idx: nat): string {
    "node" + Itoa(idx)
  }

  function Label(idx: nat, i: nat): string {
    NodeName(idx) + "#" + Itoa(i)
  }

  // ----- the ring as a set of points with owners -----

  /** Whether one of the first `vnode` labels of node `idx` hashes to `p`. */
  ghost predicate HasPoint(h: Hash, vnode: nat, idx: nat, p: int) {
    exists i :: 0 <= i < vnode && h(Label(idx, i)) == p
  }

  ghost function PointsOf(h: Hash, vnode: nat, idx: nat): set<int> {
    set i | 0 <= i < vnode :: h(Label(idx, i))
  }

  /** The points of nodes 1 to `node`. */
  ghost function Ring(h: Hash, node: nat, vnode: nat): set<int> {
    if node == 0 then {} else Ring(h, node - 1, vnode) + PointsOf(h, vnode, node)
  }

  /** Who owns a point: of the nodes that hash to it, the last. */
  ghost function Owner(h: Hash, node: nat, vnode: nat, p: int): nat {
    if node == 0 then 0
    else if HasPoint(h, vnode, node, p) then node
    else Owner(h, node - 1, vnode, p)
  }

  /** The first point at or after `x`, going round to the smallest point past the end. */
  ghost function Clockwise(points: set<int>, x: int): int
    requires points != {}
  {
    var ahead := set p | p in points && x <= p;
    if ahead != {} then Least(ahead) else Least(points)
  }

  ghost function Lookup(h: Hash, node: nat, vnode: nat, x: int): nat
    requires Ring(h, node, vnode) != {}
  {
    Owner(h, node, vnode, Clockwise(Ring(h, node, vnode), x))
  }

  lemma ClockwiseIs(points: set<int>, x: int, p: int)
    requires p in points
    requires x <= p ==> forall q :: q in points && x <= q ==> p <= q
    requires p < x ==> forall q :: q in points ==> q < x && p <= q
    ensures points != {} && Clockwise(points, x) == p
  {
    var ahead := set q | q in points && x <= q;
    if x <= p {
      LeastIs(ahead, p);
    } else {
      assert ahead == {};
      LeastIs(points, p);
    }
  }

  lemma ClockwiseFirst(points: set<int>, x: int)
    requires points != {}
    ensures var p := Clockwise(points, x);
      && p in points
      && (x <= p ==> forall q :: q in points && x <= q ==> p <= q)
      && (p < x ==> forall q :: q in points ==> q < x && p <= q)
  {
    var ahead := set q | q in points && x <= q;
    if ahead == {} {
      assert forall q :: q in points && x <= q ==> q in ahead;
    } else {
      assert forall q :: q in points && x <= q ==> q in ahead;
    }
  }

  lemma {:induction false} OwnerInRange(h: Hash, node: nat, vnode: nat, p: int)
    ensures p in Ring(h, node, vnode) <==> 1 <= Owner(h, node, vnode, p)
    ensures Owner(h, node, vnode, p) <= node
    ensures p in Ring(h, node, vnode) ==> HasPoint(h, vnode, Owner(h, node, vnode, p), p)
  {
    if node == 0 {
    } else {
      OwnerInRange(h, node - 1, vnode, p);
      assert HasPoint(h, vnode, node, p) <==> p in PointsOf(h, vnode, node);
    }
  }

  lemma {:induction false} RingHas(h: Hash, node: nat, vnode: nat, l: nat, j: nat)
    requires 1 <= l <= node && j < vnode
    ensures h(Label(l, j)) in Ring(h, node, vnode) && HasPoint(h, vnode, l, h(Label(l, j)))
  {
    if l == node {
      assert h(Label(l, j)) in PointsOf(h, vnode, node);
    } else {
      RingHas(h, node - 1, vnode, l, j);
    }
  }

  lemma {:induction false} OwnerIsLast(h: Hash, node: nat, vnode: nat, p: int, l: nat)
    requires 1 <= l <= node && HasPoint(h, vnode, l, p)
    ensures l <= Owner(h, node, vnode, p)
  {
    if l == node {
    } else {
      OwnerIsLast(h, node - 1, vnode, p, l);
    }
  }

  lemma {:induction false} RingNonEmpty(h: Hash, node: nat, vnode: nat)
    ensures Ring(h, node, vnode) != {} <==> node >= 1 && vnode >= 1
  {
    if node == 0 {
    } else if vnode == 0 {
      RingNonEmpty(h, node - 1, vnode);
      assert PointsOf(h, vnode, node) == {};
    } else {
      assert h(Label(node, 0)) in PointsOf(h, vnode, node);
    }
  }

  /** A key always maps to one of the nodes. */
  lemma LookupInRange(h: Hash, node: nat, vnode: nat, x: int)
    requires node >= 1 && vnode >= 1
    ensures Ring(h, node, vnode) != {} && 1 <= Lookup(h, node, vnode, x) <= node
  {
    RingNonEmpty(h, node, vnode);
    ClockwiseFirst(Ring(h, node, vnode), x);
    OwnerInRange(h, node, vnode, Clockwise(Ring(h, node, vnode), x));
  }

  // ----- growing the ring -----

  /** When a node is added, a key moves to it exactly when the first point clockwise is now one of
      its points; otherwise the key stays where it was. */
  lemma GrowthIsMonotone(h: Hash, node: nat, vnode: nat, x: int)
    requires node >= 1 && vnode >= 1
    ensures Ring(h, node, vnode) != {} && Ring(h, node + 1, vnode) != {}
    ensures Lookup(h, node + 1, vnode, x) ==
      if HasPoint(h, vnode, node + 1, Clockwise(Ring(h, node + 1, vnode), x)) then node + 1
      else Lookup(h, node, vnode, x)
  {
    RingNonEmpty(h, node, vnode);
    RingNonEmpty(h, node + 1, vnode);
    var before, grown := Ring(h, node, vnode), Ring(h, node + 1, vnode);
    var p := Clockwise(grown, x);
    ClockwiseFirst(grown, x);
    if !HasPoint(h, vnode, node + 1, p) {
      assert p !in PointsOf(h, vnode, node + 1);
      assert p in before && before <= grown;
      ClockwiseIs(before, x, p);
    }
  }

  /** However many nodes are added, a key stays on its node or moves to one of the added nodes. */
  lemma {:induction false} GrowthByMany(h: Hash, node: nat, more: nat, vnode: nat, x: int)
    requires node >= 1 && vnode >= 1
    ensures Ring(h, node, vnode) != {} && Ring(h, node + more, vnode) != {}
    ensures var to := Lookup(h, node + more, vnode, x);
      to == Lookup(h, node, vnode, x) || node < to <= node + more
  {
    hide Ring, Lookup, HasPoint;
    RingNonEmpty(h, node, vnode);
    if more == 0 {
    } else {
      GrowthByMany(h, node, more - 1, vnode, x);
      GrowthIsMonotone(h, node + more - 1, vnode, x);
    }
  }

  // ----- the structure of the source -----

  ghost predicate Sorted(a: seq<int>) {
    forall i, j :: 0 <= i < j < |a| ==> a[i] <= a[j]
  }

  /** Position of the first element not below `x`, for a sorted slice. */
  method SearchLeft(a: seq<int>, x: int) returns (lo: nat)
    requires Sorted(a)
    ensures lo <= |a|
    ensures forall i :: 0 <= i < lo ==> a[i] < x
    ensures forall i :: lo <= i < |a| ==> x <= a[i]
  {
    lo := 0;
    var hi := |a|;
    while lo < hi
      invariant 0 <= lo <= hi <= |a|
      invariant forall i :: 0 <= i < lo ==> a[i] < x
      invariant forall i :: hi <= i < |a| ==> x <= a[i]
    {
      var mid := (lo + hi) / 2;
      if a[mid] < x {
        lo := mid + 1;
      } else {
        hi := mid;
      }
    }
  }

  /** Stands for sort.Sort: an in-place insertion sort by adjacent swaps. */
  method SortPoints(a: array<int>)
    modifies a
    ensures Sorted(a[..]) && multiset(a[..]) == multiset(old(a[..]))
  {
    var n := 0;
    while n < a.Length
      invariant 0 <= n <= a.Length
      invariant forall p, q :: 0 <= p < q < n ==> a[p] <= a[q]
      invariant multiset(a[..]) == multiset(old(a[..]))
    {
      SinkInto(a, n);
      n := n + 1;
    }
  }

  /** Element `n` moves down to its place among the sorted elements before it. */
  method SinkInto(a: array<int>, n: nat)
    requires n < a.Length && forall p, q :: 0 <= p < q < n ==> a[p] <= a[q]
    modifies a
    ensures forall p, q :: 0 <= p < q <= n ==> a[p] <= a[q]
    ensures multiset(a[..]) == multiset(old(a[..]))
  {
    var j := n;
    while j > 0 && a[j] < a[j - 1]
      invariant 0 <= j <= n
      invariant forall p, q :: 0 <= p < q <= n && q != j ==> a[p] <= a[q]
      invariant multiset(a[..]) == multiset(old(a[..]))
    {
      Swap(a, j, j - 1);
      j := j - 1;
    }
  }

  method Swap(a: array<int>, i: nat, j: nat)
    requires i < a.Length && j < a.Length
    modifies a
    ensures a[i] == old(a[j]) && a[j] == old(a[i])
    ensures forall k :: 0 <= k < a.Length && k != i && k != j ==> a[k] == old(a[k])
    ensures multiset(a[..]) == multiset(old(a[..]))
  {
    a[i], a[j] := a[j], a[i];
  }

  lemma OneMorePoint(h: Hash, i: nat, idx: nat)
    ensures forall p :: HasPoint(h, i + 1, idx, p) <==> HasPoint(h, i, idx, p) || p == h(Label(idx, i))
  {
    forall p
      ensures HasPoint(h, i + 1, idx, p) <==> HasPoint(h, i, idx, p) || p == h(Label(idx, i))
    {
      if HasPoint(h, i + 1, idx, p) {
        var j :| 0 <= j < i + 1 && h(Label(idx, j)) == p;
        assert j < i ==> HasPoint(h, i, idx, p);
      }
      if HasPoint(h, i, idx, p) {
        var j :| 0 <= j < i && h(Label(idx, j)) == p;
        assert 0 <= j < i + 1;
      }
    }
  }

  function Count(n: int): nat {
    if n < 0 then 0 else n
  }

  class Ketama {
    const node: int
    const vnode: int
    const h: Hash
    var nodes: seq<int>
    var nodesMapping: map<int, string>

    /** The points so far: those of the nodes before `idx` and the first `i` of node `idx`. */
    ghost predicate Placed(idx: nat, i: nat)
      requires idx >= 1
      reads this
    {
      && (forall p :: p in nodes <==> p in Ring(h, idx - 1, Count(vnode)) || HasPoint(h, i, idx, p))
      && (forall p :: p in nodesMapping <==> p in nodes)
      && (forall p :: p in nodesMapping ==>
            nodesMapping[p] == NodeName(if HasPoint(h, i, idx, p) then idx else Owner(h, idx - 1, Count(vnode), p)))
    }

    ghost predicate Valid()
      reads this
    {
      && Sorted(nodes)
      && (forall p :: p in nodes <==> p in Ring(h, Count(node), Count(vnode)))
      && (forall p :: p in nodesMapping <==> p in nodes)
      && (forall p :: p in nodesMapping ==> nodesMapping[p] == NodeName(Owner(h, Count(node), Count(vnode), p)))
    }

    constructor (node: int, vnode: int, h: Hash)
      ensures Valid() && this.node == node && this.vnode == vnode && this.h == h
    {
      this.node, this.vnode, this.h := node, vnode, h;
      nodes, nodesMapping := [], map[];
      new;
      InitCircle();
    }

    /** One virtual node: its point is appended, and from now on `name` owns it. */
    method Place(idx: nat, i: nat, name: string)
      requires idx >= 1 && i < Count(vnode) && name == NodeName(idx) && Placed(idx, i)
      modifies this
      ensures Placed(idx, i + 1)
    {
      hide Ring, HasPoint, Owner, NodeName, Itoa;
      var vpos := h(name + "#" + Itoa(i));
      assert vpos == h(Label(idx, i));
      ghost var before, named := nodes, nodesMapping;
      nodes := nodes + [vpos];
      nodesMapping := nodesMapping[vpos := name];
      OneMorePoint(h, i, idx);
      forall p
        ensures p in nodes <==> p in Ring(h, idx - 1, Count(vnode)) || HasPoint(h, i + 1, idx, p)
        ensures p in nodesMapping <==> p in nodes
      {
        assert p in nodes <==> p in before || p == vpos;
        assert p in nodesMapping <==> p in named || p == vpos;
      }
      forall p | p in nodesMapping
        ensures nodesMapping[p] ==
          NodeName(if HasPoint(h, i + 1, idx, p) then idx else Owner(h, idx - 1, Count(vnode), p))
      {
        if p == vpos {
          assert HasPoint(h, i + 1, idx, p);
        } else {
          assert nodesMapping[p] == named[p];
          assert HasPoint(h, i + 1, idx, p) <==> HasPoint(h, i, idx, p);
        }
      }
    }

    /** The inner loop: all virtual nodes of node `idx`. */
    method PlaceNode(idx: nat)
      requires idx >= 1 && Placed(idx, 0)
      modifies this
      ensures Placed(idx + 1, 0)
    {
      hide Ring, HasPoint, Owner, Itoa;
      var name := NodeName(idx);
      var i := 0;
      while i < vnode
        invariant 0 <= i <= Count(vnode) && Placed(idx, i)
      {
        Place(idx, i, name);
        i := i + 1;
      }
      NextNode(idx);
    }

    method InitCircle()
      requires nodes == [] && nodesMapping == map[]
      modifies this
      ensures Valid()
    {
      hide Ring, HasPoint, Owner, NodeName, Itoa, Sorted;
      var idx := 1;
      NothingYet();
      while idx < node + 1
        invariant 1 <= idx <= Count(node) + 1 && Placed(idx, 0)
      {
        PlaceNode(idx);
        idx := idx + 1;
      }
      NothingPlaced(idx);
      SortNodes();
    }

    lemma NothingYet()
      ensures Ring(h, 0, Count(vnode)) == {} && forall p :: !HasPoint(h, 0, 1, p)
    {
    }

    lemma NothingPlaced(idx: nat)
      ensures forall p :: !HasPoint(h, 0, idx, p)
    {
    }

    lemma NextNode(idx: nat)
      requires idx >= 1 && Placed(idx, Count(vnode))
      ensures Placed(idx + 1, 0)
    {
      assert forall p :: HasPoint(h, Count(vnode), idx, p) <==> p in PointsOf(h, Count(vnode), idx);
      NothingPlaced(idx + 1);
    }

    method SortNodes()
      modifies this`nodes
      ensures Sorted(nodes) && forall p :: p in nodes <==> p in old(nodes)
    {
      var points := nodes;
      var a := new int[|points|](i requires 0 <= i < |points| => points[i]);
      assert a[..] == points;
      SortPoints(a);
      nodes := a[..];
      assert forall p :: p in nodes <==> p in multiset(nodes);
      assert forall p :: p in points <==> p in multiset(points);
    }

    /** The clockwise point, found by position in the sorted slice. */
    lemma PointFound(x: int, idx: nat, pos: int)
      requires Valid() && nodes != [] && idx <= |nodes| && pos == nodes[if idx == |nodes| then 0 else idx]
      requires forall i :: 0 <= i < idx ==> nodes[i] < x
      requires forall i :: idx <= i < |nodes| ==> x <= nodes[i]
      ensures var ring := Ring(h, Count(node), Count(vnode));
        ring != {} && pos in ring && pos == Clockwise(ring, x)
    {
      hide Ring, HasPoint, Owner, Clockwise;
      var ring := Ring(h, Count(node), Count(vnode));
      assert pos in nodes;
      forall q | q in ring
        ensures x <= pos && x <= q ==> pos <= q
        ensures pos < x ==> q < x && pos <= q
      {
        assert q in nodes;
        var j :| 0 <= j < |nodes| && nodes[j] == q;
      }
      ClockwiseIs(ring, x, pos);
    }

    /** The name of the node a key maps to; the source panics on an empty ring.  Spelled out: the
        name is "node" and the number `k`, label `i` of that node hashes to the first point at or
        after the hash of the key, going round to the smallest, and no node with a greater number
        has that point. */
    method Node(key: string) returns (r: string, ghost k: nat, ghost i: nat)
      requires Valid() && nodes != []
      ensures Ring(h, Count(node), Count(vnode)) != {}
      ensures r == NodeName(Lookup(h, Count(node), Count(vnode), h(key)))
      ensures 1 <= k <= node && i < vnode && r == "node" + Itoa(k)
      ensures forall l: nat, j: nat :: 1 <= l <= node && j < vnode ==>
        var p, q, x := h("node" + Itoa(k) + "#" + Itoa(i)), h("node" + Itoa(l) + "#" + Itoa(j)), h(key);
        (x <= p && x <= q ==> p <= q) && (p < x ==> q < x && p <= q) && (l > k ==> q != p)
    {
      hide Ring, Itoa, Clockwise, Owner, NodeName;
      var x := h(key);
      var idx := SearchLeft(nodes, x);
      var pos := nodes[0];
      if idx != |nodes| {
        pos := nodes[idx];
      }
      PointFound(x, idx, pos);
      r := nodesMapping[pos];
      k, i := OwnerSpelledOut(x, pos);
    }

    /** The owner of the first point `p` at or after `x`. */
    lemma OwnerByLabels(x: int, p: int) returns (k: nat, i: nat)
      requires var ring := Ring(h, Count(node), Count(vnode)); ring != {} && p == Clockwise(ring, x)
      ensures k == Owner(h, Count(node), Count(vnode), p) && 1 <= k <= node && i < vnode && p == h(Label(k, i))
      ensures forall l: nat, j: nat :: 1 <= l <= node && j < vnode ==>
        var q := h(Label(l, j)); (x <= p && x <= q ==> p <= q) && (p < x ==> q < x && p <= q) && (l > k ==> q != p)
    {
      hide Label;
      var n, v := Count(node), Count(vnode);
      ClockwiseFirst(Ring(h, n, v), x);
      OwnerInRange(h, n, v, p);
      k := Owner(h, n, v, p);
      i :| 0 <= i < v && h(Label(k, i)) == p;
      hide Ring, Owner, Clockwise;
      forall l: nat, j: nat | 1 <= l <= node && j < vnode
        ensures h(Label(l, j)) in Ring(h, n, v)
        ensures l > k ==> h(Label(l, j)) != p
      {
        RingHas(h, n, v, l, j);
        if h(Label(l, j)) == p {
          OwnerIsLast(h, n, v, p, l);
        }
      }
    }

    lemma LabelIs(l: nat, j: nat)
      ensures Label(l, j) == "node" + Itoa(l) + "#" + Itoa(j) && NodeName(l) == "node" + Itoa(l)
    {
    }

    /** The same in terms of strings. */
    lemma OwnerSpelledOut(x: int, p: int) returns (k: nat, i: nat)
      requires var ring := Ring(h, Count(node), Count(vnode)); ring != {} && p == Clockwise(ring, x)
      ensures k == Owner(h, Count(node), Count(vnode), p) && NodeName(k) == "node" + Itoa(k)
      ensures 1 <= k <= node && i < vnode && p == h("node" + Itoa(k) + "#" + Itoa(i))
      ensures forall l: nat, j: nat :: 1 <= l <= node && j < vnode ==>
        var q := h("node" + Itoa(l) + "#" + Itoa(j));
        (x <= p && x <= q ==> p <= q) && (p < x ==> q < x && p <= q) && (l > k ==> q != p)
    {
      hide Label, NodeName, Itoa, Ring, Owner, Clockwise;
      k, i := OwnerByLabels(x, p);
      LabelIs(k, i);
      forall l: nat, j: nat | 1 <= l <= node && j < vnode
        ensures var q := h("node" + Itoa(l) + "#" + Itoa(j));
          (x <= p && x <= q ==> p <= q) && (p < x ==> q < x && p <= q) && (l > k ==> q != p)
      {
        LabelIs(l, j);
      }
    }
  }
}
