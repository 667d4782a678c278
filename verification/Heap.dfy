/** The pointer-linked complete binary min-heap under the timer queue (heap-inl.h). */
module Heaps {
  import opened Basics
  import opened HeapNodes
  import opened HeapOrder

  class Heap {
    var min: Timer?
    var nelts: nat
    /** the nodes in breadth-first order */
    ghost var nodes: seq<Timer>

    ghost predicate Shape()
      reads this, nodes`left, nodes`right, nodes`parent
    {
      Linked(nodes) && min == Nth(nodes, 1) && nelts == |nodes|
    }

    /** The first half of heap_node_swap: a parent and its child exchange their links. */
    method ExchangeLinks(parent: Timer, child: Timer) returns (sibling: Timer?)
      requires parent != child && (parent.left == child || parent.right == child)
      requires child.left != child && child.right != child && parent.left != parent
      modifies parent`left, parent`right, parent`parent, child`left, child`right, child`parent
      ensures sibling == if old(parent.left) == child then old(parent.right) else old(parent.left)
      ensures child.left == if old(parent.left) == child then parent else old(parent.left)
      ensures child.right == if old(parent.left) == child then old(parent.right) else parent
      ensures child.parent == old(parent.parent) && parent.parent == child
      ensures parent.left == old(child.left) && parent.right == old(child.right)
    {
      var tl, tr, tp := parent.left, parent.right, parent.parent;
      parent.left, parent.right, parent.parent := child.left, child.right, child.parent;
      child.left, child.right, child.parent := tl, tr, tp;
      parent.parent := child;
      if child.left == child {
        child.left := parent;
        sibling := child.right;
      } else {
        child.right := parent;
        sibling := child.left;
      }
    }

    /** The second half: the neighbours of both follow. */
    method Reattach(parent: Timer, child: Timer, sibling: Timer?)
      requires child.parent != child && child.parent != parent
      requires sibling != null ==> sibling != child && sibling != parent.left && sibling != parent.right
      requires parent.left != child && parent.right != child && parent != child
      modifies this`min, Opt(child.parent)`left, Opt(child.parent)`right
      modifies Opt(sibling)`parent, Opt(parent.left)`parent, Opt(parent.right)`parent
      ensures min == if child.parent == null then child else old(min)
      ensures sibling != null ==> sibling.parent == child
      ensures parent.left != null ==> parent.left.parent == parent
      ensures parent.right != null ==> parent.right.parent == parent
      ensures child.parent != null ==>
        var g := child.parent;
        && g.left == (if old(g.left) == parent then child else old(g.left))
        && g.right == (if old(g.left) == parent then old(g.right) else child)
    {
      if sibling != null {
        sibling.parent := child;
      }
      if parent.left != null {
        parent.left.parent := parent;
      }
      if parent.right != null {
        parent.right.parent := parent;
      }
      if child.parent == null {
        min := child;
      } else if child.parent.left == parent {
        child.parent.left := child;
      } else {
        child.parent.right := child;
      }
    }
  
    /** Both halves, by position: which pointers change, and to what. */
    method SwapLinks(parent: Timer, child: Timer, ghost ns: seq<Timer>, ghost p: nat)
      requires Linked(ns) && min == Nth(ns, 1)
      requires 2 <= p <= |ns| && child == ns[p - 1] && parent == ns[p / 2 - 1]
      modifies this`min, ns`left, ns`right, ns`parent
      ensures min == if p / 2 == 1 then child else old(min)
      ensures child.left == (if p % 2 == 0 then parent else Nth(ns, p - 1))
      ensures child.right == (if p % 2 == 0 then Nth(ns, p + 1) else parent)
      ensures parent.left == Nth(ns, 2 * p) && parent.right == Nth(ns, 2 * p + 1)
      ensures child.parent == Nth(ns, p / 2 / 2) && parent.parent == child
      ensures var g, y := Nth(ns, p / 2 / 2), p / 2;
        g != null ==>
          && g.left == (if y % 2 == 0 then child else Nth(ns, y - 1))
          && g.right == (if y % 2 == 0 then Nth(ns, y + 1) else child)
      ensures var sibling := Nth(ns, p + 1 - 2 * (p % 2)); sibling != null ==> sibling.parent == child
      ensures Nth(ns, 2 * p) != null ==> Nth(ns, 2 * p).parent == parent
      ensures Nth(ns, 2 * p + 1) != null ==> Nth(ns, 2 * p + 1).parent == parent
      ensures forall t | t in ns && t != parent && t != child && t != Nth(ns, p / 2 / 2) ::
          t.left == old(t.left) && t.right == old(t.right)
      ensures forall t | t in ns && t != parent && t != child && t != Nth(ns, p + 1 - 2 * (p % 2))
          && t != Nth(ns, 2 * p) && t != Nth(ns, 2 * p + 1) :: t.parent == old(t.parent)
    {
      hide Linked;
      Neighbours(ns, p);
      var sibling := ExchangeLinks(parent, child);
      Reattach(parent, child, sibling);
    }

    /** heap_node_swap: the child at position p and its parent change places. */
    method Swap(parent: Timer, child: Timer, ghost p: nat)
      requires Shape() && 2 <= p <= |nodes| && child == nodes[p - 1] && parent == nodes[p / 2 - 1]
      modifies this`min, this`nodes, nodes`left, nodes`right, nodes`parent
      ensures nodes == Swapped(old(nodes), p) && Shape()
    {
      hide Swapped, ChildrenSwapped, ParentSwapped;
      ghost var ns := nodes;
      SwapLinks(parent, child, ns, p);
      nodes := Swapped(ns, p);
      SwappedDistinct(ns, p);
      SwappedNth(ns, p, 1);
      forall k: nat | 1 <= k <= |ns| ensures ChildrenSwapped(ns, p, k) && ParentSwapped(ns, p, k) {
        Different(ns, p, k);
        assert old(LinkedAt(ns, k));
        ChildrenAfter(ns, p, k);
        ParentAfter(ns, p, k);
      }
      forall q: nat | 1 <= q <= |nodes| ensures LinkedAt(nodes, q) {
        RelinkedAt(ns, p, q);
      }
    }
  
    /** heap_init. */
    constructor ()
      ensures Valid() && nodes == []
    {
      min, nelts, nodes := null, 0, [];
    }

    ghost predicate Valid()
      reads this, nodes`left, nodes`right, nodes`parent, nodes`timeout, nodes`startId
    {
      Shape() && Ordered(nodes)
    }

    /** heap_min: nothing in the heap comes before it. */
    method Min() returns (t: Timer?)
      requires Valid()
      ensures t == null <==> nodes == []
      ensures t != null ==> t in nodes && forall u | u in nodes :: !Precedes(u.Key(), t.Key())
    {
      t := min;
      forall u | u in nodes ensures !Precedes(u.Key(), nodes[0].Key()) {
        var i :| 0 <= i < |nodes| && nodes[i] == u;
        RootIsLeast(nodes, i + 1);
      }
    }

    /** What a pointer to a pointer holds. */
    function Load(s: Slot): Timer?
      reads this`min, match s { case AtMin => {} case LeftOf(t) => {t} case RightOf(t) => {t} }
    {
      match s
      case AtMin => min
      case LeftOf(t) => t.left
      case RightOf(t) => t.right
    }

    method Store(s: Slot, t: Timer?)
      modifies this`min, Owner(s)`left, Owner(s)`right
      ensures min == if s.AtMin? then t else old(min)
      ensures s.LeftOf? ==> s.t.left == t && s.t.right == old(s.t.right)
      ensures s.RightOf? ==> s.t.right == t && s.t.left == old(s.t.left)
    {
      match s
      case AtMin => min := t;
      case LeftOf(u) => u.left := t;
      case RightOf(u) => u.right := t;
    }

    /** The loop that turns a position into a path of left and right turns from the root. */
    method PathTo(position: nat) returns (path: nat, k: nat)
      requires position >= 1
      ensures Walk(1, path, k) == position
    {
      path, k := 0, 0;
      var n := position;
      while n >= 2
        invariant n >= 1 && Walk(n, path, k) == position
      {
        ghost var before := path;
        path := 2 * path + n % 2;
        assert path / 2 == before && path % 2 == n % 2 && 2 * (n / 2) + n % 2 == n;
        k := k + 1;
        n := n / 2;
      }
    }

    /** The loop that follows a path: it ends at the pointer to the target position, and parent is
        the pointer to the position above. */
    method Follow(path: nat, k: nat, ghost target: nat) returns (parent: Slot, child: Slot)
      requires Shape() && 1 <= target <= |nodes| + 1 && Walk(1, path, k) == target
      ensures SlotOf(nodes, child, target)
      ensures SlotOf(nodes, parent, if target == 1 then 1 else target / 2)
    {
      parent, child := AtMin, AtMin;
      var rest, left := path, k;
      ghost var q: nat := 1;
      while left > 0
        invariant q >= 1 && Walk(q, rest, left) == target
        invariant SlotOf(nodes, child, q) && SlotOf(nodes, parent, if q == 1 then 1 else q / 2)
        decreases left
      {
        WalkAhead(q, rest, left);
        SlotLoads(child, q);
        parent := child;
        child := if rest % 2 == 1 then RightOf(Load(child)) else LeftOf(Load(child));
        q := 2 * q + rest % 2;
        rest, left := rest / 2, left - 1;
      }
    }

    lemma {:induction false} SlotLoads(s: Slot, q: nat)
      requires Shape() && SlotOf(nodes, s, q)
      ensures Load(s) == Nth(nodes, q)
    {
      if q >= 2 {
        assert LinkedAt(nodes, q / 2);
      }
    }

    /** The node takes the free slot at the next position. */
    method Hang(t: Timer, parent: Slot, child: Slot)
      requires Shape() && t !in nodes && t.left == null && t.right == null
      requires SlotOf(nodes, child, |nodes| + 1)
      requires SlotOf(nodes, parent, if nodes == [] then 1 else (|nodes| + 1) / 2)
      modifies this, nodes`left, nodes`right, t`parent
      ensures Shape() && nodes == old(nodes) + [t]
    {
      ghost var ns := nodes;
      SlotLoads(parent, if ns == [] then 1 else (|ns| + 1) / 2);
      t.parent := Load(parent);
      Store(child, t);
      nelts := nelts + 1;
      nodes := nodes + [t];
      forall i: nat | 1 <= i <= |ns|
        ensures i != (|ns| + 1) / 2 ==> LinkedAt(ns, i)
        ensures i == (|ns| + 1) / 2 ==> LinkedAt(ns + [t], i)
      {
        assert old(LinkedAt(ns, i));
      }
      AppendLinked(ns, t);
    }

    /** The pointer at the next free position is set to a new node. */
    method Attach(t: Timer)
      requires Shape() && t !in nodes
      modifies this, nodes`left, nodes`right, t`left, t`right, t`parent
      ensures Shape() && nodes == old(nodes) + [t]
    {
      hide LinkedAt;
      t.left, t.right := null, null;
      var path, k := PathTo(1 + nelts);
      var parent, child := Follow(path, k, |nodes| + 1);
      Hang(t, parent, child);
    }

    /** Walk up the tree while the node comes before its parent. */
    method SiftUp(t: Timer, ghost p: nat)
      requires Shape() && 1 <= p <= |nodes| && OrderedBut(nodes, p) && nodes[p - 1] == t
      modifies this`min, this`nodes, nodes`left, nodes`right, nodes`parent
      ensures Valid() && SameNodes(nodes, old(nodes))
    {
      hide Linked, Swapped, InOrder, Spans;
      ghost var x := p;
      ParentOf(nodes, p);
      while t.parent != null && Precedes(t.Key(), t.parent.Key())
        invariant Shape() && SameNodes(nodes, old(nodes))
        invariant 1 <= x <= |nodes| && nodes[x - 1] == t && OrderedBut(nodes, x)
        invariant t.parent == Nth(nodes, x / 2)
        decreases x
      {
        UpStep(nodes, x);
        SwapKeepsNodes(nodes, x);
        assert forall i | 0 <= i < |nodes| :: nodes[i] in old(nodes);
        ghost var ms := Swapped(nodes, x);
        assert OrderedBut(ms, x / 2);
        Swap(t.parent, t, x);
        x := x / 2;
        ParentOf(nodes, x);
      }
      UpStopped(nodes, x);
    }

    /** heap_insert. */
    method Insert(t: Timer)
      requires Valid() && t !in nodes
      modifies this, nodes`left, nodes`right, nodes`parent, t`left, t`right, t`parent
      ensures Valid() && |nodes| == |old(nodes)| + 1
      ensures forall u :: u in nodes <==> u in old(nodes) || u == t
    {
      hide Linked, OrderedBut;
      ghost var ns := nodes;
      Attach(t);
      AppendOrdered(ns, t);
      SiftUp(t, |nodes|);
    }
  
    /** The slot of the last node is cleared. */
    method Unlink(max: Slot) returns (child: Timer)
      requires Shape() && nodes != [] && SlotOf(nodes, max, |nodes|)
      modifies this, nodes`left, nodes`right
      ensures Shape() && nodes == old(nodes[..|nodes| - 1]) && child == old(nodes[|nodes| - 1])
    {
      ghost var ns := nodes;
      ghost var ms := ns[..|ns| - 1];
      SlotLoads(max, |ns|);
      nelts := nelts - 1;
      child := Load(max);
      Store(max, null);
      nodes := ms;
      forall i: nat | 1 <= i <= |ms|
        ensures i != |ns| / 2 ==> LinkedAt(ns, i)
        ensures i == |ns| / 2 ==> LinkedAt(ms, i)
      {
        assert old(LinkedAt(ns, i));
      }
      ChopLinked(ns, ms);
    }

    /** Unlinks the node at the last position. */
    method DetachLast() returns (child: Timer)
      requires Shape() && nodes != []
      modifies this, nodes`left, nodes`right
      ensures Shape() && nodes == old(nodes[..|nodes| - 1]) && child == old(nodes[|nodes| - 1])
    {
      hide LinkedAt;
      var path, k := PathTo(nelts);
      var above, max := Follow(path, k, |nodes|);
      child := Unlink(max);
    }

    /** A detached node takes over the links of the node at position x. */
    method Replace(node: Timer, child: Timer, ghost x: nat)
      requires Shape() && 1 <= x <= |nodes| && node == nodes[x - 1] && child !in nodes
      modifies this`min, this`nodes, nodes`left, nodes`right, nodes`parent, child`left, child`right, child`parent
      ensures Shape() && nodes == old(nodes)[x - 1 := child]
    {
      ghost var ns := nodes;
      assert LinkedAt(ns, x);
      child.left, child.right, child.parent := node.left, node.right, node.parent;
      if child.left != null {
        child.left.parent := child;
      }
      if child.right != null {
        child.right.parent := child;
      }
      if node.parent == null {
        min := child;
      } else if node.parent.left == node {
        node.parent.left := child;
      } else {
        node.parent.right := child;
      }
      nodes := ns[x - 1 := child];
      ReplacedNodes(ns, x, child);
      forall k: nat | 1 <= k <= |nodes| ensures LinkedAt(nodes, k) {
        assert old(LinkedAt(ns, k));
        Elsewhere(ns, x, k);
        ReplacedLinked(ns, x, child, k);
      }
    }
  
    /** Walk down the tree while a child comes before the node; the smaller child moves up. */
    method SiftDown(t: Timer, ghost p: nat) returns (ghost x: nat)
      requires Shape() && 1 <= p <= |nodes| && OrderedAround(nodes, p) && nodes[p - 1] == t
      modifies this`min, this`nodes, nodes`left, nodes`right, nodes`parent
      ensures Shape() && SameNodes(nodes, old(nodes))
      ensures 1 <= x <= |nodes| && nodes[x - 1] == t && OrderedBut(nodes, x)
    {
      hide Linked, Swapped, InOrder, Spans;
      x := p;
      while true
        invariant Shape() && SameNodes(nodes, old(nodes))
        invariant 1 <= x <= |nodes| && nodes[x - 1] == t && OrderedAround(nodes, x)
        decreases |nodes| - x
      {
        ChildrenOf(nodes, x);
        var smallest := t;
        ghost var c := x;
        if t.left != null && Precedes(t.left.Key(), smallest.Key()) {
          smallest, c := t.left, 2 * x;
        }
        if t.right != null && Precedes(t.right.Key(), smallest.Key()) {
          smallest, c := t.right, 2 * x + 1;
        }
        assert forall q: nat | q / 2 == x && q <= |nodes| :: q == 2 * x || q == 2 * x + 1;
        if smallest == t {
          DownStop(nodes, x);
          break;
        }
        DownStep(nodes, x, c);
        SwapKeepsNodes(nodes, c);
        assert forall i | 0 <= i < |nodes| :: nodes[i] in old(nodes);
        ghost var ms := Swapped(nodes, c);
        assert OrderedAround(ms, c);
        Swap(t, smallest, c);
        x := c;
      }
    }

    /** The node at x is replaced by a detached one, which then moves to where it belongs. */
    method Fill(node: Timer, child: Timer, ghost x: nat)
      requires Valid() && 1 <= x <= |nodes| && node == nodes[x - 1] && child !in nodes
      modifies this`min, this`nodes, nodes`left, nodes`right, nodes`parent, child`left, child`right, child`parent
      ensures Valid() && |nodes| == |old(nodes)|
      ensures forall u :: u in nodes <==> u == child || (u in old(nodes) && u != node)
    {
      hide Linked, OrderedBut, OrderedAround, Ordered;
      ghost var ns := nodes;
      ReplacedOrdered(ns, x, child);
      LinkedDistinct(ns);
      ReplacedNodes(ns, x, child);
      Replace(node, child, x);
      assert forall u | u in nodes :: u == child || u in ns;
      ghost var y := SiftDown(child, x);
      assert forall u | u in nodes :: u == child || u in ns;
      forall i | 0 <= i < |nodes| ensures nodes[i] == child || nodes[i] in ns {
        assert nodes[i] in nodes;
      }
      SiftUp(child, y);
    }

    /** heap_remove. */
    method Remove(node: Timer)
      requires Valid() && (nodes != [] ==> node in nodes)
      modifies this, nodes`left, nodes`right, nodes`parent
      ensures Valid() && |nodes| == if |old(nodes)| == 0 then 0 else |old(nodes)| - 1
      ensures forall u :: u in nodes <==> u in old(nodes) && u != node
    {
      hide Linked, Ordered;
      if nelts == 0 {
        return;
      }
      ghost var ns := nodes;
      ghost var ms := ns[..|ns| - 1];
      ChoppedOrdered(ns, ms);
      ChoppedNodes(ns);
      var child := DetachLast();
      if child == node {
        // the source clears min here if it still is this node; unlinking the node has done so
        assert min != child;
        return;
      }
      ghost var i: nat :| i < |ms| && ms[i] == node;
      Fill(node, child, i + 1);
    }
  }

  lemma {:induction false} LinkedDistinct(ns: seq<Timer>)
    requires Linked(ns)
    ensures Distinct(ns)
  {
  }

  lemma {:induction false} ChildrenOf(ns: seq<Timer>, x: nat)
    requires Linked(ns) && 1 <= x <= |ns|
    ensures ns[x - 1].left == Nth(ns, 2 * x) && ns[x - 1].right == Nth(ns, 2 * x + 1)
    ensures ns[x - 1].left != ns[x - 1] && ns[x - 1].right != ns[x - 1]
  {
    assert LinkedAt(ns, x);
  }

  lemma {:induction false} ChoppedNodes(ns: seq<Timer>)
    requires Linked(ns) && ns != []
    ensures ns[|ns| - 1] !in ns[..|ns| - 1] && Distinct(ns[..|ns| - 1])
    ensures forall u :: u in ns[..|ns| - 1] <==> u in ns && u != ns[|ns| - 1]
  {
    assert ns == ns[..|ns| - 1] + [ns[|ns| - 1]];
  }

  ghost predicate SameNodes(ms: seq<Timer>, ns: seq<Timer>) {
    |ms| == |ns| && (forall t | t in ns :: t in ms) && (forall t | t in ms :: t in ns)
  }

  lemma {:induction false} SwapKeepsNodes(ns: seq<Timer>, p: nat)
    requires Linked(ns) && 2 <= p <= |ns|
    ensures SameNodes(Swapped(ns, p), ns) && Swapped(ns, p)[p / 2 - 1] == ns[p - 1] && Swapped(ns, p)[p - 1] == ns[p / 2 - 1]
  {
    SwappedDistinct(ns, p);
  }

  lemma {:induction false} ParentOf(ns: seq<Timer>, p: nat)
    requires Linked(ns) && 1 <= p <= |ns|
    ensures ns[p - 1].parent == Nth(ns, p / 2)
  {
    assert LinkedAt(ns, p);
  }

  lemma {:induction false} UpStopped(ns: seq<Timer>, x: nat)
    requires OrderedBut(ns, x)
    requires x >= 2 ==> !Precedes(ns[x - 1].Key(), ns[x / 2 - 1].Key())
    ensures Ordered(ns)
  {
    UpStop(ns, x);
  }

  lemma {:induction false} AppendOrdered(ns: seq<Timer>, t: Timer)
    requires Ordered(ns)
    ensures OrderedBut(ns + [t], |ns| + 1)
  {
    var ms := ns + [t];
    forall p: nat | 1 <= p <= |ms| && p != |ms| ensures InOrder(ms, p) {
      assert InOrder(ns, p);
    }
  }

  /** A pointer to a pointer: the heap's min field or a child field of a node. */
  datatype Slot = AtMin | LeftOf(t: Timer) | RightOf(t: Timer)

  ghost function Owner(s: Slot): set<Timer> {
    if s.AtMin? then {} else {s.t}
  }

  /** s is the pointer to the node at position q. */
  ghost predicate SlotOf(ns: seq<Timer>, s: Slot, q: nat) {
    if q == 1 then s == AtMin
    else 1 <= q / 2 <= |ns| && s == if q % 2 == 0 then LeftOf(ns[q / 2 - 1]) else RightOf(ns[q / 2 - 1])
  }
}
