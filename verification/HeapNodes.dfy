/** Timers as the nodes of a complete binary tree linked by pointers (heap-inl.h, timer.c). */
module HeapNodes {
  import opened Basics

  datatype Rank = Rank(timeout: nat, startId: nat)

  /** timer_less_than: by timeout, then by the order in which timers were started. */
  predicate Precedes(a: Rank, b: Rank) {
    a.timeout < b.timeout || (a.timeout == b.timeout && a.startId < b.startId)
  }

  /** uv_timer_t with its embedded heap node. */
  class Timer {
    var left: Timer?
    var right: Timer?
    var parent: Timer?
    var timeout: nat
    var startId: nat
    var repeat: nat
    var callback: Option<nat>
    var active: bool
    var closing: bool

    function Key(): Rank
      reads this`timeout, this`startId
    {
      Rank(timeout, startId)
    }
  }

  /** The node at breadth-first position p, counted from 1. */
  ghost function Nth(ns: seq<Timer>, p: int): Timer? {
    if 1 <= p <= |ns| then ns[p - 1] else null
  }

  /** The node at position p points at its neighbours in a complete binary tree. */
  ghost predicate LinkedAt(ns: seq<Timer>, p: nat)
    requires 1 <= p <= |ns|
    reads {ns[p - 1]}`left, {ns[p - 1]}`right, {ns[p - 1]}`parent
  {
    ns[p - 1].left == Nth(ns, 2 * p) && ns[p - 1].right == Nth(ns, 2 * p + 1) && ns[p - 1].parent == Nth(ns, p / 2)
  }

  ghost predicate Linked(ns: seq<Timer>)
    reads ns`left, ns`right, ns`parent
  {
    Distinct(ns) && forall p: nat | 1 <= p <= |ns| :: LinkedAt(ns, p)
  }

  ghost function Swapped(ns: seq<Timer>, p: nat): (r: seq<Timer>)
    requires 2 <= p <= |ns|
    ensures |r| == |ns|
  {
    ns[p - 1 := ns[p / 2 - 1]][p / 2 - 1 := ns[p - 1]]
  }

  lemma {:induction false} ChildrenAfter(ns: seq<Timer>, p: nat, k: nat)
    requires Distinct(ns) && 2 <= p <= |ns| && 1 <= k <= |ns|
    requires k == p ==> ns[k - 1].left == (if p % 2 == 0 then ns[p / 2 - 1] else Nth(ns, p - 1))
    requires k == p ==> ns[k - 1].right == (if p % 2 == 0 then Nth(ns, p + 1) else ns[p / 2 - 1])
    requires k == p / 2 ==> ns[k - 1].left == Nth(ns, 2 * p) && ns[k - 1].right == Nth(ns, 2 * p + 1)
    requires k == p / 2 / 2 ==> ns[k - 1].left == (if p / 2 % 2 == 0 then ns[p - 1] else Nth(ns, p / 2 - 1))
    requires k == p / 2 / 2 ==> ns[k - 1].right == (if p / 2 % 2 == 0 then Nth(ns, p / 2 + 1) else ns[p - 1])
    requires k != p && k != p / 2 && k != p / 2 / 2 ==> ns[k - 1].left == Nth(ns, 2 * k) && ns[k - 1].right == Nth(ns, 2 * k + 1)
    ensures ChildrenSwapped(ns, p, k)
  {
  }

  lemma {:induction false} ParentAfter(ns: seq<Timer>, p: nat, k: nat)
    requires Distinct(ns) && 2 <= p <= |ns| && 1 <= k <= |ns|
    requires k == p ==> ns[k - 1].parent == Nth(ns, p / 2 / 2)
    requires k == p / 2 || k == p + 1 - 2 * (p % 2) ==> ns[k - 1].parent == ns[p - 1]
    requires k == 2 * p || k == 2 * p + 1 ==> ns[k - 1].parent == ns[p / 2 - 1]
    requires k != p && k != p / 2 && k != p + 1 - 2 * (p % 2) && k != 2 * p && k != 2 * p + 1 ==> ns[k - 1].parent == Nth(ns, k / 2)
    ensures ParentSwapped(ns, p, k)
  {
  }

  /** Where the children of the node that was at position k are after the swap at p. */
  ghost predicate ChildrenSwapped(ns: seq<Timer>, p: nat, k: nat)
    requires 2 <= p <= |ns| && 1 <= k <= |ns|
    reads ns[k - 1]
  {
    var y, parent, child, t := p / 2, ns[p / 2 - 1], ns[p - 1], ns[k - 1];
    if k == p then t.left == (if p % 2 == 0 then parent else Nth(ns, p - 1)) && t.right == (if p % 2 == 0 then Nth(ns, p + 1) else parent)
    else if k == y then t.left == Nth(ns, 2 * p) && t.right == Nth(ns, 2 * p + 1)
    else if k == y / 2 then t.left == (if y % 2 == 0 then child else Nth(ns, y - 1)) && t.right == (if y % 2 == 0 then Nth(ns, y + 1) else child)
    else t.left == Nth(ns, 2 * k) && t.right == Nth(ns, 2 * k + 1)
  }

  /** Where its parent is. */
  ghost predicate ParentSwapped(ns: seq<Timer>, p: nat, k: nat)
    requires 2 <= p <= |ns| && 1 <= k <= |ns|
    reads ns[k - 1]
  {
    var y, parent, child, t := p / 2, ns[p / 2 - 1], ns[p - 1], ns[k - 1];
    t.parent ==
      if k == p then Nth(ns, y / 2)
      else if k == y then child
      else if k / 2 == y then child
      else if k / 2 == p then parent
      else Nth(ns, k / 2)
  }

  /** A node elsewhere in the tree is none of those around p. */
  lemma {:induction false} Different(ns: seq<Timer>, p: nat, k: nat)
    requires Distinct(ns) && 2 <= p <= |ns| && 1 <= k <= |ns|
    ensures ns[k - 1] == Nth(ns, p) <==> k == p
    ensures ns[k - 1] == Nth(ns, p / 2) <==> k == p / 2
    ensures ns[k - 1] == Nth(ns, p / 2 / 2) <==> k == p / 2 / 2
    ensures ns[k - 1] == Nth(ns, p + 1 - 2 * (p % 2)) <==> k == p + 1 - 2 * (p % 2)
    ensures ns[k - 1] == Nth(ns, 2 * p) <==> k == 2 * p
    ensures ns[k - 1] == Nth(ns, 2 * p + 1) <==> k == 2 * p + 1
  {
  }

  lemma {:induction false} SwappedNth(ns: seq<Timer>, p: nat, k: int)
    requires 2 <= p <= |ns|
    ensures Nth(Swapped(ns, p), k) == if k == p then ns[p / 2 - 1] else if k == p / 2 then ns[p - 1] else Nth(ns, k)
  {
  }

  lemma {:induction false} RelinkedAt(ns: seq<Timer>, p: nat, q: nat)
    requires Distinct(ns) && 2 <= p <= |ns| && 1 <= q <= |ns|
    requires forall k: nat | 1 <= k <= |ns| :: ChildrenSwapped(ns, p, k) && ParentSwapped(ns, p, k)
    ensures LinkedAt(Swapped(ns, p), q)
  {
    hide Swapped;
    var k := if q == p then p / 2 else if q == p / 2 then p else q;
    assert ChildrenSwapped(ns, p, k) && ParentSwapped(ns, p, k);
    SwappedNth(ns, p, q);
    SwappedNth(ns, p, 2 * q);
    SwappedNth(ns, p, 2 * q + 1);
    SwappedNth(ns, p, q / 2);
  }

  /** The nodes around the child at position p and its parent, and that they are different ones. */
  lemma {:induction false} Neighbours(ns: seq<Timer>, p: nat)
    requires Linked(ns) && 2 <= p <= |ns|
    ensures var y, parent, child := p / 2, ns[p / 2 - 1], ns[p - 1];
      var sibling, g, l, r := Nth(ns, p + 1 - 2 * (p % 2)), Nth(ns, y / 2), Nth(ns, 2 * p), Nth(ns, 2 * p + 1);
      && parent.left == (if p % 2 == 0 then child else sibling) && parent.right == (if p % 2 == 0 then sibling else child)
      && parent.parent == g && child.parent == parent && child.left == l && child.right == r
      && parent != child && parent.left != parent.right
      && g != parent && g != child && (sibling != null ==> sibling !in {parent, child} && sibling != l && sibling != r)
      && l != child && r != child && l != parent && r != parent
      && Opt(g) + Opt(sibling) + Opt(l) + Opt(r) <= set t | t in ns
      && (g != null ==> g.left == (if y % 2 == 0 then parent else Nth(ns, y - 1)) && g.right == (if y % 2 == 0 then Nth(ns, y + 1) else parent))
      && (g != null && y % 2 == 1 ==> g.left != parent)
  {
    assert LinkedAt(ns, p) && LinkedAt(ns, p / 2);
    if p / 2 / 2 >= 1 {
      assert LinkedAt(ns, p / 2 / 2);
    }
  }

  lemma {:induction false} SwappedDistinct(ns: seq<Timer>, p: nat)
    requires Distinct(ns) && 2 <= p <= |ns|
    ensures Distinct(Swapped(ns, p)) && |Swapped(ns, p)| == |ns|
    ensures forall t :: t in Swapped(ns, p) <==> t in ns
  {
    var ms := Swapped(ns, p);
    forall t ensures t in ms <==> t in ns {
      assert ms[p - 1] == ns[p / 2 - 1] && ms[p / 2 - 1] == ns[p - 1];
      assert forall i | 0 <= i < |ns| && i != p - 1 && i != p / 2 - 1 :: ms[i] == ns[i];
    }
  }

  ghost function Opt(t: Timer?): set<Timer> {
    if t == null then {} else {t}
  }

  /** Where following k bits of path, lowest first, leads from position q: 0 is left, 1 is right. */
  function Walk(q: nat, path: nat, k: nat): nat
    decreases k
  {
    if k == 0 then q else Walk(2 * q + path % 2, path / 2, k - 1)
  }

  lemma {:induction false} WalkAhead(q: nat, path: nat, k: nat)
    ensures Walk(q, path, k) >= q
    ensures k > 0 ==> Walk(q, path, k) >= 2 * q
    decreases k
  {
    if k > 0 {
      WalkAhead(2 * q + path % 2, path / 2, k - 1);
    }
  }

  /** One more node at the end of the bottom row. */
  lemma {:induction false} AppendedNth(ns: seq<Timer>, t: Timer, k: int)
    ensures Nth(ns + [t], k) == if k == |ns| + 1 then t else Nth(ns, k)
  {
  }

  /** The tree grows by the node at the next position, linked to its parent. */
  lemma {:induction false} AppendLinked(ns: seq<Timer>, t: Timer)
    requires Distinct(ns) && t !in ns && t.left == null && t.right == null
    requires t.parent == Nth(ns, (|ns| + 1) / 2)
    requires forall k: nat | 1 <= k <= |ns| && k != (|ns| + 1) / 2 :: LinkedAt(ns, k)
    requires forall k: nat | 1 <= k <= |ns| && k == (|ns| + 1) / 2 :: LinkedAt(ns + [t], k)
    ensures Linked(ns + [t])
  {
    var n := |ns| + 1;
    forall q: nat | 1 <= q <= n ensures LinkedAt(ns + [t], q) {
      AppendedNth(ns, t, 2 * q);
      AppendedNth(ns, t, 2 * q + 1);
      AppendedNth(ns, t, q / 2);
      if q < n && q != n / 2 {
        assert LinkedAt(ns, q);
      }
    }
  }

  /** Without its last node. */
  lemma {:induction false} ChoppedNth(ns: seq<Timer>, k: int)
    requires ns != []
    ensures Nth(ns[..|ns| - 1], k) == if k == |ns| then null else Nth(ns, k)
  {
  }

  lemma {:induction false} ChopLinked(ns: seq<Timer>, ms: seq<Timer>)
    requires ns != [] && Distinct(ns) && ms == ns[..|ns| - 1]
    requires forall k: nat | 1 <= k <= |ms| && k != |ns| / 2 :: LinkedAt(ns, k)
    requires forall k: nat | 1 <= k <= |ms| && k == |ns| / 2 :: LinkedAt(ms, k)
    ensures Linked(ms)
  {
    forall q: nat | 1 <= q <= |ms| ensures LinkedAt(ms, q) {
      ChoppedNth(ns, 2 * q);
      ChoppedNth(ns, 2 * q + 1);
      ChoppedNth(ns, q / 2);
      if q != |ns| / 2 {
        assert LinkedAt(ns, q);
      }
    }
  }

  lemma {:induction false} ReplacedNth(ns: seq<Timer>, x: nat, t: Timer, k: int)
    requires 1 <= x <= |ns|
    ensures Nth(ns[x - 1 := t], k) == if k == x then t else Nth(ns, k)
  {
  }

  lemma {:induction false} ReplacedNodes(ns: seq<Timer>, x: nat, t: Timer)
    requires Distinct(ns) && 1 <= x <= |ns| && t !in ns
    ensures Distinct(ns[x - 1 := t])
    ensures forall u :: u in ns[x - 1 := t] <==> u == t || (u in ns && u != ns[x - 1])
  {
    var ms := ns[x - 1 := t];
    forall u ensures u in ms <==> u == t || (u in ns && u != ns[x - 1]) {
      assert ms[x - 1] == t && forall i | 0 <= i < |ns| && i != x - 1 :: ms[i] == ns[i];
    }
  }

  /** A node elsewhere in the tree is none of those around x. */
  lemma {:induction false} Elsewhere(ns: seq<Timer>, x: nat, k: nat)
    requires Distinct(ns) && 1 <= x <= |ns| && 1 <= k <= |ns|
    ensures ns[k - 1] == Nth(ns, x) <==> k == x
    ensures ns[k - 1] == Nth(ns, x / 2) <==> k == x / 2
    ensures ns[k - 1] == Nth(ns, 2 * x) <==> k == 2 * x
    ensures ns[k - 1] == Nth(ns, 2 * x + 1) <==> k == 2 * x + 1
  {
  }

  /** The links of every node once t has taken the place of the node at x. */
  lemma {:induction false} ReplacedLinked(ns: seq<Timer>, x: nat, t: Timer, k: nat)
    requires 1 <= x <= |ns| && 1 <= k <= |ns|
    requires k == x ==> t.left == Nth(ns, 2 * x) && t.right == Nth(ns, 2 * x + 1) && t.parent == Nth(ns, x / 2)
    requires k != x ==> ns[k - 1].parent == if k / 2 == x then t else Nth(ns, k / 2)
    requires k != x ==> ns[k - 1].left == if 2 * k == x then t else Nth(ns, 2 * k)
    requires k != x ==> ns[k - 1].right == if 2 * k + 1 == x then t else Nth(ns, 2 * k + 1)
    ensures LinkedAt(ns[x - 1 := t], k)
  {
    ReplacedNth(ns, x, t, 2 * k);
    ReplacedNth(ns, x, t, 2 * k + 1);
    ReplacedNth(ns, x, t, k / 2);
  }
}
