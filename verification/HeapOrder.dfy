/** The order the heap keeps, by breadth-first position (heap-inl.h). */
module HeapOrder {
  import opened HeapNodes

  /** The node at position p does not come before its parent. */
  ghost predicate InOrder(ns: seq<Timer>, p: nat)
    requires 1 <= p <= |ns|
    reads ns`timeout, ns`startId
  {
    p >= 2 ==> !Precedes(ns[p - 1].Key(), ns[p / 2 - 1].Key())
  }

  ghost predicate Ordered(ns: seq<Timer>)
    reads ns`timeout, ns`startId
  {
    forall p: nat | 1 <= p <= |ns| :: InOrder(ns, p)
  }

  /** The node at position p does not come before its grandparent. */
  ghost predicate Spans(ns: seq<Timer>, p: nat)
    requires 1 <= p <= |ns|
    reads ns`timeout, ns`startId
  {
    p / 2 >= 2 ==> !Precedes(ns[p - 1].Key(), ns[p / 2 / 2 - 1].Key())
  }

  /** In order but for the node at x, which may have to move up. */
  ghost predicate OrderedBut(ns: seq<Timer>, x: nat)
    reads ns`timeout, ns`startId
  {
    && 1 <= x <= |ns|
    && (forall p: nat | 1 <= p <= |ns| && p != x :: InOrder(ns, p))
    && (forall p: nat | 1 <= p <= |ns| && p / 2 == x :: Spans(ns, p))
  }

  /** In order but for the edges at x: its node may have to move either way. */
  ghost predicate OrderedAround(ns: seq<Timer>, x: nat)
    reads ns`timeout, ns`startId
  {
    && 1 <= x <= |ns|
    && (forall p: nat | 1 <= p <= |ns| && p != x && p / 2 != x :: InOrder(ns, p))
    && (forall p: nat | 1 <= p <= |ns| && p / 2 == x :: Spans(ns, p))
  }

  lemma {:induction false} SwappedKey(ns: seq<Timer>, x: nat, p: nat)
    requires 2 <= x <= |ns| && 1 <= p <= |ns|
    ensures Swapped(ns, x)[p - 1] == if p == x then ns[x / 2 - 1] else if p == x / 2 then ns[x - 1] else ns[p - 1]
  {
  }

  /** A node that comes before its parent moves up. */
  lemma {:induction false} UpStep(ns: seq<Timer>, x: nat)
    requires 2 <= x && OrderedBut(ns, x) && Precedes(ns[x - 1].Key(), ns[x / 2 - 1].Key())
    ensures OrderedBut(Swapped(ns, x), x / 2)
  {
    hide Swapped;
    var ms, y := Swapped(ns, x), x / 2;
    SwappedKey(ns, x, x);
    SwappedKey(ns, x, y);
    forall p: nat | 1 <= p <= |ms|
      ensures p != y ==> InOrder(ms, p)
      ensures p / 2 == y ==> Spans(ms, p)
    {
      SwappedKey(ns, x, p);
      if p >= 2 {
        SwappedKey(ns, x, p / 2);
        assert p != x ==> InOrder(ns, p);
        assert p / 2 == x ==> Spans(ns, p);
      }
      if y >= 2 {
        SwappedKey(ns, x, y / 2);
        assert InOrder(ns, y);
      }
    }
  }

  /** The smaller child of a node that comes after it moves up instead. */
  lemma {:induction false} DownStep(ns: seq<Timer>, x: nat, c: nat)
    requires OrderedAround(ns, x) && c / 2 == x && c <= |ns| && Precedes(ns[c - 1].Key(), ns[x - 1].Key())
    requires forall p: nat | p / 2 == x && p <= |ns| :: !Precedes(ns[p - 1].Key(), ns[c - 1].Key())
    ensures OrderedAround(Swapped(ns, c), c)
  {
    hide Swapped;
    var ms := Swapped(ns, c);
    SwappedKey(ns, c, c);
    SwappedKey(ns, c, x);
    forall p: nat | 1 <= p <= |ms|
      ensures p != c && p / 2 != c ==> InOrder(ms, p)
      ensures p / 2 == c ==> Spans(ms, p)
    {
      SwappedKey(ns, c, p);
      if p >= 2 {
        SwappedKey(ns, c, p / 2);
        assert p != x && p / 2 != x ==> InOrder(ns, p);
      }
      if p == x && x >= 2 {
        assert Spans(ns, c);
      }
    }
  }

  /** With no child before it, the node has at most to move up. */
  lemma {:induction false} DownStop(ns: seq<Timer>, x: nat)
    requires OrderedAround(ns, x)
    requires forall p: nat | p / 2 == x && p <= |ns| :: !Precedes(ns[p - 1].Key(), ns[x - 1].Key())
    ensures OrderedBut(ns, x)
  {
    forall p: nat | 1 <= p <= |ns| && p != x ensures InOrder(ns, p) {
    }
  }

  lemma {:induction false} UpStop(ns: seq<Timer>, x: nat)
    requires OrderedBut(ns, x) && InOrder(ns, x)
    ensures Ordered(ns)
  {
  }

  /** In an ordered heap nothing comes before the root. */
  lemma {:induction false} RootIsLeast(ns: seq<Timer>, p: nat)
    requires Ordered(ns) && 1 <= p <= |ns|
    ensures !Precedes(ns[p - 1].Key(), ns[0].Key())
    decreases p
  {
    if p >= 2 {
      RootIsLeast(ns, p / 2);
      assert InOrder(ns, p);
    }
  }

  lemma {:induction false} ChoppedOrdered(ns: seq<Timer>, ms: seq<Timer>)
    requires Ordered(ns) && ns != [] && ms == ns[..|ns| - 1]
    ensures Ordered(ms)
  {
    forall p: nat | 1 <= p <= |ms| ensures InOrder(ms, p) {
      assert InOrder(ns, p);
    }
  }

  /** Any node may take the place of the one at x: only the edges at x are then in doubt. */
  lemma {:induction false} ReplacedOrdered(ns: seq<Timer>, x: nat, t: Timer)
    requires Ordered(ns) && 1 <= x <= |ns|
    ensures OrderedAround(ns[x - 1 := t], x)
  {
    var ms := ns[x - 1 := t];
    forall p: nat | 1 <= p <= |ms|
      ensures p != x && p / 2 != x ==> InOrder(ms, p)
      ensures p / 2 == x ==> Spans(ms, p)
    {
      assert InOrder(ns, p);
      if p / 2 == x {
        assert InOrder(ns, x);
      }
    }
  }
}
