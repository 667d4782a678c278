/** Merging sorted sources into one cursor (table/merger.cc). */
module Merging {
  import opened Basics
  import opened InternalKeys
  import opened Cursors

  /** u lists the items of all sources in order. */
  ghost predicate Covers<V>(u: seq<Item<V>>, items: seq<Item<V>>) {
    forall j | 0 <= j < |items| :: items[j] in u
  }

  ghost predicate IsUnion<V>(u: seq<Item<V>>, sources: seq<seq<Item<V>>>) {
    && Sorted(u)
    && (forall k | 0 <= k < |sources| :: Sorted(sources[k]) && Covers(u, sources[k]))
    && (forall p | 0 <= p < |u| :: Held(sources, u[p]))
    && (forall k, l | 0 <= k < l < |sources| :: NoSharedKey(sources[k], sources[l]))
  }

  ghost predicate Held<V>(sources: seq<seq<Item<V>>>, x: Item<V>) {
    exists k :: 0 <= k < |sources| && x in sources[k]
  }

  ghost predicate NoSharedKey<V>(a: seq<Item<V>>, b: seq<Item<V>>) {
    forall i, j | 0 <= i < |a| && 0 <= j < |b| :: a[i].key != b[j].key
  }

  /** x comes before position p of the union. */
  ghost predicate Below<V>(u: seq<Item<V>>, p: int, x: IKey) {
    p >= |u| || (p >= 0 && Before(x, u[p].key))
  }

  /** A source moving forward stands on its first item at or after position p of the union. */
  ghost predicate AheadOf<V>(u: seq<Item<V>>, p: int, items: seq<Item<V>>, at: nat) {
    at <= |items| && forall j: nat | j < |items| :: j < at <==> Below(u, p, items[j].key)
  }

  /** A source moving backward stands on its last item before position p, or is not valid. */
  ghost predicate BehindOf<V>(u: seq<Item<V>>, p: int, items: seq<Item<V>>, at: nat) {
    at <= |items| && forall j: nat | j < |items| :: (at < |items| && j <= at) <==> Below(u, p, items[j].key)
  }

  /** One step along the union passes exactly one key. */
  lemma {:induction false} BelowStep<V>(u: seq<Item<V>>, p: nat, x: Item<V>)
    requires Sorted(u) && p < |u| && x in u
    ensures Below(u, p + 1, x.key) <==> Below(u, p, x.key) || x.key == u[p].key
  {
    var q :| 0 <= q < |u| && u[q] == x;
    assert q < p ==> Before(x.key, u[p].key);
    assert q == p || q < p || Before(u[p].key, x.key);
    if p + 1 < |u| {
      assert Before(u[p].key, u[p + 1].key);
      assert q > p + 1 ==> Before(u[p + 1].key, x.key);
    }
  }

  lemma {:induction false} AheadStep<V>(u: seq<Item<V>>, p: nat, items: seq<Item<V>>, at: nat, mine: bool)
    requires Sorted(u) && p < |u| && Sorted(items) && Covers(u, items)
    requires AheadOf(u, p, items, at)
    requires mine ==> at < |items| && items[at] == u[p]
    requires !mine ==> forall j | 0 <= j < |items| :: items[j].key != u[p].key
    ensures AheadOf(u, p + 1, items, if mine then at + 1 else at)
  {
    hide Below;
    forall j: nat | j < |items|
      ensures j < (if mine then at + 1 else at) <==> Below(u, p + 1, items[j].key)
    {
      BelowStep(u, p, items[j]);
      if mine && items[j].key == u[p].key {
        KeysDiffer(items, j, at);
      }
    }
  }

  lemma {:induction false} BehindStep<V>(u: seq<Item<V>>, p: nat, items: seq<Item<V>>, at: nat, mine: bool)
    requires Sorted(u) && p < |u| && Sorted(items) && Covers(u, items)
    requires BehindOf(u, p + 1, items, at)
    requires mine ==> at < |items| && items[at] == u[p]
    requires !mine ==> forall j | 0 <= j < |items| :: items[j].key != u[p].key
    ensures BehindOf(u, p, items, StepBack(|items|, at, mine))
  {
    hide Below;
    forall j: nat | j < |items|
      ensures Below(u, p + 1, items[j].key) <==> Below(u, p, items[j].key) || (mine && j == at)
      ensures mine && j == at ==> !Below(u, p, items[j].key)
    {
      BelowStep(u, p, items[j]);
      if mine && items[j].key == u[p].key {
        KeysDiffer(items, j, at);
        NotBelowItself(u, p);
      }
    }
  }

  lemma {:induction false} NotBelowItself<V>(u: seq<Item<V>>, p: nat)
    requires p < |u|
    ensures !Below(u, p, u[p].key)
  {
  }

  /** An item at or after position p that nothing at or after p precedes is the item at p. */
  lemma {:induction false} LeastIsAtCut<V>(u: seq<Item<V>>, p: nat, x: Item<V>)
    requires Sorted(u) && p < |u| && x in u
    requires !Below(u, p, x.key) && !Before(u[p].key, x.key)
    ensures x == u[p]
  {
    var q :| 0 <= q < |u| && u[q] == x;
  }

  lemma {:induction false} GreatestIsBeforeCut<V>(u: seq<Item<V>>, p: nat, x: Item<V>)
    requires Sorted(u) && 0 < p <= |u| && x in u
    requires Below(u, p, x.key) && !Before(x.key, u[p - 1].key)
    ensures x == u[p - 1]
  {
    var q :| 0 <= q < |u| && u[q] == x;
  }

  lemma {:induction false} BelowIndex<V>(u: seq<Item<V>>, p: nat, q: nat)
    requires Sorted(u) && q < |u|
    ensures Below(u, p, u[q].key) <==> q < p
  {
  }

  /** Seeking the union and seeking a source to the same target agree. */
  lemma {:induction false} SeekAhead<V>(u: seq<Item<V>>, items: seq<Item<V>>, target: IKey)
    requires Sorted(u) && Sorted(items) && Covers(u, items)
    ensures AheadOf(u, FirstAtOrAfter(u, target), items, FirstAtOrAfter(items, target))
  {
    hide Below, FirstAtOrAfter;
    var p := FirstAtOrAfter(u, target);
    forall j: nat | j < |items|
      ensures j < FirstAtOrAfter(items, target) <==> Below(u, p, items[j].key)
    {
      SeekSplits(items, target, j);
      var q: nat :| q < |u| && u[q] == items[j];
      BelowIndex(u, p, q);
      SeekSplits(u, target, q);
    }
  }

  lemma {:induction false} SeekOwnKey<V>(u: seq<Item<V>>, p: nat)
    requires Sorted(u) && p < |u|
    ensures FirstAtOrAfter(u, u[p].key) == p
  {
    var i := FirstAtOrAfter(u, u[p].key);
    SeekSplits(u, u[p].key, p);
    if i < |u| {
      SeekSplits(u, u[p].key, i);
    }
    if p > 0 {
      SeekSplits(u, u[p].key, p - 1);
    }
  }

  /** A source that holds the item at p and stands on it is ahead of p and behind p + 1. */
  lemma {:induction false} StandsOn<V>(u: seq<Item<V>>, p: nat, items: seq<Item<V>>, at: nat)
    requires Sorted(u) && p < |u| && Sorted(items) && Covers(u, items)
    requires at < |items| && items[at] == u[p]
    ensures AheadOf(u, p, items, at) && BehindOf(u, p + 1, items, at)
  {
    hide Below;
    forall j: nat | j < |items|
      ensures j < at <==> Below(u, p, items[j].key)
      ensures j <= at <==> Below(u, p + 1, items[j].key)
    {
      var q: nat :| q < |u| && u[q] == items[j];
      BelowIndex(u, p, q);
      BelowIndex(u, p + 1, q);
      if j != at {
        SortedAt(items, if j < at then j else at, if j < at then at else j);
        SortedEither(u, p, q);
      }
    }
  }

  lemma {:induction false} SortedEither<V>(u: seq<Item<V>>, p: nat, q: nat)
    requires Sorted(u) && p < |u| && q < |u|
    ensures p < q <==> Before(u[p].key, u[q].key)
    ensures q < p <==> Before(u[q].key, u[p].key)
  {
  }

  /** Ahead of p, one step back is behind p. */
  lemma {:induction false} AheadToBehind<V>(u: seq<Item<V>>, p: nat, items: seq<Item<V>>, at: nat)
    requires AheadOf(u, p, items, at)
    ensures BehindOf(u, p, items, if at == 0 then |items| else at - 1)
  {
    hide Below;
  }

  class MergingIterator<V> {
    const children: seq<Cursor<V>>
    var current: Option<nat>
    var forward: bool
    /** the sorted union of the children, and where this iterator stands in it */
    ghost const union: seq<Item<V>>
    ghost var pos: nat

    ghost function Sources(): (r: seq<seq<Item<V>>>)
      ensures |r| == |children| && forall k | 0 <= k < |r| :: r[k] == children[k].items
    {
      seq(|children|, k requires 0 <= k < |children| => children[k].items)
    }

    ghost predicate Shape()
      reads children
    {
      && (forall i, j | 0 <= i < j < |children| :: children[i] != children[j])
      && IsUnion(union, Sources())
      && (forall k | 0 <= k < |children| :: children[k].Ok())
    }

    ghost predicate AllAhead(p: nat)
      reads children
    {
      forall k | 0 <= k < |children| :: AheadOf(union, p, children[k].items, children[k].at)
    }

    ghost predicate AllBehind(p: nat)
      reads children
    {
      forall k | 0 <= k < |children| :: BehindOf(union, p, children[k].items, children[k].at)
    }

    /** The current child is the one that holds the item at pos. */
    ghost predicate Standing()
      reads this, children
    {
      if current.None? then pos == |union|
      else
        && pos < |union| && current.value < |children|
        && children[current.value].Valid() && children[current.value].items[children[current.value].at] == union[pos]
    }

    ghost predicate Ok()
      reads this, children
    {
      && Shape() && Standing()
      && (current.Some? ==> if forward then AllAhead(pos) else AllBehind(pos + 1))
    }

    constructor (children: seq<Cursor<V>>, ghost union: seq<Item<V>>)
      requires forall i, j | 0 <= i < j < |children| :: children[i] != children[j]
      requires forall k | 0 <= k < |children| :: children[k].Ok()
      requires IsUnion(union, seq(|children|, k requires 0 <= k < |children| => children[k].items))
      ensures Ok() && this.children == children && this.union == union && pos == |union|
    {
      this.children, this.union := children, union;
      current, forward, pos := None, true, |union|;
      new;
      assert Sources() == seq(|children|, k requires 0 <= k < |children| => children[k].items);
    }

    predicate Valid()
      reads this
    {
      current.Some?
    }

    function Key(): (k: IKey)
      requires Standing() && Valid()
      reads this, children
      ensures k == union[pos].key
    {
      children[current.value].Key()
    }

    function Value(): (v: V)
      requires Standing() && Valid()
      reads this, children
      ensures v == union[pos].value
    {
      children[current.value].Value()
    }

    lemma {:induction false} ChildFacts(k: nat)
      requires Shape() && k < |children|
      ensures Sorted(children[k].items) && Covers(union, children[k].items) && Sorted(union)
    {
      assert Sources()[k] == children[k].items;
    }

    /** The child that holds the item at position p stands on it. */
    lemma {:induction false} HolderStandsOnCut(p: nat) returns (k: nat)
      requires Shape() && AllAhead(p) && p < |union|
      ensures k < |children| && children[k].Valid() && children[k].items[children[k].at] == union[p]
    {
      hide Below, Sorted, Covers, NoSharedKey;
      assert Held(Sources(), union[p]);
      k :| 0 <= k < |Sources()| && union[p] in Sources()[k];
      ChildFacts(k);
      var c := children[k];
      var j: nat :| j < |c.items| && c.items[j] == union[p];
      NotBelowItself(union, p);
      assert AheadOf(union, p, c.items, c.at);
      if c.at < j {
        AheadMember(union, p, c.items, c.at);
        SortedAt(c.items, c.at, j);
        var x := c.items[c.at];
        LeastIsAtCut(union, p, x);
      }
    }

    /** FindSmallest: the first child with the smallest key. */
    method FindSmallest(ghost p: nat)
      requires Shape() && p <= |union| && AllAhead(p)
      modifies this`current, this`pos
      ensures Shape() && AllAhead(p) && Standing() && pos == p
    {
      hide IsUnion, AheadOf;
      var smallest: Option<nat> := None;
      for i := 0 to |children|
        invariant smallest.Some? ==> smallest.value < i && children[smallest.value].Valid()
        invariant forall k | 0 <= k < i && children[k].Valid() ::
            smallest.Some? && !Before(children[k].Key(), children[smallest.value].Key())
      {
        if children[i].Valid() {
          if smallest.None? || Before(children[i].Key(), children[smallest.value].Key()) {
            smallest := Some(i);
          }
        }
      }
      current, pos := smallest, p;
      if p < |union| {
        var k := HolderStandsOnCut(p);
        ChildFacts(smallest.value);
        AheadMember(union, p, children[smallest.value].items, children[smallest.value].at);
        LeastIsAtCut(union, p, children[smallest.value].items[children[smallest.value].at]);
      } else if smallest.Some? {
        ChildFacts(smallest.value);
        AheadMember(union, p, children[smallest.value].items, children[smallest.value].at);
      }
    }
  
    /** The child that holds the item before the cut stands on it. */
    lemma {:induction false} HolderStandsBeforeCut(p: nat) returns (k: nat)
      requires Shape() && AllBehind(p) && 0 < p <= |union|
      ensures k < |children| && children[k].Valid() && children[k].items[children[k].at] == union[p - 1]
    {
      hide Below, Sorted, Covers, NoSharedKey;
      assert Held(Sources(), union[p - 1]);
      k :| 0 <= k < |Sources()| && union[p - 1] in Sources()[k];
      ChildFacts(k);
      var c := children[k];
      var j: nat :| j < |c.items| && c.items[j] == union[p - 1];
      BelowIndex(union, p, p - 1);
      assert BehindOf(union, p, c.items, c.at);
      if j < c.at {
        BehindMember(union, p, c.items, c.at);
        SortedAt(c.items, j, c.at);
        GreatestIsBeforeCut(union, p, c.items[c.at]);
      }
    }

    /** FindLargest: the last child with the largest key. */
    method FindLargest(ghost p: nat)
      requires Shape() && p <= |union| && AllBehind(p)
      modifies this`current, this`pos
      ensures Shape() && AllBehind(p) && Standing() && pos == if p == 0 then |union| else p - 1
    {
      hide IsUnion, BehindOf;
      var largest: Option<nat> := None;
      for i := |children| downto 0
        invariant largest.Some? ==> i <= largest.value < |children| && children[largest.value].Valid()
        invariant forall k | i <= k < |children| && children[k].Valid() ::
            largest.Some? && !Before(children[largest.value].Key(), children[k].Key())
      {
        if children[i].Valid() {
          if largest.None? || Before(children[largest.value].Key(), children[i].Key()) {
            largest := Some(i);
          }
        }
      }
      current, pos := largest, if p == 0 then |union| else p - 1;
      if p > 0 {
        var k := HolderStandsBeforeCut(p);
        ChildFacts(largest.value);
        BehindMember(union, p, children[largest.value].items, children[largest.value].at);
        GreatestIsBeforeCut(union, p, children[largest.value].items[children[largest.value].at]);
      } else if largest.Some? {
        ChildFacts(largest.value);
        BehindMember(union, p, children[largest.value].items, children[largest.value].at);
        NothingBelowZero(union, children[largest.value].items[children[largest.value].at]);
      }
    }

    method SeekToFirst()
      requires Ok()
      modifies this, children
      ensures Ok() && pos == 0
    {
      hide IsUnion, AheadOf;
      for i := 0 to |children|
        invariant Shape()
        invariant forall k | 0 <= k < i :: AheadOf(union, 0, children[k].items, children[k].at)
      {
        children[i].SeekToFirst();
        ChildFacts(i);
        FirstIsAhead(union, children[i].items);
      }
      FindSmallest(0);
      forward := true;
    }

    method SeekToLast()
      requires Ok()
      modifies this, children
      ensures Ok() && pos == if |union| == 0 then 0 else |union| - 1
    {
      hide IsUnion, BehindOf;
      for i := 0 to |children|
        invariant Shape()
        invariant forall k | 0 <= k < i :: BehindOf(union, |union|, children[k].items, children[k].at)
      {
        children[i].SeekToLast();
        ChildFacts(i);
        LastIsBehind(union, children[i].items);
      }
      FindLargest(|union|);
      forward := false;
    }

    method Seek(target: IKey)
      requires Ok()
      modifies this, children
      ensures Ok() && pos == FirstAtOrAfter(union, target)
    {
      hide IsUnion, AheadOf, FirstAtOrAfter;
      for i := 0 to |children|
        invariant Shape()
        invariant forall k | 0 <= k < i ::
            AheadOf(union, FirstAtOrAfter(union, target), children[k].items, children[k].at)
      {
        children[i].Seek(target);
        ChildFacts(i);
        SeekAhead(union, children[i].items, target);
      }
      FindSmallest(FirstAtOrAfter(union, target));
      forward := true;
    }

    /** No other child holds the current key. */
    lemma {:induction false} KeyHeldOnce(k: nat)
      requires Shape() && Standing() && current.Some? && k < |children| && k != current.value
      ensures forall j | 0 <= j < |children[k].items| :: children[k].items[j].key != union[pos].key
    {
      hide Sorted, Covers, Held;
      var c := current.value;
      assert Sources()[k] == children[k].items && Sources()[c] == children[c].items;
      assert NoSharedKey(Sources()[if k < c then k else c], Sources()[if k < c then c else k]);
    }

    /** Puts a child that is not current on its first item after the current key. */
    method PlaceAfter(i: nat)
      requires Shape() && Standing() && current.Some? && i < |children| && i != current.value
      modifies children[i]
      ensures Shape() && Standing() && AheadOf(union, pos, children[i].items, children[i].at)
    {
      hide IsUnion, AheadOf, FirstAtOrAfter;
      var key, child := Key(), children[i];
      ChildFacts(i);
      child.Seek(key);
      SeekAhead(union, child.items, key);
      SeekOwnKey(union, pos);
      if child.Valid() && key == child.Key() {
        child.Next();
        KeyHeldOnce(i);
        assert false;
      }
    }

    /** Puts a child that is not current on its last item before the current key. */
    method PlaceBefore(i: nat)
      requires Shape() && Standing() && current.Some? && i < |children| && i != current.value
      modifies children[i]
      ensures Shape() && Standing() && BehindOf(union, pos, children[i].items, children[i].at)
    {
      hide IsUnion, AheadOf, BehindOf, FirstAtOrAfter;
      var key, child := Key(), children[i];
      ChildFacts(i);
      child.Seek(key);
      SeekAhead(union, child.items, key);
      SeekOwnKey(union, pos);
      AheadToBehind(union, pos, child.items, child.at);
      if child.Valid() {
        child.Prev();
      } else {
        child.SeekToLast();
      }
    }

    /** The direction switch of Next. */
    method TurnForward()
      requires Ok() && Valid()
      modifies this`forward, children
      ensures Ok() && pos == old(pos) && current == old(current) && forward
    {
      hide IsUnion, AheadOf, BehindOf;
      ghost var c := current.value;
      if !forward {
        for i := 0 to |children|
          invariant Shape() && Standing()
          invariant forall k | 0 <= k < i && k != c :: AheadOf(union, pos, children[k].items, children[k].at)
        {
          if i != current.value {
            PlaceAfter(i);
          }
        }
        forward := true;
        ChildFacts(c);
        StandsOn(union, pos, children[c].items, children[c].at);
      }
    }

    lemma {:induction false} StepAhead()
      requires Shape() && Standing() && current.Some? && AllAhead(pos)
      ensures forall k | 0 <= k < |children| ::
          AheadOf(union, pos + 1, children[k].items, children[k].at + if k == current.value then 1 else 0)
    {
      hide AheadOf;
      forall k | 0 <= k < |children|
        ensures AheadOf(union, pos + 1, children[k].items, children[k].at + if k == current.value then 1 else 0)
      {
        ChildFacts(k);
        if k != current.value {
          KeyHeldOnce(k);
        }
        AheadStep(union, pos, children[k].items, children[k].at, k == current.value);
      }
    }

    method Next()
      requires Ok() && Valid()
      modifies this, children
      ensures Ok() && pos == old(pos) + 1
    {
      hide IsUnion, AheadOf, BehindOf;
      TurnForward();
      StepAhead();
      children[current.value].Next();
      FindSmallest(pos + 1);
    }

    /** The direction switch of Prev. */
    method TurnBackward()
      requires Ok() && Valid()
      modifies this`forward, children
      ensures Ok() && pos == old(pos) && current == old(current) && !forward
    {
      hide IsUnion, AheadOf, BehindOf;
      ghost var c := current.value;
      if forward {
        for i := 0 to |children|
          invariant Shape() && Standing()
          invariant forall k | 0 <= k < i && k != c :: BehindOf(union, pos, children[k].items, children[k].at)
        {
          if i != current.value {
            PlaceBefore(i);
          }
        }
        forward := false;
        OthersBehind();
      }
    }

    lemma {:induction false} OthersBehind()
      requires Shape() && Standing() && current.Some?
      requires forall k | 0 <= k < |children| && k != current.value ::
                 BehindOf(union, pos, children[k].items, children[k].at)
      ensures AllBehind(pos + 1)
    {
      hide IsUnion, BehindOf;
      forall k | 0 <= k < |children|
        ensures BehindOf(union, pos + 1, children[k].items, children[k].at)
      {
        ChildFacts(k);
        if k == current.value {
          StandsOn(union, pos, children[k].items, children[k].at);
        } else {
          KeyHeldOnce(k);
          BehindUnmoved(union, pos, children[k].items, children[k].at);
        }
      }
    }

    lemma {:induction false} StepBehind()
      requires Shape() && Standing() && current.Some? && AllBehind(pos + 1)
      ensures forall k | 0 <= k < |children| ::
          BehindOf(union, pos, children[k].items, StepBack(|children[k].items|, children[k].at, k == current.value))
    {
      hide BehindOf;
      forall k | 0 <= k < |children|
        ensures BehindOf(union, pos, children[k].items, StepBack(|children[k].items|, children[k].at, k == current.value))
      {
        ChildFacts(k);
        if k != current.value {
          KeyHeldOnce(k);
        }
        BehindStep(union, pos, children[k].items, children[k].at, k == current.value);
      }
    }

    /** The current child goes back, and with it the cut. */
    method MoveBack()
      requires Shape() && Standing() && current.Some? && AllBehind(pos + 1)
      modifies children
      ensures Shape() && AllBehind(pos)
    {
      hide IsUnion, AheadOf, BehindOf;
      StepBehind();
      children[current.value].Prev();
    }

    method Prev()
      requires Ok() && Valid()
      modifies this, children
      ensures Ok() && pos == if old(pos) == 0 then |union| else old(pos) - 1
    {
      hide IsUnion, AheadOf, BehindOf;
      TurnBackward();
      MoveBack();
      FindLargest(pos);
    }
  }

  function StepBack(n: nat, at: nat, mine: bool): nat {
    if !mine then at else if at == 0 then n else at - 1
  }

  lemma {:induction false} FirstIsAhead<V>(u: seq<Item<V>>, items: seq<Item<V>>)
    requires Sorted(u) && Covers(u, items)
    ensures AheadOf(u, 0, items, 0)
  {
    hide Below;
    forall j: nat | j < |items| ensures !Below(u, 0, items[j].key) {
      NothingBelowZero(u, items[j]);
    }
  }

  lemma {:induction false} NothingBelowZero<V>(u: seq<Item<V>>, x: Item<V>)
    requires Sorted(u) && x in u
    ensures !Below(u, 0, x.key)
  {
    var q: nat :| q < |u| && u[q] == x;
    BelowIndex(u, 0, q);
  }

  lemma {:induction false} LastIsBehind<V>(u: seq<Item<V>>, items: seq<Item<V>>)
    ensures BehindOf(u, |u|, items, if |items| == 0 then 0 else |items| - 1)
  {
  }

  /** Where a source moving backward stands is before the cut. */
  lemma {:induction false} BehindMember<V>(u: seq<Item<V>>, p: nat, items: seq<Item<V>>, at: nat)
    requires BehindOf(u, p, items, at) && Covers(u, items) && at < |items|
    ensures items[at] in u && Below(u, p, items[at].key)
  {
    hide Below;
  }

  lemma {:induction false} BehindUnmoved<V>(u: seq<Item<V>>, p: nat, items: seq<Item<V>>, at: nat)
    requires Sorted(u) && p < |u| && Covers(u, items) && BehindOf(u, p, items, at)
    requires forall j | 0 <= j < |items| :: items[j].key != u[p].key
    ensures BehindOf(u, p + 1, items, at)
  {
    hide Below;
    forall j: nat | j < |items|
      ensures Below(u, p + 1, items[j].key) <==> Below(u, p, items[j].key)
    {
      BelowStep(u, p, items[j]);
    }
  }

  lemma {:induction false} SortedAt<V>(items: seq<Item<V>>, i: nat, j: nat)
    requires Sorted(items) && i < j < |items|
    ensures Before(items[i].key, items[j].key) && !Before(items[j].key, items[i].key)
  {
  }

  /** Where a source moving forward stands is not before the cut. */
  lemma {:induction false} AheadMember<V>(u: seq<Item<V>>, p: nat, items: seq<Item<V>>, at: nat)
    requires AheadOf(u, p, items, at) && Covers(u, items) && at < |items|
    ensures items[at] in u && !Below(u, p, items[at].key)
  {
    hide Below;
  }
}
