/** The skip list of the memtable (db/skiplist.h): one writer, any number of concurrent readers. */
module SkipLists {

  /** Keys are compared only; as in InternalKeys, a total order on countably many keys. */
  type Key = real

  const MAX_HEIGHT: nat := 12

  class Node {
    const key: Key
    /** one pointer for each level of the node */
    var next: seq<Node?>

    constructor (key: Key, height: nat)
      ensures this.key == key && next == seq(height, i => null)
    {
      this.key := key;
      next := seq(height, i => null);
    }
  }

  /** What follows position i of a level. */
  ghost function Following(list: seq<Node>, i: nat): Node? {
    if i + 1 < |list| then list[i + 1] else null
  }

  /** The pointer of the node at position i leads to the next position. */
  ghost predicate PointsOn(list: seq<Node>, l: nat, i: nat)
    requires i < |list|
    reads {list[i]}`next
  {
    l < |list[i].next| && list[i].next[l] == Following(list, i)
  }

  /** Keys ascend after the head, which holds none. */
  ghost predicate Ascends(list: seq<Node>) {
    && list != []
    && (forall i, j | 1 <= i < j < |list| :: list[i].key < list[j].key)
    && (forall i | 1 <= i < |list| :: list[i] != list[0])
  }

  /** Level l of the list: what the pointers at that level lead through, in ascending order. */
  ghost predicate LevelOk(head: Node, list: seq<Node>, l: nat)
    reads list`next
  {
    Ascends(list) && list[0] == head && forall i: nat | i < |list| :: PointsOn(list, l, i)
  }

  ghost predicate Within(a: seq<Node>, b: seq<Node>) {
    forall n | n in a :: n in b
  }

  ghost function Keys(list: seq<Node>): set<Key> {
    set i | 1 <= i < |list| :: list[i].key
  }

  /** n is the first node at or after target, or null if there is none. */
  ghost predicate IsSuccessor(list: seq<Node>, target: Key, n: Node?) {
    if n == null then forall k | k in Keys(list) :: k < target
    else n in list && n.key >= target && n.key in Keys(list) && forall k | k in Keys(list) && k >= target :: n.key <= k
  }

  /** A position from which a search for target may go on. */
  ghost predicate Behind(head: Node, list: seq<Node>, target: Key, x: Node) {
    x in list && (x == head || x.key < target)
  }

  lemma {:induction false} PointerIsOn(head: Node, list: seq<Node>, l: nat, x: Node) returns (i: nat)
    requires LevelOk(head, list, l) && x in list
    ensures i < |list| && list[i] == x && l < |x.next| && x.next[l] == Following(list, i)
  {
    i :| i < |list| && list[i] == x;
    assert PointsOn(list, l, i);
  }

  /** Where a pointer leads past the target, it leads to its successor. */
  lemma {:induction false} StopIsSuccessor(head: Node, list: seq<Node>, l: nat, target: Key, x: Node)
    requires LevelOk(head, list, l) && Behind(head, list, target, x)
    requires l < |x.next| && (x.next[l] == null || x.next[l].key >= target)
    ensures IsSuccessor(list, target, x.next[l])
  {
    hide PointsOn;
    var i := PointerIsOn(head, list, l, x);
    forall j | 1 <= j < |list| ensures j <= i ==> list[j].key < target
      ensures j > i ==> x.next[l] != null && x.next[l].key <= list[j].key {
    }
    if x.next[l] != null {
      assert list[i + 1].key in Keys(list);
    }
  }

  class SkipList {
    const head: Node
    var maxHeight: nat
    /** the chains of the levels, the head first, and every node ever allocated */
    ghost var lists: seq<seq<Node>>
    ghost var nodes: set<Node>

    /** Each level is a sorted chain, and a sublist of the level below. */
    ghost predicate Valid()
      reads this, nodes`next
    {
      && |lists| == MAX_HEIGHT && 1 <= maxHeight <= MAX_HEIGHT
      && (forall l | 0 <= l < MAX_HEIGHT :: Owned(lists[l], nodes) && LevelOk(head, lists[l], l))
      && (forall l | 0 <= l < MAX_HEIGHT - 1 :: Within(lists[l + 1], lists[l]))
      && (forall l | maxHeight <= l < MAX_HEIGHT :: |lists[l]| == 1)
    }

    constructor ()
      ensures Valid() && Contents() == {} && fresh(nodes)
    {
      var node := new Node(0.0, MAX_HEIGHT);
      head, maxHeight := node, 1;
      lists, nodes := seq(MAX_HEIGHT, i => [node]), {node};
      new;
      forall l | 0 <= l < MAX_HEIGHT ensures LevelOk(head, lists[l], l) {
        assert PointsOn(lists[l], l, 0);
      }
    }

    lemma {:induction false} HeadIsOn(l: nat)
      requires Valid() && l < MAX_HEIGHT
      ensures head in lists[l]
    {
      assert LevelOk(head, lists[l], l);
    }

    lemma {:induction false} LevelAscends(l: nat)
      requires Valid() && l < MAX_HEIGHT
      ensures Ascends(lists[l]) && lists[l][0] == head
    {
      assert LevelOk(head, lists[l], l);
    }

    /** Keys on a higher level are in the list. */
    lemma {:induction false} KeysWithin(l: nat)
      requires Valid() && l < MAX_HEIGHT
      ensures Keys(lists[l]) <= Contents()
    {
      if l > 0 {
        KeysWithin(l - 1);
        LevelAscends(l);
        LevelAscends(l - 1);
        var lo, hi := lists[l - 1], lists[l];
        forall i | 1 <= i < |hi| ensures hi[i].key in Keys(lo) {
          assert hi[i] in lo;
          var j :| 0 <= j < |lo| && lo[j] == hi[i];
        }
      }
    }

    /** One pointer store: p, at position k of level l, now leads to x. */
    method LinkBehind(l: nat, p: Node, x: Node, ghost k: nat)
      requires Valid() && l < maxHeight && x in nodes && x !in lists[l] && (l > 0 ==> x in lists[l - 1])
      requires SplitsAt(lists[l], k, x.key) && lists[l][k] == p
      requires l < |x.next| && x.next[l] == Following(lists[l], k)
      modifies this`lists, p`next
      ensures Valid() && lists == old(lists)[l := Spliced(old(lists[l]), k, x)]
    {
      hide Ascends, Spliced;
      ghost var was := lists;
      assert PointsOn(was[l], l, k);
      p.next := p.next[l := x];
      forall m | 0 <= m < MAX_HEIGHT
        ensures forall j: nat | j < |was[m]| && (m != l || j != k) :: PointsOn(was[m], m, j)
      {
        forall j: nat | j < |was[m]| && (m != l || j != k) ensures PointsOn(was[m], m, j) {
          assert old(PointsOn(was[m], m, j));
          if m == l {
            OnceIn(was[l], k, j);
          }
        }
      }
      SplicedLevel(head, was[l], k, x, l);
      SplicedNodes(was[l], k, x);
      SplicedOwned(was[l], k, x, nodes);
      lists := was[l := Spliced(was[l], k, x)];
    }

    /** The keys in the list: those on level 0. */
    ghost function Contents(): set<Key>
      requires lists != []
      reads this
    {
      Keys(lists[0])
    }
  }

  ghost predicate Owned(list: seq<Node>, nodes: set<Node>) {
    forall i | 0 <= i < |list| :: list[i] in nodes
  }

  /** x right behind position k. */
  ghost function Spliced(list: seq<Node>, k: nat, x: Node): seq<Node>
    requires k < |list|
  {
    list[..k + 1] + [x] + list[k + 1..]
  }

  lemma {:induction false} SplicedNodes(list: seq<Node>, k: nat, x: Node)
    requires k < |list|
    ensures forall n :: n in Spliced(list, k, x) <==> n in list || n == x
  {
    var r := Spliced(list, k, x);
    forall n ensures n in r <==> n in list || n == x {
      assert r[k + 1] == x;
      assert forall i | 0 <= i < |list| :: list[i] == r[if i <= k then i else i + 1];
      assert list == list[..k + 1] + list[k + 1..];
    }
  }

  lemma {:induction false} SplicedAt(list: seq<Node>, k: nat, x: Node, i: nat)
    requires k < |list| && i <= |list|
    ensures |Spliced(list, k, x)| == |list| + 1
    ensures Spliced(list, k, x)[i] == if i <= k then list[i] else if i == k + 1 then x else list[i - 1]
  {
  }

  lemma {:induction false} SplicedAscends(list: seq<Node>, k: nat, x: Node)
    requires Ascends(list) && k < |list| && x !in list
    requires k == 0 || list[k].key < x.key
    requires k + 1 < |list| ==> x.key < list[k + 1].key
    ensures Ascends(Spliced(list, k, x)) && Keys(Spliced(list, k, x)) == Keys(list) + {x.key}
  {
    hide Spliced;
    var r := Spliced(list, k, x);
    SplicedAt(list, k, x, 0);
    SplicedAt(list, k, x, k + 1);
    forall i, j | 1 <= i < j < |r| ensures r[i].key < r[j].key {
      SplicedAt(list, k, x, i);
      SplicedAt(list, k, x, j);
    }
    forall i | 1 <= i < |r| ensures r[i] != r[0] {
      SplicedAt(list, k, x, i);
    }
    forall c ensures c in Keys(r) <==> c in Keys(list) || c == x.key {
      if c in Keys(list) {
        var i :| 1 <= i < |list| && list[i].key == c;
        SplicedAt(list, k, x, if i <= k then i else i + 1);
      }
      if c in Keys(r) {
        var i :| 1 <= i < |r| && r[i].key == c;
        SplicedAt(list, k, x, i);
      }
    }
  }

  /** A level whose pointers have been rerouted through x. */
  lemma {:induction false} SplicedLevel(head: Node, list: seq<Node>, k: nat, x: Node, l: nat)
    requires Ascends(list) && list[0] == head && k < |list| && x !in list
    requires k == 0 || list[k].key < x.key
    requires k + 1 < |list| ==> x.key < list[k + 1].key
    requires forall i: nat | i < |list| && i != k :: PointsOn(list, l, i)
    requires l < |list[k].next| && list[k].next[l] == x
    requires l < |x.next| && x.next[l] == Following(list, k)
    ensures LevelOk(head, Spliced(list, k, x), l)
  {
    hide Spliced, Ascends;
    var r := Spliced(list, k, x);
    SplicedAscends(list, k, x);
    SplicedAt(list, k, x, 0);
    forall i: nat | i < |r| ensures PointsOn(r, l, i) {
      SplicedAt(list, k, x, i);
      if i < |list| {
        SplicedAt(list, k, x, i + 1);
      }
      if i < k {
        assert PointsOn(list, l, i);
      } else if i > k + 1 {
        assert PointsOn(list, l, i - 1);
      }
    }
  }

  /** key belongs right behind position k. */
  ghost predicate SplitsAt(list: seq<Node>, k: nat, key: Key) {
    k < |list| && (k == 0 || list[k].key < key) && (k + 1 < |list| ==> key < list[k + 1].key)
  }

  ghost predicate Place(list: seq<Node>, p: Node, key: Key) {
    exists k: nat :: k < |list| && list[k] == p && SplitsAt(list, k, key)
  }

  /** SkipList::Insert once it has found its place: a pointer store at a time. */
  class Insertion {
    const list: SkipList
    const x: Node
    const prev: seq<Node>
    /** the level being linked, and whether the new node's own pointer there is set */
    var i: nat
    var half: bool

    ghost predicate Ok()
      reads this, list, list.nodes`next, x`next
    {
      && list.Valid() && x in list.nodes && |x.next| == |prev| <= list.maxHeight && i <= |prev|
      && (forall l | 0 <= l < MAX_HEIGHT :: x in list.lists[l] <==> l < i)
      && (forall l | i <= l < |prev| :: Place(list.lists[l], prev[l], x.key))
      && (half ==> i < |prev| && prev[i] in list.nodes && i < |prev[i].next| && x.next[i] == prev[i].next[i])
    }

    constructor (list: SkipList, key: Key, height: nat, prev: seq<Node>)
      requires list.Valid() && 1 <= height <= list.maxHeight && |prev| == height
      requires forall l | 0 <= l < height :: Place(list.lists[l], prev[l], key)
      modifies list`nodes
      ensures Ok() && this.list == list && x.key == key && this.prev == prev && i == 0 && !half
      ensures fresh(x) && list.nodes == old(list.nodes) + {x}
    {
      var node := new Node(key, height);
      this.list, x, this.prev, i, half := list, node, prev, 0, false;
      new;
      list.nodes := list.nodes + {node};
    }

    /** The new node's own pointer at level i, which nobody follows yet. */
    method Prepare()
      requires Ok() && i < |prev| && !half
      modifies this`half, x`next
      ensures Ok() && half && i == old(i)
    {
      hide Ascends, Place;
      ghost var l := i;
      ghost var k: nat := PlaceAt(list.lists[i], prev[i], x.key);
      assert PointsOn(list.lists[i], i, k);
      x.next := x.next[i := prev[i].next[i]];
      half := true;
      forall m | 0 <= m < MAX_HEIGHT ensures LevelOk(list.head, list.lists[m], m) {
        forall j: nat | j < |list.lists[m]| ensures PointsOn(list.lists[m], m, j) {
          assert old(PointsOn(list.lists[m], m, j));
        }
      }
    }
  
    /** The store that puts the new node on level i. */
    method Publish()
      requires Ok() && i < |prev| && half
      modifies this`i, this`half, list`lists, list.nodes`next
      ensures Ok() && !half && i == old(i) + 1
      ensures Grown(old(list.lists), list.lists)
      ensures list.Contents() == if old(i) == 0 then old(list.Contents()) + {x.key} else old(list.Contents())
    {
      hide Ascends, Place, Spliced, LevelOk;
      ghost var l, was := i, list.lists;
      ghost var k: nat := PlaceAt(was[l], prev[l], x.key);
      PointsToFollowing(list.head, was[l], l, k);
      list.LinkBehind(i, prev[i], x, k);
      SplicedNodes(was[l], k, x);
      SplicedGrows(list.head, was[l], k, x, l);
      i, half := i + 1, false;
    }
  }

  lemma {:induction false} PointsToFollowing(head: Node, list: seq<Node>, l: nat, k: nat)
    requires LevelOk(head, list, l) && k < |list|
    ensures Ascends(list) && l < |list[k].next| && list[k].next[l] == Following(list, k)
  {
    assert PointsOn(list, l, k);
  }

  lemma {:induction false} SplicedGrows(head: Node, list: seq<Node>, k: nat, x: Node, l: nat)
    requires Ascends(list) && k < |list| && x !in list && SplitsAt(list, k, x.key)
    ensures Within(list, Spliced(list, k, x))
    ensures Keys(Spliced(list, k, x)) == Keys(list) + {x.key}
  {
    SplicedAscends(list, k, x);
    SplicedNodes(list, k, x);
  }

  /** Nodes are never taken out. */
  ghost predicate Grown(was: seq<seq<Node>>, now: seq<seq<Node>>) {
    |was| == |now| && forall l | 0 <= l < |was| :: Within(was[l], now[l])
  }

  lemma {:induction false} OnceIn(list: seq<Node>, k: nat, j: nat)
    requires Ascends(list) && k < |list|
    ensures j < |list| && list[j] == list[k] ==> j == k
  {
  }

  lemma {:induction false} SplicedOwned(list: seq<Node>, k: nat, x: Node, nodes: set<Node>)
    requires Owned(list, nodes) && x in nodes && k < |list|
    ensures Owned(Spliced(list, k, x), nodes) && Spliced(list, k, x)[0] == list[0]
  {
  }

  lemma {:induction false} PlaceAt(list: seq<Node>, p: Node, key: Key) returns (k: nat)
    requires Place(list, p, key)
    ensures k < |list| && list[k] == p && SplitsAt(list, k, key)
  {
    k :| k < |list| && list[k] == p && SplitsAt(list, k, key);
  }

  /** A search by a reader or by the writer (FindGreaterOrEqual), one pointer load at a time. It may
      start from any height the list has ever had. */
  class Search {
    const list: SkipList
    const target: Key
    var x: Node
    var level: nat
    var finished: bool
    var result: Node?
    /** the node where the search left each level */
    var prev: map<nat, Node>

    ghost predicate Ok()
      reads this, list, list.nodes`next
    {
      list.Valid() && level < MAX_HEIGHT && Behind(list.head, list.lists[level], target, x)
    }

    constructor (list: SkipList, target: Key, height: nat)
      requires list.Valid() && 1 <= height <= MAX_HEIGHT
      ensures Ok() && this.list == list && this.target == target && level == height - 1 && !finished && prev == map[]
    {
      this.list, this.target := list, target;
      x, level, finished, result, prev := list.head, height - 1, false, null, map[];
      new;
      list.HeadIsOn(height - 1);
    }

    /** One round of the loop. The search ends on the load that finds the successor. */
    method Step()
      requires Ok() && !finished
      modifies this`x, this`level, this`finished, this`result, this`prev
      ensures Ok() && (finished ==> level == 0 && IsSuccessor(list.lists[0], target, result))
      ensures !finished && level == old(level) ==> Advanced(list.head, list.lists[level], old(x), x) && prev == old(prev)
      ensures !finished && level != old(level) ==> level + 1 == old(level) && prev == old(prev)[level + 1 := old(x)]
      ensures finished ==> level == old(level) && prev == old(prev)[0 := old(x)]
      ensures finished || level != old(level) ==> Stops(list.lists[old(level)], target, old(x))
    {
      hide Ascends, LevelOk, Behind, Stops;
      LevelAbove(list.head, list.lists[level], level, target, x);
      var next := x.next[level];
      if next != null && next.key < target {
        Advance(list.head, list.lists[level], level, target, x);
        x := next;
      } else {
        StopHere(list.head, list.lists[level], level, target, x);
        StopIsSuccessor(list.head, list.lists[level], level, target, x);
        prev := prev[level := x];
        if level == 0 {
          result, finished := next, true;
        } else {
          BehindBelow(list.head, list.lists[level], list.lists[level - 1], target, x);
          level := level - 1;
        }
      }
    }
  }

  /** From x the search has moved on to y, which comes later. */
  ghost predicate Advanced(head: Node, list: seq<Node>, x: Node, y: Node) {
    y in list && y != head && (x == head || x.key < y.key)
  }

  /** Nothing on the level lies between x and target. */
  ghost predicate Stops(list: seq<Node>, target: Key, x: Node) {
    exists k: nat :: k < |list| && list[k] == x && (k == 0 || list[k].key < target) && (k + 1 < |list| ==> target <= list[k + 1].key)
  }

  lemma {:induction false} LevelAbove(head: Node, list: seq<Node>, l: nat, target: Key, x: Node)
    requires LevelOk(head, list, l) && Behind(head, list, target, x)
    ensures l < |x.next|
  {
    var i := PointerIsOn(head, list, l, x);
  }

  lemma {:induction false} Advance(head: Node, list: seq<Node>, l: nat, target: Key, x: Node)
    requires LevelOk(head, list, l) && Behind(head, list, target, x)
    requires l < |x.next| && x.next[l] != null && x.next[l].key < target
    ensures Behind(head, list, target, x.next[l]) && Advanced(head, list, x, x.next[l])
  {
    var i := PointerIsOn(head, list, l, x);
  }

  lemma {:induction false} StopHere(head: Node, list: seq<Node>, l: nat, target: Key, x: Node)
    requires LevelOk(head, list, l) && Behind(head, list, target, x)
    requires l < |x.next| && (x.next[l] == null || x.next[l].key >= target)
    ensures Stops(list, target, x)
  {
    var i := PointerIsOn(head, list, l, x);
  }

  lemma {:induction false} BehindBelow(head: Node, above: seq<Node>, below: seq<Node>, target: Key, x: Node)
    requires Within(above, below) && Behind(head, above, target, x)
    ensures Behind(head, below, target, x)
  {
  }

  /** FindGreaterOrEqual with no one else at work; prev is where the search left each level. */
  method FindGreaterOrEqual(list: SkipList, target: Key) returns (next: Node?, prev: seq<Node>)
    requires list.Valid()
    ensures IsSuccessor(list.lists[0], target, next)
    ensures |prev| == list.maxHeight && forall l | 0 <= l < |prev| :: Stops(list.lists[l], target, prev[l])
  {
    hide LevelOk, IsSuccessor, Stops, Advanced, Behind;
    var search := new Search(list, target, list.maxHeight);
    while !search.finished
      invariant fresh(search) && search.list == list && search.target == target && list.Valid() && search.level < list.maxHeight
      invariant search.Ok() && (search.finished ==> IsSuccessor(list.lists[0], target, search.result))
      invariant forall l: nat | (if search.finished then 0 else search.level + 1) <= l < list.maxHeight ::
          l in search.prev && Stops(list.lists[l], target, search.prev[l])
      decreases !search.finished, search.level, Rest(list.head, list.lists[search.level], search.x)
    {
      ghost var l, x := search.level, search.x;
      search.Step();
      if !search.finished && search.level == l {
        RestShrinks(list.head, list.lists[l], x, search.x);
      }
    }
    next := search.result;
    var found := search.prev;
    prev := seq(list.maxHeight, l requires l in found => found[l]);
  }

  /** The nodes of a level that a search at x has not passed. */
  ghost function Rest(head: Node, list: seq<Node>, x: Node): set<Node> {
    set n | n in list && n != head && (x == head || x.key < n.key)
  }

  lemma {:induction false} RestShrinks(head: Node, list: seq<Node>, x: Node, y: Node)
    requires Advanced(head, list, x, y)
    ensures Rest(head, list, y) < Rest(head, list, x)
  {
    assert y in Rest(head, list, x) && y !in Rest(head, list, y);
  }

  /** Contains. */
  method Contains(list: SkipList, key: Key) returns (r: bool)
    requires list.Valid()
    ensures r <==> key in list.Contents()
  {
    hide LevelOk, Stops;
    var next, prev := FindGreaterOrEqual(list, key);
    r := next != null && next.key == key;
  }

  /** FindLessThan: the same descent, ending at the node in front. */
  method FindLessThan(list: SkipList, target: Key) returns (x: Node)
    requires list.Valid()
    ensures x in list.lists[0]
    ensures if x == list.head then forall k | k in list.Contents() :: k >= target
            else x.key < target && x.key in list.Contents() && forall k | k in list.Contents() && k < target :: k <= x.key
  {
    hide LevelOk, Stops, Behind, Advanced, Ascends;
    x := list.head;
    var level := list.maxHeight - 1;
    list.HeadIsOn(level);
    HeadIsBehind(list.head, list.lists[level], target);
    while true
      invariant list.Valid() && 0 <= level < list.maxHeight && Behind(list.head, list.lists[level], target, x)
      decreases level, Rest(list.head, list.lists[level], x)
    {
      LevelAbove(list.head, list.lists[level], level, target, x);
      var next := x.next[level];
      if next == null || next.key >= target {
        if level == 0 {
          StopHere(list.head, list.lists[0], 0, target, x);
          list.LevelAscends(0);
          StopsIsPredecessor(list.head, list.lists[0], target, x);
          return;
        }
        BehindBelow(list.head, list.lists[level], list.lists[level - 1], target, x);
        level := level - 1;
      } else {
        Advance(list.head, list.lists[level], level, target, x);
        RestShrinks(list.head, list.lists[level], x, next);
        x := next;
      }
    }
  }

  lemma {:induction false} HeadIsBehind(head: Node, list: seq<Node>, target: Key)
    requires head in list
    ensures Behind(head, list, target, head)
  {
  }

  lemma {:induction false} StopsIsPredecessor(head: Node, list: seq<Node>, target: Key, x: Node)
    requires Ascends(list) && list[0] == head && Stops(list, target, x)
    ensures x in list
    ensures if x == head then forall k | k in Keys(list) :: k >= target
            else x.key < target && x.key in Keys(list) && forall k | k in Keys(list) && k < target :: k <= x.key
  {
    var i: nat :| i < |list| && list[i] == x && (i == 0 || list[i].key < target) && (i + 1 < |list| ==> target <= list[i + 1].key);
    forall j | 1 <= j < |list| ensures j <= i ==> list[j].key <= x.key
      ensures j > i ==> list[j].key >= target {
    }
  }

  /** Where the search for a new key has stopped is its place. */
  lemma {:induction false} StopsIsPlace(list: seq<Node>, key: Key, x: Node)
    requires Stops(list, key, x) && key !in Keys(list)
    ensures Place(list, x, key)
  {
    var i: nat :| i < |list| && list[i] == x && (i == 0 || list[i].key < key) && (i + 1 < |list| ==> key <= list[i + 1].key);
    assert i + 1 < |list| ==> list[i + 1].key in Keys(list);
  }

  lemma {:induction false} HeadIsPlace(head: Node, list: seq<Node>, key: Key)
    requires |list| == 1 && list[0] == head
    ensures Place(list, head, key)
  {
    assert SplitsAt(list, 0, key);
  }

  /** The first part of Insert: find the place on every level, and raise the height if need be. */
  method StartInsert(list: SkipList, key: Key, height: nat) returns (ins: Insertion)
    requires list.Valid() && key !in list.Contents() && 1 <= height <= MAX_HEIGHT
    modifies list`maxHeight, list`nodes
    ensures fresh(ins) && fresh(ins.x) && ins.Ok() && ins.list == list && ins.x.key == key && |ins.prev| == height
    ensures ins.i == 0 && !ins.half && list.nodes == old(list.nodes) + {ins.x}
  {
    hide LevelOk, Stops, Place;
    var next, prev := FindGreaterOrEqual(list, key);
    forall l | 0 <= l < MAX_HEIGHT
      ensures l < |prev| ==> Place(list.lists[l], prev[l], key)
      ensures l >= |prev| ==> Place(list.lists[l], list.head, key)
    {
      list.LevelAscends(l);
      if l < |prev| {
        list.KeysWithin(l);
        StopsIsPlace(list.lists[l], key, prev[l]);
      } else {
        HeadIsPlace(list.head, list.lists[l], key);
      }
    }
    var all := prev + seq(MAX_HEIGHT - |prev|, l => list.head);
    if height > list.maxHeight {
      list.maxHeight := height;
    }
    ins := new Insertion(list, key, height, all[..height]);
  }

  /** Insert. */
  method Insert(list: SkipList, key: Key, height: nat)
    requires list.Valid() && key !in list.Contents() && 1 <= height <= MAX_HEIGHT
    modifies list, list.nodes`next
    ensures list.Valid() && list.Contents() == old(list.Contents()) + {key}
    ensures Grown(old(list.lists), list.lists)
  {
    hide LevelOk, Place, Ascends;
    ghost var was := list.lists;
    var ins := StartInsert(list, key, height);
    assert Grown(was, list.lists);
    while ins.i < height
      invariant ins.Ok() && fresh(ins) && fresh(ins.x) && ins.list == list && ins.x.key == key && !ins.half
      invariant |ins.prev| == height && list.nodes == old(list.nodes) + {ins.x}
      invariant Grown(was, list.lists)
      invariant list.Contents() == if ins.i == 0 then old(list.Contents()) else old(list.Contents()) + {key}
      decreases height - ins.i
    {
      ins.Prepare();
      ins.Publish();
    }
  }

  /** FindLast. */
  method FindLast(list: SkipList) returns (x: Node)
    requires list.Valid()
    ensures x in list.lists[0]
    ensures if x == list.head then list.Contents() == {} else x.key in list.Contents() && forall k | k in list.Contents() :: k <= x.key
  {
    hide LevelOk, Ascends, Advanced;
    x := list.head;
    var level := list.maxHeight - 1;
    list.HeadIsOn(level);
    while true
      invariant list.Valid() && 0 <= level < list.maxHeight && x in list.lists[level]
      decreases level, Rest(list.head, list.lists[level], x)
    {
      LastStep(list.head, list.lists[level], level, x);
      var next := x.next[level];
      if next == null {
        if level == 0 {
          return;
        }
        level := level - 1;
      } else {
        RestShrinks(list.head, list.lists[level], x, next);
        x := next;
      }
    }
  }

  lemma {:induction false} LastStep(head: Node, list: seq<Node>, l: nat, x: Node)
    requires LevelOk(head, list, l) && x in list
    ensures l < |x.next|
    ensures x.next[l] != null ==> Advanced(head, list, x, x.next[l])
    ensures x.next[l] == null ==>
        if x == head then Keys(list) == {} else x.key in Keys(list) && forall k | k in Keys(list) :: k <= x.key
  {
    var i := PointerIsOn(head, list, l, x);
  }
}
