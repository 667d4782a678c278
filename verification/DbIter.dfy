/** The iterator applications see (db/db_iter.cc): user keys visible at one sequence number. */
module UserIterators {
  import opened Basics
  import opened InternalKeys
  import opened Cursors

  type Items = seq<Item<Value>>

  /** Keys that parse: the type byte is a deletion or a value. */
  ghost predicate Parses(items: Items) {
    forall k | 0 <= k < |items| :: items[k].key.kind <= 1
  }

  predicate Visible(items: Items, s: Sequence, k: nat)
    requires k < |items|
  {
    items[k].key.seqno <= s
  }

  function User(items: Items, k: nat): UserKey
    requires k < |items|
  {
    items[k].key.user
  }

  /** No item before k is a visible one of the same user key. */
  ghost predicate NewestOfKey(items: Items, s: Sequence, k: nat)
    requires k < |items|
  {
    forall j: nat | j < k :: Visible(items, s, j) ==> User(items, j) != User(items, k)
  }

  /** Item k is what a reader at s sees of its user key: the newest visible item, and a value. */
  ghost predicate Yields(items: Items, s: Sequence, k: nat)
    requires k < |items|
  {
    Visible(items, s, k) && items[k].key.kind == 1 && NewestOfKey(items, s, k)
  }

  /** view lists, in order, the items a reader at s sees. */
  ghost predicate IsView(items: Items, s: Sequence, view: seq<nat>) {
    && (forall p | 0 <= p < |view| :: view[p] < |items| && Yields(items, s, view[p]))
    && (forall p, q | 0 <= p < q < |view| :: view[p] < view[q])
    && (forall k: nat | k < |items| && Yields(items, s, k) :: k in view)
  }

  ghost function View(items: Items, s: Sequence, n: nat): seq<nat>
    requires n <= |items|
  {
    if n == 0 then []
    else View(items, s, n - 1) + (if Yields(items, s, n - 1) then [n - 1] else [])
  }

  lemma {:induction false} ViewElements(items: Items, s: Sequence, n: nat)
    requires n <= |items|
    ensures var view := View(items, s, n);
      && (forall p | 0 <= p < |view| :: view[p] < n && Yields(items, s, view[p]))
      && (forall p, q | 0 <= p < q < |view| :: view[p] < view[q])
      && (forall k: nat | k < n && Yields(items, s, k) :: k in view)
  {
    hide Yields;
    if n > 0 {
      ViewElements(items, s, n - 1);
      var front := View(items, s, n - 1);
      forall k: nat | k < n && Yields(items, s, k) ensures k in View(items, s, n) {
        assert k < n - 1 ==> k in front;
      }
    }
  }

  lemma {:induction false} ViewIsView(items: Items, s: Sequence)
    ensures IsView(items, s, View(items, s, |items|))
  {
    hide Yields;
    ViewElements(items, s, |items|);
  }

  lemma {:induction false} UsersSorted(items: Items, j: nat, k: nat)
    requires Sorted(items) && j <= k < |items|
    ensures User(items, j) <= User(items, k)
  {
    if j < k {
      assert Before(items[j].key, items[k].key);
    }
  }

  /** The user keys of a view ascend strictly: each appears once. */
  lemma {:induction false} ViewUsersAscend(items: Items, s: Sequence, view: seq<nat>, p: nat, q: nat)
    requires Sorted(items) && IsView(items, s, view) && p < q < |view|
    ensures User(items, view[p]) < User(items, view[q])
  {
    UsersSorted(items, view[p], view[q]);
    assert Yields(items, s, view[p]) && Yields(items, s, view[q]);
  }

  ghost function EntryOf(x: Item<Value>): Entry {
    Entry(x.key.user, x.key.seqno, if x.key.kind == 0 then Delete else Put(x.value))
  }

  ghost function Entries(items: Items): set<Entry> {
    set x | x in items :: EntryOf(x)
  }

  /** Iterating shows exactly the keys and values that a lookup at the same sequence number finds. */
  lemma {:induction false} ViewIsGet(items: Items, s: Sequence, view: seq<nat>, user: UserKey, value: Value)
    requires Sorted(items) && Parses(items) && IsView(items, s, view)
    ensures (exists p :: 0 <= p < |view| && User(items, view[p]) == user && items[view[p]].value == value)
            <==> Answers(Entries(items), user, s, Found(value))
  {
    hide Sorted, Parses;
    if p: nat :| p < |view| && User(items, view[p]) == user && items[view[p]].value == value {
      YieldsIsNewest(items, s, view[p]);
      assert Newest(Entries(items), user, s, EntryOf(items[view[p]]));
    }
    if Answers(Entries(items), user, s, Found(value)) {
      var e :| Newest(Entries(items), user, s, e) && Found(value) == Outcome(e.op);
      var x :| x in items && EntryOf(x) == e;
      var k: nat :| k < |items| && items[k] == x;
      NewestYields(items, s, k);
      var p :| 0 <= p < |view| && view[p] == k;
    }
  }

  lemma {:induction false} YieldsIsNewest(items: Items, s: Sequence, k: nat)
    requires Sorted(items) && Parses(items) && k < |items| && Yields(items, s, k)
    ensures Newest(Entries(items), User(items, k), s, EntryOf(items[k]))
  {
    forall e | e in Entries(items) && e.user == User(items, k) && e.seqno <= s
      ensures e.seqno <= items[k].key.seqno
    {
      var x :| x in items && EntryOf(x) == e;
      var j: nat :| j < |items| && items[j] == x;
      if j < k {
        assert Visible(items, s, j);
      } else if j > k {
        assert Before(items[k].key, items[j].key);
      }
    }
    assert EntryOf(items[k]) in Entries(items);
  }

  lemma {:induction false} NewestYields(items: Items, s: Sequence, k: nat)
    requires Sorted(items) && Parses(items) && k < |items|
    requires Newest(Entries(items), User(items, k), s, EntryOf(items[k])) && EntryOf(items[k]).op.Put?
    ensures Yields(items, s, k)
  {
    forall j: nat | j < k && Visible(items, s, j)
      ensures User(items, j) != User(items, k)
    {
      assert EntryOf(items[j]) in Entries(items);
      assert Before(items[j].key, items[k].key);
    }
  }

  /** How many listed items come before index j. */
  lemma {:induction false} CutView(items: Items, s: Sequence, view: seq<nat>, j: nat) returns (p: nat)
    requires IsView(items, s, view)
    ensures p <= |view| && forall q: nat | q < |view| :: q < p <==> view[q] < j
  {
    hide Yields;
    p := 0;
    while p < |view| && view[p] < j
      invariant p <= |view| && forall q | 0 <= q < p :: view[q] < j
    {
      p := p + 1;
    }
  }

  /** Scanning forward at item j for view position p, with the entries of one user key hidden: what
      is still to be shown lies ahead and is not hidden. */
  ghost predicate Scanning(items: Items, s: Sequence, view: seq<nat>, p: nat, j: nat, hidden: Option<UserKey>) {
    && (forall q | 0 <= q < |view| :: view[q] < |items|)
    && p <= |view| && j <= |items|
    && (forall q | p <= q < |view| :: view[q] >= j && hidden != Some(User(items, view[q])))
    && (forall q | 0 <= q < p :: view[q] < j || hidden == Some(User(items, view[q])))
    && (hidden.Some? ==> forall k: nat | j <= k < |items| && Visible(items, s, k) :: User(items, k) >= hidden.value)
    && (forall k: nat, m: nat | k < j <= m < |items| && Visible(items, s, k) && Visible(items, s, m)
          && User(items, k) == User(items, m) :: hidden == Some(User(items, m)))
  }

  /** The entry at j, unless it is hidden, is the next one to show. */
  lemma {:induction false} ScanFinds(items: Items, s: Sequence, view: seq<nat>, p: nat, j: nat, hidden: Option<UserKey>)
    requires Sorted(items) && IsView(items, s, view) && Scanning(items, s, view, p, j, hidden)
    requires j < |items| && Visible(items, s, j) && items[j].key.kind == 1
    requires !(hidden.Some? && User(items, j) <= hidden.value)
    ensures p < |view| && view[p] == j
  {
    assert Yields(items, s, j);
    var q :| 0 <= q < |view| && view[q] == j;
    var next := Nth(view, p);
  }

  /** A deletion hides the rest of its user key. */
  lemma {:induction false} ScanDeletion(items: Items, s: Sequence, view: seq<nat>, p: nat, j: nat, hidden: Option<UserKey>)
    requires Sorted(items) && IsView(items, s, view) && Scanning(items, s, view, p, j, hidden)
    requires j < |items| && Visible(items, s, j) && items[j].key.kind == 0
    ensures Scanning(items, s, view, p, j + 1, Some(User(items, j)))
  {
    hide Sorted;
    var user := User(items, j);
    forall q | p <= q < |view| ensures view[q] >= j + 1 && user != User(items, view[q]) {
      assert Yields(items, s, view[q]);
    }
    forall q | 0 <= q < p ensures view[q] < j + 1 || user == User(items, view[q]) {
      if view[q] >= j {
        assert Yields(items, s, view[q]);
        UsersSorted(items, j, view[q]);
      }
    }
    forall k: nat | j + 1 <= k < |items| ensures User(items, k) >= user {
      UsersSorted(items, j, k);
    }
    forall k: nat, m: nat | k < j + 1 <= m < |items| && Visible(items, s, k) && Visible(items, s, m)
        && User(items, k) == User(items, m)
      ensures user == User(items, m)
    {
      UsersSorted(items, k, j);
      UsersSorted(items, j, m);
    }
  }

  /** An entry that is too new, or that an earlier entry of its key hides, is passed over. */
  lemma {:induction false} ScanPasses(items: Items, s: Sequence, view: seq<nat>, p: nat, j: nat, hidden: Option<UserKey>)
    requires Sorted(items) && IsView(items, s, view) && Scanning(items, s, view, p, j, hidden)
    requires j < |items|
    requires Visible(items, s, j) ==> hidden.Some? && User(items, j) <= hidden.value
    ensures Scanning(items, s, view, p, j + 1, hidden)
  {
    hide Sorted;
    forall q | p <= q < |view| ensures view[q] >= j + 1 {
      assert Yields(items, s, view[q]);
    }
    forall q | 0 <= q < p ensures view[q] < j + 1 || hidden == Some(User(items, view[q])) {
    }
    forall k: nat, m: nat | k < j + 1 <= m < |items| && Visible(items, s, k) && Visible(items, s, m)
        && User(items, k) == User(items, m)
      ensures hidden == Some(User(items, m))
    {
      UsersSorted(items, k, j);
      UsersSorted(items, j, m);
    }
  }

  /** Scanning starts again behind the item shown last. */
  lemma {:induction false} ScanFromShown(items: Items, s: Sequence, view: seq<nat>, p: nat)
    requires Sorted(items) && IsView(items, s, view) && p < |view|
    ensures Scanning(items, s, view, p + 1, view[p], Some(User(items, view[p])))
  {
    hide Sorted, IsView;
    var j := view[p];
    assert Yields(items, s, j) by { ViewAt(items, s, view, p); }
    forall q | 0 <= q < |view|
      ensures view[q] < |items|
      ensures q > p ==> view[q] >= j && User(items, view[q]) != User(items, j)
      ensures q < p ==> view[q] < j
    {
      ViewAt(items, s, view, q);
      if q < p {
        ViewOrder(items, s, view, q, p);
      } else if q > p {
        ViewOrder(items, s, view, p, q);
      }
    }
    forall k: nat | j <= k < |items| ensures User(items, k) >= User(items, j) {
      UsersSorted(items, j, k);
    }
    forall k: nat, m: nat | k < j <= m < |items| && Visible(items, s, k) && User(items, k) == User(items, m)
      ensures User(items, j) == User(items, m)
    {
      UsersSorted(items, k, j);
      UsersSorted(items, j, m);
    }
  }

  lemma {:induction false} ViewAt(items: Items, s: Sequence, view: seq<nat>, p: nat)
    requires IsView(items, s, view) && p < |view|
    ensures view[p] < |items| && Yields(items, s, view[p])
  {
  }

  lemma {:induction false} ViewOrder(items: Items, s: Sequence, view: seq<nat>, p: nat, q: nat)
    requires Sorted(items) && IsView(items, s, view) && p < q < |view|
    ensures view[p] < view[q] < |items| && User(items, view[p]) < User(items, view[q])
  {
    ViewUsersAscend(items, s, view, p, q);
  }

  /** Scanning starts at a seek position: nothing is hidden yet. */
  lemma {:induction false} ScanFromSeek(items: Items, s: Sequence, view: seq<nat>, user: UserKey, j: nat) returns (p: nat)
    requires Sorted(items) && Parses(items) && IsView(items, s, view)
    requires j == FirstAtOrAfter(items, LookupKey(user, s))
    ensures Scanning(items, s, view, p, j, None)
    ensures forall q | 0 <= q < |view| :: q < p <==> User(items, view[q]) < user
  {
    hide IsView, FirstAtOrAfter, Sorted;
    p := CutView(items, s, view, j);
    forall k: nat | k < |items| && Visible(items, s, k)
      ensures k < j <==> User(items, k) < user
    {
      SeekSplits(items, LookupKey(user, s), k);
      LookupSplitsKey(user, s, items[k].key);
    }
    forall q | 0 <= q < |view| ensures view[q] < |items| && Visible(items, s, view[q]) {
      ViewAt(items, s, view, q);
    }
  }

  lemma {:induction false} LookupSplitsKey(user: UserKey, s: Sequence, key: IKey)
    requires key.kind <= 1
    ensures Before(key, LookupKey(user, s)) <==> key.user < user || (key.user == user && key.seqno > s)
  {
  }

  lemma {:induction false} ScanFromStart(items: Items, s: Sequence, view: seq<nat>)
    requires IsView(items, s, view)
    ensures Scanning(items, s, view, 0, 0, None)
  {
  }

  /** Behind item j nothing visible has a smaller user key than the one shown in reverse. */
  ghost predicate Reversed(items: Items, s: Sequence, j: int, user: UserKey) {
    && -1 <= j < |items|
    && (j >= 0 ==> User(items, j) < user)
    && (forall k: nat | j < k < |items| && Visible(items, s, k) :: User(items, k) >= user)
  }

  /** The direction switch of Next. */
  lemma {:induction false} ScanFromReversed(items: Items, s: Sequence, view: seq<nat>, p: nat, j: int)
    requires Sorted(items) && IsView(items, s, view) && p < |view|
    requires Reversed(items, s, j, User(items, view[p]))
    ensures Scanning(items, s, view, p + 1, j + 1, Some(User(items, view[p])))
  {
    hide Sorted, IsView;
    ViewAt(items, s, view, p);
    var user := User(items, view[p]);
    forall k: nat | k <= j ensures User(items, k) < user {
      UsersSorted(items, k, j);
    }
    forall q | 0 <= q < |view|
      ensures view[q] < |items|
      ensures q > p ==> view[q] >= j + 1 && User(items, view[q]) != user
      ensures q < p ==> view[q] < j + 1
    {
      ViewAt(items, s, view, q);
      if q < p {
        ViewOrder(items, s, view, q, p);
      } else if q > p {
        ViewOrder(items, s, view, p, q);
      }
    }
  }

  /** Scanning backward at item j for view position p; c is the candidate seen last. */
  ghost predicate Returning(items: Items, s: Sequence, view: seq<nat>, p: int, j: int, c: Option<nat>) {
    && -1 <= j < |items| && -1 <= p < |view|
    && if c.None? then forall q | 0 <= q < |view| :: q <= p <==> view[q] <= j
       else
         && j < c.value < |items| && Visible(items, s, c.value) && items[c.value].key.kind == 1
         && (forall k: nat | j < k < c.value :: !Visible(items, s, k))
         && (forall q | 0 <= q < |view| :: q <= p <==> view[q] <= j || view[q] == c.value)
  }

  /** When the user key changes, or the items end, the candidate is what to show. */
  lemma {:induction false} ReturnFinds(items: Items, s: Sequence, view: seq<nat>, p: int, j: int, c: nat)
    requires Sorted(items) && IsView(items, s, view) && Returning(items, s, view, p, j, Some(c))
    requires j >= 0 ==> User(items, j) < User(items, c)
    ensures 0 <= p < |view| && view[p] == c && Reversed(items, s, j, User(items, c))
  {
    hide Sorted;
    forall k: nat | k < c && Visible(items, s, k) ensures User(items, k) != User(items, c) {
      UsersSorted(items, k, j);
    }
    assert Yields(items, s, c);
    var q :| 0 <= q < |view| && view[q] == c;
    forall k: nat | j < k < |items| && Visible(items, s, k) ensures User(items, k) >= User(items, c) {
      UsersSorted(items, c, k);
    }
  }

  /** An entry that is too new is passed over. */
  lemma {:induction false} ReturnPasses(items: Items, s: Sequence, view: seq<nat>, p: int, j: nat, c: Option<nat>)
    requires IsView(items, s, view) && Returning(items, s, view, p, j, c) && !Visible(items, s, j)
    ensures Returning(items, s, view, p, j - 1, c)
  {
    forall q | 0 <= q < |view| ensures view[q] != j {
      assert Yields(items, s, view[q]);
    }
  }

  /** A visible entry replaces the candidate of its user key. */
  lemma {:induction false} ReturnReplaces(items: Items, s: Sequence, view: seq<nat>, p: int, j: nat, c: Option<nat>)
    requires Sorted(items) && Parses(items) && IsView(items, s, view) && Returning(items, s, view, p, j, c)
    requires Visible(items, s, j)
    requires c.Some? ==> User(items, j) >= User(items, c.value)
    ensures Returning(items, s, view, p, j - 1, if items[j].key.kind == 0 then None else Some(j))
  {
    hide Sorted;
    forall q | 0 <= q < |view|
      ensures items[j].key.kind == 0 ==> view[q] != j
      ensures c.Some? ==> view[q] != c.value
    {
      assert Yields(items, s, view[q]);
      if c.Some? {
        UsersSorted(items, j, c.value);
      }
    }
  }

  lemma {:induction false} ReturnFromEnd(items: Items, s: Sequence, view: seq<nat>)
    requires IsView(items, s, view)
    ensures Returning(items, s, view, |view| - 1, |items| - 1, None)
  {
  }

  /** In front of the item shown, whichever way it was reached. */
  lemma {:induction false} ReturnFromReversed(items: Items, s: Sequence, view: seq<nat>, p: nat, j: int)
    requires Sorted(items) && IsView(items, s, view) && p < |view|
    requires Reversed(items, s, j, User(items, view[p]))
    ensures Returning(items, s, view, p - 1, j, None)
  {
    hide Sorted, IsView;
    ViewAt(items, s, view, p);
    forall k: nat | k <= j ensures User(items, k) < User(items, view[p]) {
      UsersSorted(items, k, j);
    }
    forall q | 0 <= q < |view| ensures q <= p - 1 <==> view[q] <= j {
      ViewAt(items, s, view, q);
      if q < p {
        ViewOrder(items, s, view, q, p);
      } else if q > p {
        ViewOrder(items, s, view, p, q);
      }
    }
  }

  class DBIter {
    const iter: Cursor<Value>
    const sequence: Sequence
    /** the current key and value when moving in reverse; the key is None while it is cleared */
    var savedKey: Option<UserKey>
    var savedValue: Value
    var forward: bool
    var valid: bool
    /** what a reader at this sequence number sees, and where this iterator stands in it */
    ghost const view: seq<nat>
    ghost var pos: nat

    ghost predicate Shape()
      reads iter
    {
      iter.Ok() && Parses(iter.items) && IsView(iter.items, sequence, view)
    }

    /** The inner iterator's item, -1 when it has none. */
    ghost function Inner(): int
      reads iter
    {
      if iter.Valid() then iter.at else -1
    }

    ghost predicate Ok()
      reads this, iter
    {
      && Shape()
      && if !valid then pos == |view|
         else
           && pos < |view| && view[pos] < |iter.items|
           && if forward then iter.at == view[pos]
              else
                && savedKey == Some(User(iter.items, view[pos])) && savedValue == iter.items[view[pos]].value
                && Reversed(iter.items, sequence, Inner(), User(iter.items, view[pos]))
    }

    constructor (iter: Cursor<Value>, sequence: Sequence)
      requires iter.Ok() && Parses(iter.items)
      ensures Ok() && !valid && this.iter == iter && this.sequence == sequence
    {
      this.iter, this.sequence := iter, sequence;
      forward, valid, savedKey, savedValue := true, false, None, [];
      view := View(iter.items, sequence, |iter.items|);
      pos := |View(iter.items, sequence, |iter.items|)|;
      new;
      ViewIsView(iter.items, sequence);
    }

    function Key(): (k: UserKey)
      requires Ok() && valid
      reads this, iter
      ensures k == User(iter.items, view[pos])
    {
      if forward then iter.Key().user else savedKey.value
    }

    function GetValue(): (v: Value)
      requires Ok() && valid
      reads this, iter
      ensures v == iter.items[view[pos]].value
    {
      if forward then iter.Value() else savedValue
    }

    /** FindNextUserEntry: skip what is too new, deleted, overwritten or asked to be skipped. */
    method FindNextUserEntry(skipping: bool, ghost p: nat)
      requires Shape() && iter.Valid() && forward && (skipping ==> savedKey.Some?)
      requires Scanning(iter.items, sequence, view, p, iter.at, if skipping then savedKey else None)
      modifies this`valid, this`savedKey, this`pos, iter
      ensures Ok() && pos == p
    {
      hide Sorted, IsView, Scanning;
      var skip := skipping;
      while true
        invariant Shape() && iter.Valid() && (skip ==> savedKey.Some?)
        invariant Scanning(iter.items, sequence, view, p, iter.at, if skip then savedKey else None)
        decreases |iter.items| - iter.at
      {
        ghost var hidden, j := if skip then savedKey else None, iter.at;
        if iter.Key().seqno <= sequence {
          if iter.Key().kind == 0 {
            ScanDeletion(iter.items, sequence, view, p, j, hidden);
            savedKey, skip := Some(iter.Key().user), true;
          } else if skip && iter.Key().user <= savedKey.value {
            ScanPasses(iter.items, sequence, view, p, j, hidden);
          } else {
            ScanFinds(iter.items, sequence, view, p, j, hidden);
            valid, savedKey, pos := true, None, p;
            return;
          }
        } else {
          ScanPasses(iter.items, sequence, view, p, j, hidden);
        }
        iter.Next();
        if !iter.Valid() {
          break;
        }
      }
      ScanEnd(iter.items, sequence, view, p, iter.at, if skip then savedKey else None);
      savedKey, valid, pos := None, false, p;
    }

    /** FindPrevUserEntry: the newest visible value of the nearest user key that has one. */
    method FindPrevUserEntry(ghost p: int)
      requires Shape() && !forward
      requires Returning(iter.items, sequence, view, p, Inner(), None)
      modifies this`valid, this`savedKey, this`savedValue, this`forward, this`pos, iter
      ensures Ok() && pos == if p < 0 then |view| else p
    {
      hide Sorted, IsView, Returning, Reversed;
      var deletion := true;
      ghost var c: Option<nat> := None;
      while iter.Valid()
        invariant Shape() && !forward && (deletion <==> c.None?)
        invariant Returning(iter.items, sequence, view, p, Inner(), c)
        invariant c.Some? ==> c.value < |iter.items| && savedKey == Some(User(iter.items, c.value))
        invariant c.Some? ==> savedValue == iter.items[c.value].value
        decreases Inner()
      {
        ghost var j := iter.at;
        if iter.Key().seqno <= sequence {
          if !deletion && iter.Key().user < savedKey.value {
            break;
          }
          ReturnReplaces(iter.items, sequence, view, p, j, c);
          deletion := iter.Key().kind == 0;
          c := if deletion then None else Some(j);
          if deletion {
            savedKey, savedValue := None, [];
          } else {
            savedKey, savedValue := Some(iter.Key().user), iter.Value();
          }
        } else {
          ReturnPasses(iter.items, sequence, view, p, j, c);
        }
        iter.Prev();
      }
      if deletion {
        ReturnEnd(iter.items, sequence, view, p);
        valid, savedKey, savedValue, forward := false, None, [], true;
        pos := |view|;
      } else {
        ReturnFinds(iter.items, sequence, view, p, Inner(), c.value);
        valid, pos := true, p;
      }
    }

    method Next()
      requires Ok() && valid
      modifies this`valid, this`savedKey, this`forward, this`pos, iter
      ensures Ok() && pos == old(pos) + 1
    {
      hide Sorted, IsView, Scanning, Reversed;
      ghost var items := iter.items;
      if !forward {
        forward := true;
        ScanFromReversed(items, sequence, view, pos, Inner());
        if !iter.Valid() {
          iter.SeekToFirst();
        } else {
          iter.Next();
        }
        if !iter.Valid() {
          ScanEnd(items, sequence, view, pos + 1, iter.at, savedKey);
          valid, savedKey, pos := false, None, pos + 1;
          return;
        }
      } else {
        ScanFromShown(items, sequence, view, pos);
        savedKey := Some(iter.Key().user);
      }
      FindNextUserEntry(true, pos + 1);
    }

    method Prev()
      requires Ok() && valid
      modifies this`valid, this`savedKey, this`savedValue, this`forward, this`pos, iter
      ensures Ok() && pos == if old(pos) == 0 then |view| else old(pos) - 1
    {
      hide Sorted, IsView, Returning, Reversed;
      ghost var items := iter.items;
      if forward {
        savedKey := Some(iter.Key().user);
        forall k | iter.at <= k < |items| ensures User(items, k) >= User(items, view[pos]) {
          UsersSorted(items, iter.at, k);
        }
        while true
          invariant Shape() && valid && forward && pos == old(pos) < |view| && iter.Valid()
          invariant view[pos] < |items| && savedKey == Some(User(items, view[pos])) && iter.at <= view[pos]
          invariant forall k | iter.at <= k < |items| :: User(items, k) >= User(items, view[pos])
          decreases iter.at
        {
          iter.Prev();
          if !iter.Valid() {
            FirstShown(items, sequence, view, pos);
            valid, savedKey, savedValue, pos := false, None, [], |view|;
            return;
          }
          if iter.Key().user < savedKey.value {
            break;
          }
        }
        forward := false;
        ScannedBack(items, sequence, iter.at, User(items, view[pos]));
      }
      ReturnFromReversed(items, sequence, view, pos, Inner());
      FindPrevUserEntry(pos - 1);
    }

    method Seek(target: UserKey)
      requires Ok()
      modifies this`valid, this`savedKey, this`savedValue, this`forward, this`pos, iter
      ensures Ok() && forall q | 0 <= q < |view| :: q < pos <==> User(iter.items, view[q]) < target
    {
      hide Sorted, IsView, Scanning, Reversed, FirstAtOrAfter;
      forward, savedValue, savedKey := true, [], None;
      iter.Seek(LookupKey(target, sequence));
      ghost var p := ScanFromSeek(iter.items, sequence, view, target, iter.at);
      if iter.Valid() {
        FindNextUserEntry(false, p);
      } else {
        ScanEnd(iter.items, sequence, view, p, iter.at, None);
        valid, pos := false, p;
      }
    }

    method SeekToFirst()
      requires Ok()
      modifies this`valid, this`savedKey, this`savedValue, this`forward, this`pos, iter
      ensures Ok() && pos == 0
    {
      hide Sorted, IsView, Scanning, Reversed;
      forward, savedValue := true, [];
      iter.SeekToFirst();
      ScanFromStart(iter.items, sequence, view);
      if iter.Valid() {
        FindNextUserEntry(false, 0);
      } else {
        ScanEnd(iter.items, sequence, view, 0, iter.at, None);
        valid, pos := false, 0;
      }
    }

    method SeekToLast()
      requires Ok()
      modifies this`valid, this`savedKey, this`savedValue, this`forward, this`pos, iter
      ensures Ok() && pos == if |view| == 0 then 0 else |view| - 1
    {
      hide Sorted, IsView, Returning, Reversed;
      forward, savedValue := false, [];
      iter.SeekToLast();
      ReturnFromEnd(iter.items, sequence, view);
      FindPrevUserEntry(|view| - 1);
    }
  }

  function Nth(view: seq<nat>, p: int): nat {
    if 0 <= p < |view| then view[p] else 0
  }

  /** Scanning past the last item has shown everything. */
  lemma {:induction false} ScanEnd(items: Items, s: Sequence, view: seq<nat>, p: nat, j: nat, hidden: Option<UserKey>)
    requires Scanning(items, s, view, p, j, hidden) && j >= |items|
    ensures p == |view|
  {
    var shown := Nth(view, p);
  }

  lemma {:induction false} ReturnEnd(items: Items, s: Sequence, view: seq<nat>, p: int)
    requires Returning(items, s, view, p, -1, None)
    ensures p == -1
  {
    var shown := Nth(view, p);
  }

  /** With no smaller user key in front of it, the item shown is the first of the view. */
  lemma {:induction false} FirstShown(items: Items, s: Sequence, view: seq<nat>, p: nat)
    requires Sorted(items) && IsView(items, s, view) && p < |view|
    requires forall k: nat | k < |items| :: User(items, k) >= User(items, view[p])
    ensures p == 0
  {
    hide Sorted, IsView;
    ViewAt(items, s, view, 0);
    if p > 0 {
      ViewOrder(items, s, view, 0, p);
    }
  }

  lemma {:induction false} ScannedBack(items: Items, s: Sequence, j: nat, user: UserKey)
    requires j < |items| && User(items, j) < user
    requires forall k: nat | j < k < |items| :: User(items, k) >= user
    ensures Reversed(items, s, j, user)
  {
  }
}
