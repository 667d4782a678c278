/** Building a table and looking a key up in it (table/table_builder.cc, table/table.cc). */
module Tables {
  import opened Basics
  import opened InternalKeys
  import opened Cursors
  import opened TwoLevels
  import opened FilterBlocks

  type Items = seq<Item<Value>>

  /** The shortening functions of a user comparator, and whether their result is the shorter string. */
  datatype ShortenerRep = ShortenerRep(between: (UserKey, UserKey) -> UserKey, after: UserKey -> UserKey, shorter: (UserKey, UserKey) -> bool) {
    ghost predicate Ok() {
      && (forall a, b :: if a < b then a <= between(a, b) < b else between(a, b) == a)
      && (forall a :: a <= after(a))
    }
  }

  type Shortener = s: ShortenerRep | s.Ok()
    witness ShortenerRep((a: UserKey, b: UserKey) => a, (a: UserKey) => a, (a: UserKey, b: UserKey) => false)

  /** InternalKeyComparator::FindShortestSeparator. */
  function Separator(c: Shortener, start: IKey, limit: IKey): IKey {
    var tmp := c.between(start.user, limit.user);
    if c.shorter(tmp, start.user) && start.user < tmp then IKey(tmp, MAX_SEQUENCE, 1) else start
  }

  /** InternalKeyComparator::FindShortSuccessor. */
  function Successor(c: Shortener, key: IKey): IKey {
    var tmp := c.after(key.user);
    if c.shorter(tmp, key.user) && key.user < tmp then IKey(tmp, MAX_SEQUENCE, 1) else key
  }

  /** A separator is at or after start and before limit; a new one is before all of limit's user key. It is the
      comparator's, in front of all versions of that user key, whenever that is shorter and after start. */
  lemma {:induction false} SeparatorSeparates(c: Shortener, start: IKey, limit: IKey)
    requires Before(start, limit)
    ensures var k := Separator(c, start, limit);
      && !Before(k, start) && Before(k, limit) && (k == start || (Before(start, k) && k.user < limit.user))
      && var tmp := c.between(start.user, limit.user);
         if c.shorter(tmp, start.user) && tmp > start.user then k.user == tmp && k.seqno == 0xFF_FFFF_FFFF_FFFF && k.kind == 1 else k == start
  {
    assert if start.user < limit.user then start.user <= c.between(start.user, limit.user) < limit.user
           else c.between(start.user, limit.user) == start.user;
  }

  lemma {:induction false} SuccessorFollows(c: Shortener, key: IKey)
    ensures !Before(Successor(c, key), key)
  {
  }

  lemma {:induction false} BeforeTransitive(a: IKey, b: IKey, c: IKey)
    requires Before(a, b) && Before(b, c)
    ensures Before(a, c)
  {
  }

  lemma {:induction false} AtOrAfterTransitive(a: IKey, b: IKey, c: IKey)
    requires !Before(a, b) && Before(c, b)
    ensures Before(c, a)
  {
  }

  /** The limit of a block is one of its keys, or it is before the user keys of all that follows. */
  ghost predicate Tight(limit: IKey, chunk: Items, rest: Items) {
    || (chunk != [] && limit == chunk[|chunk| - 1].key)
    || forall x | x in rest :: limit.user < x.key.user
  }

  /** A limit closes its block, precedes what follows, and is tight. */
  ghost predicate Separates(limit: IKey, chunk: Items, rest: Items) {
    && Closes(limit, chunk) && Precedes(limit, rest) && Tight(limit, chunk, rest)
  }

  /** What may follow a separator may follow more of the same: items after the first one. */
  lemma {:induction false} SeparatesMore(limit: IKey, chunk: Items, rest: Items, x: Item<Value>)
    requires Separates(limit, chunk, rest)
    requires rest != [] && Before(rest[|rest| - 1].key, x.key)
    ensures Separates(limit, chunk, rest + [x])
  {
    var last := rest[|rest| - 1];
    assert Before(limit, last.key);
    BeforeTransitive(limit, last.key, x.key);
    assert last in rest;
  }

  /** A separator computed when the next item arrives separates. */
  lemma {:induction false} NewSeparator(c: Shortener, chunk: Items, x: Item<Value>)
    requires Sorted(chunk) && chunk != [] && Before(chunk[|chunk| - 1].key, x.key)
    ensures Separates(Separator(c, chunk[|chunk| - 1].key, x.key), chunk, [x])
  {
    var last := chunk[|chunk| - 1].key;
    var limit := Separator(c, last, x.key);
    SeparatorSeparates(c, last, x.key);
    AtEndCloses(chunk, limit);
  }

  lemma {:induction false} AtEndCloses(chunk: Items, limit: IKey)
    requires Sorted(chunk) && chunk != [] && !Before(limit, chunk[|chunk| - 1].key)
    ensures Closes(limit, chunk)
  {
    forall k | 0 <= k < |chunk| ensures !Before(limit, chunk[k].key) {
      if k < |chunk| - 1 {
        AtOrAfterTransitive(limit, chunk[|chunk| - 1].key, chunk[k].key);
      }
    }
  }

  /** A finished table: the index, which leads to the offsets of the blocks, and the filter block if any. */
  datatype Table = Table(index: seq<Item<Handle>>, filter: Option<Reader>, policy: Policy)

  ghost predicate Filtered(t: Table, chunks: seq<Items>)
    requires |t.index| == |chunks|
  {
    forall i, x | 0 <= i < |chunks| && x in chunks[i] :: MayMatch(t, t.index[i].value, x.key.user)
  }

  predicate MayMatch(t: Table, handle: Handle, user: UserKey) {
    t.filter.Some? ==> KeyMayMatch(t.policy, t.filter.value, handle, user)
  }

  /** The table holds the items in blocks, indexed by tight separators; no filter hides any. */
  ghost predicate Holds(t: Table, items: Items, chunks: seq<Items>) {
    && Flatten(chunks) == items && Sorted(items) && |t.index| == |chunks| && Indexed(t.index, chunks) && Filtered(t, chunks)
    && forall i, j | 0 <= i < j < |chunks| :: Tight(t.index[i].key, chunks[i], chunks[j])
  }

  /** A key between the items of a block and what follows has not the user key of the next item. */
  lemma {:induction false} PastTheBlock(limit: IKey, chunk: Items, rest: Items, k: IKey, x: Item<Value>)
    requires Tight(limit, chunk, rest) && Sorted(chunk) && x in rest && !Before(limit, k)
    requires forall j | 0 <= j < |chunk| :: Before(chunk[j].key, k)
    ensures x.key.user != k.user
  {
  }

  /** Seeking the index and then the block finds the position in the whole table. */
  lemma {:induction false} WhereItIs(t: Table, k: IKey, items: Items, chunks: seq<Items>)
    requires Holds(t, items, chunks)
    ensures var p, i := FirstAtOrAfter(items, k), FirstAtOrAfter(t.index, k);
      if i >= |chunks| then p == |items|
      else p == Start(chunks, i) + FirstAtOrAfter(chunks[i], k)
  {
    hide Indexed, Start, FirstAtOrAfter, Splits, Tight, Sorted;
    var n := |chunks|;
    assert chunks[..n] == chunks;
    var i := FirstAtOrAfter(t.index, k);
    SeekBoth(t.index, chunks, k, n);
    StartIsLength(chunks, n);
    SplitIsSeek(items, if i >= n then Start(chunks, n) else Start(chunks, i) + FirstAtOrAfter(chunks[i], k), k);
  }

  /** If the block is at its end there, the next item has another user key. */
  lemma {:induction false} NotPastTheBlock(t: Table, k: IKey, items: Items, chunks: seq<Items>)
    requires Holds(t, items, chunks)
    ensures var p, i := FirstAtOrAfter(items, k), FirstAtOrAfter(t.index, k);
      i < |chunks| ==>
        if FirstAtOrAfter(chunks[i], k) < |chunks[i]| then p < |items| && items[p] == chunks[i][FirstAtOrAfter(chunks[i], k)]
        else p < |items| ==> items[p].key.user != k.user
  {
    hide Start, FirstAtOrAfter, Tight, Closes, Precedes, MayMatch;
    var p, i := FirstAtOrAfter(items, k), FirstAtOrAfter(t.index, k);
    WhereItIs(t, k, items, chunks);
    if i < |chunks| {
      var j := FirstAtOrAfter(chunks[i], k);
      if j < |chunks[i]| {
        CutElement(chunks, i, j);
      } else if p < |items| {
        SeekSplits(t.index, k, i);
        forall q: nat | q < |chunks[i]| ensures Before(chunks[i][q].key, k) {
          SeekSplits(chunks[i], k, q);
        }
        StartStep(chunks, i);
        var m := NextBlock(chunks, i + 1, p);
        PastTheBlock(t.index[i].key, chunks[i], chunks[m], k, items[p]);
      }
    }
  }

  /** The block in which a position of the whole table lies. */
  lemma {:induction false} NextBlock(chunks: seq<Items>, i: nat, p: nat) returns (m: nat)
    requires i <= |chunks| && Start(chunks, i) <= p < |Flatten(chunks)|
    ensures i <= m < |chunks| && Flatten(chunks)[p] in chunks[m]
    decreases |chunks| - i
  {
    hide Start;
    StartIsLength(chunks, |chunks|);
    assert chunks[..|chunks|] == chunks;
    if i < |chunks| {
      StartStep(chunks, i);
      if p < Start(chunks, i + 1) {
        m := i;
        CutElement(chunks, i, p - Start(chunks, i));
      } else {
        m := NextBlock(chunks, i + 1, p);
      }
    }
  }

  /** A filter that says no is right about the item there. */
  lemma {:induction false} FilterIsRight(t: Table, k: IKey, items: Items, chunks: seq<Items>)
    requires Holds(t, items, chunks)
    ensures var p, i := FirstAtOrAfter(items, k), FirstAtOrAfter(t.index, k);
      i < |chunks| && !MayMatch(t, t.index[i].value, k.user) ==> p < |items| ==> items[p].key.user != k.user
  {
    hide Start, FirstAtOrAfter, Tight, MayMatch, Indexed;
    NotPastTheBlock(t, k, items, chunks);
    var i := FirstAtOrAfter(t.index, k);
    if i < |chunks| && FirstAtOrAfter(chunks[i], k) < |chunks[i]| {
      assert chunks[i][FirstAtOrAfter(chunks[i], k)] in chunks[i];
    }
  }

  /** The first item at or after a lookup key is the newest version that a reader at s may see, and
      of another user key if there is none. */
  lemma {:induction false} LookupFindsNewest(items: Items, user: UserKey, s: Sequence, j: nat)
    requires Sorted(items) && (forall i | 0 <= i < |items| :: items[i].key.kind <= 1)
    requires j < |items| && items[j].key.user == user && items[j].key.seqno <= s
    ensures var p := FirstAtOrAfter(items, LookupKey(user, s));
      p <= j && items[p].key.user == user && items[j].key.seqno <= items[p].key.seqno <= s
  {
    var p := FirstAtOrAfter(items, LookupKey(user, s));
    SeekSplits(items, LookupKey(user, s), j);
    SeekSplits(items, LookupKey(user, s), p);
    if p < j {
      assert Before(items[p].key, items[j].key);
    }
  }

  lemma {:induction false} HeldSorted(t: Table, items: Items, chunks: seq<Items>)
    requires Holds(t, items, chunks)
    ensures Sorted(items)
  {
  }
}
