/**
 * The iterator contract (include/leveldb/iterator.h) over sorted items. Every iterator of the store
 * is a cursor on such a list; leaving the list at either end makes it invalid.
 */
module Cursors {
  import opened InternalKeys

  datatype Item<+V> = Item(key: IKey, value: V)

  ghost predicate Sorted<V>(items: seq<Item<V>>) {
    forall i, j | 0 <= i < j < |items| :: Before(items[i].key, items[j].key)
  }

  /** The first item at or after target. */
  function FirstAtOrAfter<V>(items: seq<Item<V>>, target: IKey): (i: nat)
    ensures i <= |items|
  {
    if items == [] || !Before(items[0].key, target) then 0
    else 1 + FirstAtOrAfter(items[1..], target)
  }

  lemma {:induction false} SeekSplits<V>(items: seq<Item<V>>, target: IKey, j: nat)
    requires Sorted(items) && j < |items|
    ensures j < FirstAtOrAfter(items, target) <==> Before(items[j].key, target)
  {
    if !Before(items[0].key, target) {
      assert j == 0 || Before(items[0].key, items[j].key);
    } else if j > 0 {
      assert items[1..][j - 1] == items[j];
      SeekSplits(items[1..], target, j - 1);
    }
  }

  /** Two items of a sorted list with the same key are the same item. */
  lemma {:induction false} KeysDiffer<V>(items: seq<Item<V>>, i: nat, j: nat)
    requires Sorted(items) && i < |items| && j < |items| && items[i].key == items[j].key
    ensures i == j
  {
  }

  class Cursor<V> {
    const items: seq<Item<V>>
    /** |items| when the cursor is not valid */
    var at: nat

    ghost predicate Ok()
      reads this
    {
      Sorted(items) && at <= |items|
    }

    constructor (items: seq<Item<V>>)
      requires Sorted(items)
      ensures Ok() && this.items == items && at == |items|
    {
      this.items, at := items, |items|;
    }

    predicate Valid()
      reads this
    {
      at < |items|
    }

    function Key(): IKey
      requires Valid()
      reads this
    {
      items[at].key
    }

    function Value(): V
      requires Valid()
      reads this
    {
      items[at].value
    }

    method SeekToFirst()
      modifies this
      ensures at == 0
    {
      at := 0;
    }

    method SeekToLast()
      modifies this
      ensures at == if |items| == 0 then 0 else |items| - 1
    {
      at := if |items| == 0 then 0 else |items| - 1;
    }

    method Seek(target: IKey)
      modifies this
      ensures at == FirstAtOrAfter(items, target)
    {
      at := FirstAtOrAfter(items, target);
    }

    method Next()
      requires Valid()
      modifies this
      ensures at == old(at) + 1
    {
      at := at + 1;
    }

    method Prev()
      requires Valid()
      modifies this
      ensures at == if old(at) == 0 then |items| else old(at) - 1
    {
      at := if at == 0 then |items| else at - 1;
    }
  }
}
