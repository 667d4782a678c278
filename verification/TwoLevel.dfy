/** A cursor over the concatenation of the blocks an index names (table/two_level_iterator.cc). */
module TwoLevels {
  import opened Basics
  import opened InternalKeys
  import opened Cursors

  type Handle = nat

  /** The position at which block i starts in the concatenation. */
  ghost function Start<V>(chunks: seq<seq<Item<V>>>, i: nat): nat
    requires i <= |chunks|
  {
    if i == 0 then 0 else Start(chunks, i - 1) + |chunks[i - 1]|
  }

  lemma {:induction false} StartStep<V>(chunks: seq<seq<Item<V>>>, i: nat)
    requires i < |chunks|
    ensures Start(chunks, i + 1) == Start(chunks, i) + |chunks[i]|
  {
  }

  lemma {:induction false} StartIsLength<V>(chunks: seq<seq<Item<V>>>, i: nat)
    requires i <= |chunks|
    ensures Start(chunks, i) == |Flatten(chunks[..i])|
  {
    if i > 0 {
      StartIsLength(chunks, i - 1);
      assert chunks[..i] == chunks[..i - 1] + [chunks[i - 1]];
      FlattenAppend(chunks[..i - 1], chunks[i - 1]);
    }
  }

  lemma {:induction false} FlattenSplit<V>(a: seq<seq<Item<V>>>, b: seq<seq<Item<V>>>)
    ensures Flatten(a + b) == Flatten(a) + Flatten(b)
  {
    if a == [] {
      assert a + b == b;
    } else {
      assert (a + b)[1..] == a[1..] + b;
      FlattenSplit(a[1..], b);
    }
  }

  /** The concatenation cut at block i. */
  lemma {:induction false} CutAtBlock<V>(chunks: seq<seq<Item<V>>>, i: nat)
    requires i < |chunks|
    ensures Start(chunks, i) + |chunks[i]| <= |Flatten(chunks)|
    ensures Flatten(chunks)[Start(chunks, i)..Start(chunks, i) + |chunks[i]|] == chunks[i]
  {
    StartIsLength(chunks, i);
    var rest := chunks[i + 1..];
    assert chunks[i..] == [chunks[i]] + rest;
    assert chunks == chunks[..i] + chunks[i..];
    FlattenSplit(chunks[..i], chunks[i..]);
    assert Flatten(chunks[i..]) == chunks[i] + Flatten(chunks[i..][1..]);
  }

  lemma {:induction false} CutElement<V>(chunks: seq<seq<Item<V>>>, i: nat, j: nat)
    requires i < |chunks| && j < |chunks[i]|
    ensures Start(chunks, i) + j < |Flatten(chunks)| && Flatten(chunks)[Start(chunks, i) + j] == chunks[i][j]
  {
    CutAtBlock(chunks, i);
    assert chunks[i][j] == Flatten(chunks)[Start(chunks, i)..Start(chunks, i) + |chunks[i]|][j];
  }

  /** Each index key is at or after its block's items and before the items of later blocks. */
  ghost predicate Indexed<V>(limits: seq<Item<Handle>>, chunks: seq<seq<Item<V>>>) {
    && |limits| == |chunks| && Sorted(limits)
    && (forall i | 0 <= i < |chunks| :: Sorted(chunks[i]) && Closes(limits[i].key, chunks[i]))
    && (forall i, j | 0 <= i < j < |chunks| :: Precedes(limits[i].key, chunks[j]))
  }

  ghost predicate Closes<V>(limit: IKey, chunk: seq<Item<V>>) {
    forall k | 0 <= k < |chunk| :: !Before(limit, chunk[k].key)
  }

  ghost predicate Precedes<V>(limit: IKey, chunk: seq<Item<V>>) {
    forall k | 0 <= k < |chunk| :: Before(limit, chunk[k].key)
  }

  /** s splits at target: everything up to p is before it, everything from p on is not. */
  ghost predicate Splits<V>(s: seq<Item<V>>, p: nat, target: IKey) {
    p <= |s| && forall k: nat | k < |s| :: k < p <==> Before(s[k].key, target)
  }

  /** Seeking in the index and then in the block splits the whole concatenation at the target. */
  lemma {:induction false} SeekBoth<V>(limits: seq<Item<Handle>>, chunks: seq<seq<Item<V>>>, target: IKey, n: nat)
    requires Indexed(limits, chunks) && n <= |chunks|
    ensures var i := FirstAtOrAfter(limits, target);
      var p := if i >= n then Start(chunks, n) else Start(chunks, i) + FirstAtOrAfter(chunks[i], target);
      |Flatten(chunks[..n])| == Start(chunks, n) && Splits(Flatten(chunks[..n]), p, target)
  {
    hide Sorted, Closes, Precedes, Before;
    StartIsLength(chunks, n);
    if n == 0 {
      assert Flatten(chunks[..0]) == [];
    } else {
      var i, last := FirstAtOrAfter(limits, target), chunks[n - 1];
      SeekBoth(limits, chunks, target, n - 1);
      assert chunks[..n] == chunks[..n - 1] + [last];
      FlattenAppend(chunks[..n - 1], last);
      LastBlock(limits, chunks, target, n);
      var q := if i >= n then |last| else if i == n - 1 then FirstAtOrAfter(last, target) else 0;
      var a := Flatten(chunks[..n - 1]);
      var p := if i >= n then Start(chunks, n) else Start(chunks, i) + FirstAtOrAfter(chunks[i], target);
      var p1 := if i >= n - 1 then Start(chunks, n - 1) else Start(chunks, i) + FirstAtOrAfter(chunks[i], target);
      assert p1 + q == p;
      SplitsAppend(a, last, p1, q, target);
    }
  }

  lemma {:induction false} SplitsAppend<V>(a: seq<Item<V>>, b: seq<Item<V>>, p: nat, q: nat, target: IKey)
    requires Splits(a, p, target) && Splits(b, q, target)
    requires p < |a| ==> q == 0
    ensures Splits(a + b, p + q, target)
  {
    hide Before;
    var s := a + b;
    forall k: nat | k < |s| ensures k < p + q <==> Before(s[k].key, target) {
      assert s[k] == if k < |a| then a[k] else b[k - |a|];
    }
  }

  /** How one block splits. */
  lemma {:induction false} LastBlock<V>(limits: seq<Item<Handle>>, chunks: seq<seq<Item<V>>>, target: IKey, n: nat)
    requires Indexed(limits, chunks) && 0 < n <= |chunks|
    ensures var i := FirstAtOrAfter(limits, target);
      Splits(chunks[n - 1], if i >= n then |chunks[n - 1]| else if i == n - 1 then FirstAtOrAfter(chunks[n - 1], target) else 0,
             target)
  {
    var i, last := FirstAtOrAfter(limits, target), chunks[n - 1];
    SeekSplits(limits, target, n - 1);
    if i < n - 1 {
      SeekSplits(limits, target, i);
      assert Precedes(limits[i].key, last);
    } else {
      assert Closes(limits[n - 1].key, last);
    }
    forall k: nat | k < |last| ensures k < FirstAtOrAfter(last, target) <==> Before(last[k].key, target) {
      SeekSplits(last, target, k);
    }
  }

  /** What splits a sorted list at a target is where a seek lands. */
  lemma {:induction false} SplitIsSeek<V>(s: seq<Item<V>>, p: nat, target: IKey)
    requires Splits(s, p, target)
    ensures FirstAtOrAfter(s, target) == p
  {
    hide Before;
    if s != [] && Before(s[0].key, target) {
      forall k: nat | k < |s[1..]| ensures k < p - 1 <==> Before(s[1..][k].key, target) {
        assert s[1..][k] == s[k + 1];
      }
      SplitIsSeek(s[1..], p - 1, target);
    }
  }

  class TwoLevelIterator<V> {
    const index: Cursor<Handle>
    const blockOf: Handle -> seq<Item<V>>
    var data: Cursor?<V>
    var dataBlockHandle: Handle
    /** where this iterator stands in the concatenation of the blocks */
    ghost var pos: nat

    ghost function Chunks(): (r: seq<seq<Item<V>>>)
      ensures |r| == |index.items| && forall i | 0 <= i < |r| :: r[i] == blockOf(index.items[i].value)
    {
      seq(|index.items|, i requires 0 <= i < |index.items| => blockOf(index.items[i].value))
    }

    ghost function All(): seq<Item<V>> {
      Flatten(Chunks())
    }

    /** A block is open exactly when its handle is kept, and it is a block of the index. */
    ghost predicate Shape()
      reads this, index, data
    {
      && Indexed(index.items, Chunks()) && index.Ok()
      && (data != null ==> (data as object?) != index && data.Ok() && data.items == blockOf(dataBlockHandle))
    }

    /** The open block is the one the index stands on. */
    ghost predicate InBlock()
      reads this, index, data
    {
      index.Valid() && data != null && dataBlockHandle == index.Value()
    }

    ghost predicate Ok()
      reads this, index, data
    {
      && Shape()
      && if data == null then pos == |All()|
         else InBlock() && data.Valid() && pos == Start(Chunks(), index.at) + data.at
    }

    constructor (index: Cursor<Handle>, blockOf: Handle -> seq<Item<V>>)
      requires index.Ok()
      requires Indexed(index.items, seq(|index.items|, i requires 0 <= i < |index.items| => blockOf(index.items[i].value)))
      ensures Ok() && this.index == index && this.blockOf == blockOf && pos == |All()|
    {
      this.index, this.blockOf := index, blockOf;
      data, dataBlockHandle := null, 0;
      new;
      pos := |All()|;
      assert Chunks() == seq(|index.items|, i requires 0 <= i < |index.items| => blockOf(index.items[i].value));
    }

    predicate Valid()
      reads this, data
    {
      data != null && data.Valid()
    }

    lemma {:induction false} Current()
      requires Ok() && Valid()
      ensures pos < |All()| && data.items[data.at] == All()[pos]
    {
      CutElement(Chunks(), index.at, data.at);
    }

    function Key(): IKey
      requires Ok() && Valid()
      reads this, index, data
      ensures pos < |All()| && Key() == All()[pos].key
    {
      Current();
      data.Key()
    }

    function Value(): V
      requires Ok() && Valid()
      reads this, index, data
      ensures pos < |All()| && Value() == All()[pos].value
    {
      Current();
      data.Value()
    }

    /** Opens the block the index stands on, unless it is open already. */
    method InitDataBlock()
      requires Shape()
      modifies this`data, this`dataBlockHandle
      ensures Shape() && (data == null || data == old(data) || fresh(data))
      ensures if index.Valid() then InBlock() else data == null
    {
      if !index.Valid() {
        data := null;
      } else {
        var handle := index.Value();
        if data != null && handle == dataBlockHandle {
        } else {
          assert Sorted(Chunks()[index.at]);
          var iter := new Cursor(blockOf(handle));
          dataBlockHandle := handle;
          data := iter;
        }
      }
    }

    /** Moving forward towards position p: what is left of the open block starts there. */
    ghost predicate Forward(p: int)
      reads this, index, data
    {
      if index.Valid() then InBlock() && Start(Chunks(), index.at) + data.at == p
      else data == null && p == |All()|
    }

    /** Moving backward towards position p. */
    ghost predicate Backward(p: int)
      reads this, index, data
    {
      if index.Valid() then InBlock() && Start(Chunks(), index.at) + (if data.Valid() then data.at else -1) == p
      else data == null && p == -1
    }

    lemma {:induction false} NextBlockStart(i: nat)
      requires i < |Chunks()|
      ensures Start(Chunks(), i + 1) == Start(Chunks(), i) + |blockOf(index.items[i].value)|
      ensures i + 1 == |Chunks()| ==> Start(Chunks(), i + 1) == |All()|
    {
      if i + 1 == |Chunks()| {
        StartIsLength(Chunks(), i + 1);
        assert Chunks()[..i + 1] == Chunks();
      }
    }

    method SkipEmptyDataBlocksForward(ghost p: int)
      requires Shape() && Forward(p)
      modifies this, index, data
      ensures Ok() && pos == p && (data == null || data == old(data) || fresh(data))
    {
      hide Indexed, Start, All;
      while data == null || !data.Valid()
        invariant Shape() && Forward(p) && (data == null || data == old(data) || fresh(data))
        decreases |index.items| - index.at
      {
        if !index.Valid() {
          data, pos := null, p;
          return;
        }
        NextBlockStart(index.at);
        index.Next();
        InitDataBlock();
        if data != null {
          data.SeekToFirst();
        }
      }
      pos := p;
    }

    method SkipEmptyDataBlocksBackward(ghost p: int)
      requires Shape() && Backward(p)
      modifies this, index, data
      ensures Ok() && (data == null || data == old(data) || fresh(data))
      ensures pos == if p < 0 then |All()| else p
    {
      hide Indexed, Start, All;
      while data == null || !data.Valid()
        invariant Shape() && Backward(p) && (data == null || data == old(data) || fresh(data))
        decreases if index.Valid() then index.at + 1 else 0
      {
        if !index.Valid() {
          data, pos := null, |All()|;
          return;
        }
        BeforeBlock(index.at);
        index.Prev();
        InitDataBlock();
        if data != null {
          data.SeekToLast();
        }
      }
      pos := p;
    }

    lemma {:induction false} BeforeBlock(i: nat)
      requires i < |Chunks()|
      ensures if i == 0 then Start(Chunks(), i) == 0
              else Start(Chunks(), i) == Start(Chunks(), i - 1) + |blockOf(index.items[i - 1].value)|
    {
    }

    method SeekToFirst()
      requires Ok()
      modifies this, index, data
      ensures Ok() && pos == 0
    {
      hide Indexed;
      index.SeekToFirst();
      InitDataBlock();
      if data != null {
        data.SeekToFirst();
      } else {
        assert All() == [];
      }
      SkipEmptyDataBlocksForward(0);
    }

    method SeekToLast()
      requires Ok()
      modifies this, index, data
      ensures Ok() && pos == if |All()| == 0 then 0 else |All()| - 1
    {
      hide Indexed, Start;
      index.SeekToLast();
      InitDataBlock();
      if data != null {
        NextBlockStart(index.at);
        data.SeekToLast();
      } else {
        assert All() == [];
      }
      SkipEmptyDataBlocksBackward(|All()| - 1);
    }

    method Seek(target: IKey)
      requires Ok()
      modifies this, index, data
      ensures Ok() && pos == FirstAtOrAfter(All(), target)
    {
      hide Indexed, Start, FirstAtOrAfter, Splits;
      index.Seek(target);
      InitDataBlock();
      if data != null {
        data.Seek(target);
      }
      SeekAll(target);
      SkipEmptyDataBlocksForward(FirstAtOrAfter(All(), target));
    }

    lemma {:induction false} SeekAll(target: IKey)
      requires Indexed(index.items, Chunks())
      ensures var i := FirstAtOrAfter(index.items, target);
        FirstAtOrAfter(All(), target) ==
          if i < |index.items| then Start(Chunks(), i) + FirstAtOrAfter(blockOf(index.items[i].value), target) else |All()|
    {
      hide Indexed, Splits;
      var n := |Chunks()|;
      assert Chunks()[..n] == Chunks();
      SeekBoth(index.items, Chunks(), target, n);
      var i := FirstAtOrAfter(index.items, target);
      SplitIsSeek(All(), if i >= n then Start(Chunks(), n) else Start(Chunks(), i) + FirstAtOrAfter(Chunks()[i], target), target);
    }

    method Next()
      requires Ok() && Valid()
      modifies this, index, data
      ensures Ok() && pos == old(pos) + 1
    {
      hide Indexed, Start;
      data.Next();
      SkipEmptyDataBlocksForward(pos + 1);
    }

    method Prev()
      requires Ok() && Valid()
      modifies this, index, data
      ensures Ok() && pos == if old(pos) == 0 then |All()| else old(pos) - 1
    {
      hide Indexed, Start;
      data.Prev();
      SkipEmptyDataBlocksBackward(pos - 1);
    }
  }
}
