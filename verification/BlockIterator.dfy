/** The cursor over an encoded block (Block::Iter in table/block.cc). */
module BlockReading {
  import opened Basics
  import opened LogFormat
  import opened BlockFormat
  import opened BlockEntries
  import opened BlockBuilding

  ghost predicate Transitive(less: (Bytes, Bytes) -> bool) {
    forall a, b, c :: less(a, b) && less(b, c) ==> less(a, c)
  }

  ghost predicate Ascending(less: (Bytes, Bytes) -> bool, items: seq<Pair>) {
    forall i, j | 0 <= i < j < |items| :: less(items[i].key, items[j].key)
  }

  /** Position p is the first whose key is not before target. */
  ghost predicate IsSeek(less: (Bytes, Bytes) -> bool, items: seq<Pair>, target: Bytes, p: nat) {
    && p <= |items| && (forall j | 0 <= j < p :: less(items[j].key, target))
    && (p < |items| ==> !less(items[p].key, target))
  }

  /** What an encoded block shows of entry p and of restart r, as the iterator reads it. */
  lemma {:induction false} EntryParses(items: seq<Pair>, interval: nat, data: Bytes, restarts: nat, p: nat) returns (h: Header)
    requires interval >= 1 && FitsIn32(items, interval) && p < |items|
    requires data == Block(items, interval) && restarts == Offset(items, interval, |items|)
    ensures var at := Offset(items, interval, p);
      && at < restarts <= |data| && DecodeEntry(data[at..restarts]) == Some(h)
      && h.shared == Shared(items, interval, p) && h.nonShared == |items[p].key| - h.shared && h.valueLength == |items[p].value|
      && at + h.size + h.nonShared + h.valueLength == Offset(items, interval, p + 1) <= restarts
      && data[at + h.size..at + h.size + h.nonShared] == items[p].key[h.shared..]
      && data[at + h.size + h.nonShared..at + h.size + h.nonShared + h.valueLength] == items[p].value
  {
    hide Data, DecodeEntry, Shared, RestartArray, Fixed32;
    h := EntryInBlock(items, interval, p);
    var d := Data(items, interval, |items|);
    DataGrows(items, interval, p + 1, |items|);
    BlockStartsWithData(items, interval);
    var at := Offset(items, interval, p);
    assert data[at..restarts] == d[at..];
    assert data[at + h.size..at + h.size + h.nonShared] == d[at + h.size..at + h.size + h.nonShared];
    assert data[at + h.size + h.nonShared..at + h.size + h.nonShared + h.valueLength]
        == d[at + h.size + h.nonShared..at + h.size + h.nonShared + h.valueLength];
  }

  lemma {:induction false} BlockStartsWithData(items: seq<Pair>, interval: nat)
    requires interval >= 1 && FitsIn32(items, interval)
    ensures Data(items, interval, |items|) <= Block(items, interval)
  {
  }

  class Iter {
    const less: (Bytes, Bytes) -> bool
    const data: Bytes
    const restarts: nat
    const numRestarts: nat
    var current: nat
    var restartIndex: nat
    var key: Bytes
    /** value_ as a range of data */
    var valueStart: nat
    var valueLength: nat
    /** what was encoded, and where this iterator stands */
    ghost const items: seq<Pair>
    ghost const interval: nat
    ghost var pos: nat

    ghost predicate Encoded() {
      && interval >= 1 && FitsIn32(items, interval) && data == Block(items, interval)
      && restarts == Offset(items, interval, |items|) && numRestarts == Restarts(interval, |items|)
      && restarts + 4 * numRestarts + 4 == |data|
    }

    ghost predicate Ok()
      reads this
    {
      && Encoded() && pos <= |items|
      && if pos == |items| then current == restarts
         else
           && current == Offset(items, interval, pos) && current < restarts && key == items[pos].key
           && valueStart + valueLength == Offset(items, interval, pos + 1)
           && valueStart + valueLength <= |data| && data[valueStart..valueStart + valueLength] == items[pos].value
           && restartIndex < numRestarts && RestartEntry(interval, restartIndex) <= pos
    }

    /** Parsing will go on with entry p: value_ ends where it starts, and the key to share is there. */
    ghost predicate Poised(p: nat)
      reads this
    {
      && Encoded() && p <= |items| && valueStart + valueLength == Offset(items, interval, p)
      && restartIndex < numRestarts && RestartEntry(interval, restartIndex) <= p
      && (p < |items| ==> IsRestart(p, interval) || (p > 0 && key == items[p - 1].key))
    }

    constructor (less: (Bytes, Bytes) -> bool, data: Bytes, restarts: nat, numRestarts: nat, ghost items: seq<Pair>, ghost interval: nat)
      requires interval >= 1 && FitsIn32(items, interval) && data == Block(items, interval)
      requires OpenBlock(data) == Open(restarts, numRestarts)
      ensures Ok() && this.items == items && this.interval == interval && this.less == less && pos == |items|
    {
      this.less, this.data, this.restarts, this.numRestarts := less, data, restarts, numRestarts;
      current, restartIndex, key, valueStart, valueLength := restarts, numRestarts, [], 0, 0;
      this.items, this.interval, pos := items, interval, |items|;
      new;
      OpenEncoded(items, interval);
    }

    predicate Valid()
      reads this
    {
      current < restarts
    }

    /** Valid, key and value show the entry at pos. */
    lemma {:induction false} Shows()
      requires Ok()
      ensures Valid() <==> pos < |items|
      ensures pos < |items| ==> key == items[pos].key
      ensures pos < |items| ==> valueStart + valueLength <= |data| && data[valueStart..valueStart + valueLength] == items[pos].value
    {
    }

    method GetRestartPoint(index: nat) returns (offset: nat)
      requires Encoded() && index < numRestarts
      ensures RestartEntry(interval, index) <= |items| && offset == Offset(items, interval, RestartEntry(interval, index))
    {
      hide Offset, Block;
      RestartPointIs(items, interval, index);
      offset := RestartPoint(data, restarts, index);
    }

    method SeekToRestartPoint(index: nat)
      requires Encoded() && index < numRestarts
      modifies this`key, this`restartIndex, this`valueStart, this`valueLength
      ensures RestartEntry(interval, index) <= |items| && Poised(RestartEntry(interval, index))
      ensures |items| > 0 ==> RestartEntry(interval, index) < |items|
      ensures restartIndex == index
    {
      hide Offset, Block, RestartEntry, IsRestart;
      key, restartIndex := [], index;
      RestartEntryFacts(interval, |items|, index);
      valueStart := GetRestartPoint(index);
      valueLength := 0;
    }

    /** The loop that keeps restart_index_ up with the current entry. */
    method AdvanceRestartIndex(ghost p: nat)
      requires Encoded() && p < |items| && current == Offset(items, interval, p)
      requires restartIndex < numRestarts && RestartEntry(interval, restartIndex) <= p
      modifies this`restartIndex
      ensures restartIndex < numRestarts && RestartEntry(interval, restartIndex) <= p
    {
      hide Data, Block, RestartEntry, IsRestart;
      while restartIndex + 1 < numRestarts
        invariant restartIndex < numRestarts && RestartEntry(interval, restartIndex) <= p
      {
        var next := GetRestartPoint(restartIndex + 1);
        if next >= current {
          break;
        }
        OffsetOrder(items, interval, RestartEntry(interval, restartIndex + 1), p);
        restartIndex := restartIndex + 1;
      }
    }

    /** Decodes the entry at current: its key takes over the shared part of the last one. The block
        being well formed, the source's error exits are not taken. */
    method ReadEntry(ghost p: nat)
      requires Poised(p) && p < |items| && current == Offset(items, interval, p) && current < restarts
      modifies this`key, this`valueStart, this`valueLength
      ensures key == items[p].key && valueStart + valueLength == Offset(items, interval, p + 1) <= |data|
      ensures data[valueStart..valueStart + valueLength] == items[p].value
    {
      hide Offset, Block, RestartEntry, IsRestart, Restarts, DecodeEntry, Shared;
      ghost var g := EntryParses(items, interval, data, restarts, p);
      SharedReady(p);
      var h := DecodeEntry(data[current..restarts]);
      assert h.Some? && h.value.shared <= |key|;
      var at := current + h.value.size;
      assert items[p].key == items[p].key[..g.shared] + items[p].key[g.shared..];
      key := key[..h.value.shared] + data[at..at + h.value.nonShared];
      valueStart, valueLength := at + h.value.nonShared, h.value.valueLength;
    }

    /** ParseNextKey. */
    method ParseNextKey(ghost p: nat) returns (more: bool)
      requires Poised(p)
      modifies this
      ensures Ok() && pos == p && (more <==> p < |items|)
    {
      hide Offset, Block, RestartEntry, IsRestart, Restarts;
      current, pos := valueStart + valueLength, p;
      OffsetOrder(items, interval, p, |items|);
      if current >= restarts {
        current, restartIndex := restarts, numRestarts;
        return false;
      }
      ReadEntry(p);
      AdvanceRestartIndex(p);
      more := true;
    }

    lemma {:induction false} SharedReady(p: nat)
      requires Poised(p) && p < |items|
      ensures Shared(items, interval, p) <= |key| && key[..Shared(items, interval, p)] == items[p].key[..Shared(items, interval, p)]
    {
      if IsRestart(p, interval) {
        assert Shared(items, interval, p) == 0;
      }
    }
  
    method Next()
      requires Ok() && Valid()
      modifies this
      ensures Ok() && pos == old(pos) + 1
    {
      hide Offset, Block, RestartEntry, IsRestart, Restarts;
      var more := ParseNextKey(pos + 1);
    }

    /** Back to the last restart point before the entry, then forward to the one in front of it. */
    method Prev()
      requires Ok() && Valid()
      modifies this
      ensures Ok() && pos == if old(pos) == 0 then |items| else old(pos) - 1
    {
      hide Offset, Block, RestartEntry, IsRestart, Restarts;
      var original := current;
      ghost var p := pos;
      var start := GetRestartPoint(restartIndex);
      while start >= original
        invariant Ok() && pos == p && original == current && restartIndex < numRestarts
        invariant start == Offset(items, interval, RestartEntry(interval, restartIndex)) && RestartEntry(interval, restartIndex) <= |items|
        decreases restartIndex
      {
        OffsetOrder(items, interval, RestartEntry(interval, restartIndex), p);
        if restartIndex == 0 {
          current, restartIndex, pos := restarts, numRestarts, |items|;
          FirstRestart(interval);
          return;
        }
        restartIndex := restartIndex - 1;
        RestartOrder(interval, restartIndex, restartIndex + 1);
        start := GetRestartPoint(restartIndex);
      }
      ghost var q: nat := RestartEntry(interval, restartIndex);
      OffsetOrder(items, interval, q, p);
      SeekToRestartPoint(restartIndex);
      ScanTo(q, p, original);
    }

    /** Loop until the end of the current entry reaches the start of entry p. */
    method ScanTo(ghost q0: nat, ghost p: nat, original: nat)
      requires Poised(q0) && q0 <= p <= |items| && (q0 == p ==> p == |items|) && original == Offset(items, interval, p)
      modifies this
      ensures Ok() && pos == if q0 < p then p - 1 else p
    {
      hide Offset, Block, RestartEntry, IsRestart, Restarts;
      ghost var q := q0;
      while true
        invariant Poised(q) && if q0 < p then q < p else q == p
        decreases p - q
      {
        var more := ParseNextKey(q);
        if more {
          OffsetOrder(items, interval, q + 1, p);
        }
        if !more || valueStart + valueLength >= original {
          break;
        }
        q := q + 1;
      }
    }

    /** DecodeEntry at a restart point: the whole key is there. */
    method RestartKey(index: nat) returns (k: Bytes)
      requires Encoded() && index < numRestarts && |items| > 0
      ensures RestartEntry(interval, index) < |items| && k == items[RestartEntry(interval, index)].key
    {
      hide Offset, Block, RestartEntry, IsRestart, Restarts, DecodeEntry, Shared;
      RestartEntryFacts(interval, |items|, index);
      ghost var p: nat := RestartEntry(interval, index);
      var offset := GetRestartPoint(index);
      ghost var g := EntryParses(items, interval, data, restarts, p);
      RestartSharesNothing(items, interval, p);
      var h := DecodeEntry(data[offset..restarts]);
      assert h.Some? && h.value.shared == 0;
      k := data[offset + h.value.size..offset + h.value.size + h.value.nonShared];
    }

    /** Seek: binary search for the last restart point before target, then a linear scan. */
    method Seek(target: Bytes)
      requires Ok() && Transitive(less) && Ascending(less, items)
      modifies this
      ensures Ok() && IsSeek(less, items, target, pos)
    {
      hide Offset, Block, RestartEntry, IsRestart, Restarts, Transitive;
      var left, right := 0, numRestarts - 1;
      FirstRestart(interval);
      ManyRestarts(interval, |items|);
      while left < right
        invariant 0 <= left <= right < numRestarts
        invariant Before(target, RestartEntry(interval, left))
      {
        var mid := (left + right + 1) / 2;
        var midKey := RestartKey(mid);
        if less(midKey, target) {
          AllBefore(target, RestartEntry(interval, mid));
          left := mid;
        } else {
          right := mid - 1;
        }
      }
      SeekToRestartPoint(left);
      ghost var q: nat := RestartEntry(interval, left);
      while true
        invariant Poised(q) && Before(target, q)
        decreases |items| - q
      {
        var more := ParseNextKey(q);
        if !more {
          return;
        }
        if !less(key, target) {
          return;
        }
        q := q + 1;
      }
    }

    /** All keys in front of p are before target. */
    ghost predicate Before(target: Bytes, p: nat) {
      p <= |items| && forall j | 0 <= j < p :: less(items[j].key, target)
    }

    lemma {:induction false} AllBefore(target: Bytes, p: nat)
      requires Transitive(less) && Ascending(less, items) && p < |items| && less(items[p].key, target)
      ensures Before(target, p)
    {
    }

    method SeekToFirst()
      requires Ok()
      modifies this
      ensures Ok() && pos == 0
    {
      hide Offset, Block, RestartEntry, IsRestart;
      FirstRestart(interval);
      SeekToRestartPoint(0);
      var more := ParseNextKey(0);
    }

    method SeekToLast()
      requires Ok()
      modifies this
      ensures Ok() && pos == if |items| == 0 then 0 else |items| - 1
    {
      hide Offset, Block, RestartEntry, IsRestart;
      SeekToRestartPoint(numRestarts - 1);
      ghost var q: nat := RestartEntry(interval, numRestarts - 1);
      ScanTo(q, |items|, restarts);
    }
  }

  lemma {:induction false} FirstRestart(interval: nat)
    ensures RestartEntry(interval, 0) == 0
  {
  }

  lemma {:induction false} RestartSharesNothing(items: seq<Pair>, interval: nat, p: nat)
    requires interval >= 1 && p < |items| && IsRestart(p, interval)
    ensures Shared(items, interval, p) == 0
  {
  }

  lemma {:induction false} ManyRestarts(interval: nat, n: nat)
    requires interval >= 1
    ensures Restarts(interval, n) >= 1 && (n == 0 ==> Restarts(interval, n) == 1)
  {
  }

  lemma {:induction false} RestartOrder(interval: nat, r: nat, s: nat)
    requires r <= s
    ensures RestartEntry(interval, r) <= RestartEntry(interval, s)
  {
    MulMonotone(r, s, interval);
  }

  method BuildBlock(items: seq<Pair>, interval: nat) returns (data: Bytes)
    requires interval >= 1 && FitsIn32(items, interval)
    ensures data == Block(items, interval)
  {
    hide Offset, Block, Data, RestartArray, Restarts;
    var builder := new BlockBuilder(interval);
    for i := 0 to |items|
      invariant fresh(builder) && builder.Valid() && builder.interval == interval && builder.items == items[..i]
    {
      builder.Add(items[i].key, items[i].value);
    }
    assert items[..|items|] == items;
    data := builder.Finish();
  }

  method Scan(iter: Iter) returns (out: seq<Pair>)
    requires iter.Ok()
    modifies iter
    ensures out == iter.items
  {
    hide Offset, Block, Data, RestartArray, Restarts;
    iter.SeekToFirst();
    out := [];
    iter.Shows();
    while iter.Valid()
      invariant iter.Ok() && iter.pos == |out| && out == iter.items[..|out|]
      invariant iter.Valid() <==> iter.pos < |iter.items|
      decreases |iter.items| - iter.pos
    {
      iter.Shows();
      out := out + [Pair(iter.key, iter.data[iter.valueStart..iter.valueStart + iter.valueLength])];
      iter.Next();
      iter.Shows();
    }
  }

  /** Entries added to a builder come back from an iterator over the finished block. */
  method ReadBack(less: (Bytes, Bytes) -> bool, items: seq<Pair>, interval: nat) returns (out: seq<Pair>)
    requires interval >= 1 && FitsIn32(items, interval)
    ensures out == items
  {
    hide Offset, Block, Data, RestartArray, Restarts;
    var data := BuildBlock(items, interval);
    OpenEncoded(items, interval);
    var o := OpenBlock(data);
    var iter := new Iter(less, data, o.restarts, o.numRestarts, items, interval);
    out := Scan(iter);
  }
}
