/** Building blocks (table/block_builder.cc). */
module BlockBuilding {
  import opened Basics
  import opened LogFormat
  import opened BlockFormat

  /** The number of entries since the last restart point. */
  function Counter(n: nat, interval: nat): nat
    requires interval >= 1
  {
    if n == 0 then 0 else (n - 1) % interval + 1
  }

  class BlockBuilder {
    const interval: nat
    var buffer: Bytes
    var restarts: seq<nat>
    var counter: nat
    var lastKey: Bytes
    var finished: bool
    /** what has been added */
    ghost var items: seq<Pair>

    ghost predicate Valid()
      reads this
    {
      && interval >= 1 && !finished
      && buffer == Data(items, interval, |items|)
      && restarts == RestartArray(items, interval, Restarts(interval, |items|))
      && lastKey == (if items == [] then [] else items[|items| - 1].key)
      && counter == Counter(|items|, interval)
    }

    constructor (interval: nat)
      requires interval >= 1
      ensures Valid() && items == [] && this.interval == interval
    {
      this.interval := interval;
      buffer, restarts, counter, lastKey, finished, items := [], [0], 0, [], false, [];
      new;
      assert RestartArray([], interval, 1) == RestartArray([], interval, 0) + [0];
    }

    /** The length of the prefix the key shares with the last one. */
    method SharedPrefix(key: Bytes) returns (shared: nat)
      ensures shared == CommonPrefix(lastKey, key)
    {
      var minLength := if |lastKey| < |key| then |lastKey| else |key|;
      shared := 0;
      while shared < minLength && lastKey[shared] == key[shared]
        invariant shared <= minLength && lastKey[..shared] == key[..shared]
      {
        shared := shared + 1;
      }
      CommonPrefixIs(lastKey, key, shared);
    }

    method Add(key: Bytes, value: Bytes)
      requires Valid()
      modifies this
      ensures Valid() && items == old(items) + [Pair(key, value)]
    {
      hide Data, RestartArray, EncodeEntry, CommonPrefix, Restarts, IsRestart, Counter;
      ghost var n := |items|;
      CounterStep(n, interval);
      var shared := 0;
      if counter < interval {
        shared := SharedPrefix(key);
      } else {
        restarts := restarts + [|buffer|];
        counter := 0;
      }
      ghost var more := items + [Pair(key, value)];
      DataStep(items, Pair(key, value), interval);
      RestartStep(items, Pair(key, value), interval);
      NothingShared(key);
      buffer := buffer + EncodeEntry(shared, key, value);
      lastKey := lastKey[..shared] + key[shared..];
      assert key == key[..shared] + key[shared..];
      counter := counter + 1;
      items := more;
    }

    /** Reset: ready for the next block. */
    method Reset()
      requires interval >= 1
      modifies this
      ensures Valid() && items == []
    {
      buffer, restarts, counter, lastKey, finished, items := [], [0], 0, [], false, [];
      assert RestartArray([], interval, 1) == RestartArray([], interval, 0) + [0];
    }

    predicate Empty()
      reads this
    {
      buffer == []
    }

    lemma {:induction false} EmptyIff()
      requires Valid()
      ensures Empty() <==> items == []
    {
      hide RestartArray;
      DataGrows(items, interval, 0, |items|);
    }

    function CurrentSizeEstimate(): nat
      reads this
    {
      |buffer| + 4 * |restarts| + 4
    }

    /** The estimate is the exact size of the block as it would be finished now. */
    lemma {:induction false} EstimateIsSize()
      requires Valid() && FitsIn32(items, interval)
      ensures CurrentSizeEstimate() == |Block(items, interval)|
    {
      hide Data, RestartArray;
      RestartsFit(items, interval);
      Fixed32sLength(RestartArray(items, interval, Restarts(interval, |items|)));
    }

    /** Finish: the restart array and its size. */
    method Finish() returns (block: Bytes)
      requires Valid() && FitsIn32(items, interval)
      modifies this`buffer, this`finished
      ensures block == Block(items, interval) == buffer
    {
      hide Data, RestartArray, Fixed32;
      RestartsFit(items, interval);
      ghost var data, rs := buffer, restarts;
      for i := 0 to |restarts|
        invariant buffer == data + PutFixed32s(rs[..i])
        invariant restarts == rs && All32(rs[..i])
      {
        assert rs[..i + 1][..i] == rs[..i];
        assert buffer + Fixed32(restarts[i]) == data + (PutFixed32s(rs[..i]) + Fixed32(rs[i]));
        buffer := buffer + Fixed32(restarts[i]);
      }
      assert rs[..|rs|] == rs;
      buffer := buffer + Fixed32(|restarts|);
      finished := true;
      block := buffer;
    }
  }

  lemma {:induction false} PrefixAgrees(a: Bytes, b: Bytes, n: nat)
    requires n <= |a| && n <= |b| && a[..n] == b[..n]
    ensures forall i | 0 <= i < n :: a[i] == b[i]
  {
    assert forall i | 0 <= i < n :: a[i] == a[..n][i] && b[i] == b[..n][i];
  }

  lemma {:induction false} CommonPrefixIs(a: Bytes, b: Bytes, n: nat)
    requires n <= |a| && n <= |b| && a[..n] == b[..n]
    requires n == |a| || n == |b| || a[n] != b[n]
    ensures CommonPrefix(a, b) == n
  {
    PrefixAgrees(a, b, n);
    PrefixAgrees(a, b, CommonPrefix(a, b));
  }

  lemma {:induction false} NothingShared(key: Bytes)
    ensures CommonPrefix([], key) == 0
  {
  }

  /** The counter is full exactly when the next entry is a restart point. */
  lemma {:induction false} CounterStep(n: nat, interval: nat)
    requires interval >= 1
    ensures Counter(n, interval) <= interval && (n == 0 ==> Counter(n, interval) == 0)
    ensures n > 0 ==> (Counter(n, interval) == interval <==> IsRestart(n, interval))
    ensures Counter(n + 1, interval) == if IsRestart(n, interval) then 1 else Counter(n, interval) + 1
    ensures IsRestart(n, interval) && n > 0 ==> Restarts(interval, n + 1) == Restarts(interval, n) + 1
    ensures !IsRestart(n, interval) ==> Restarts(interval, n + 1) == Restarts(interval, n)
    ensures n == 0 ==> Restarts(interval, n + 1) == Restarts(interval, n) && IsRestart(n, interval)
  {
    if n > 0 {
      var q, r := (n - 1) / interval, (n - 1) % interval;
      assert n - 1 == q * interval + r;
      if r + 1 == interval {
        DivIs(n, interval, q + 1, 0);
      } else {
        DivIs(n, interval, q, r + 1);
      }
    } else {
      DivIs(0, interval, 0, 0);
    }
  }

  lemma {:induction false} DivIs(a: nat, b: nat, q: nat, r: nat)
    requires b >= 1 && r < b && a == q * b + r
    ensures a / b == q && a % b == r
  {
    var q1, r1 := a / b, a % b;
    assert a == q1 * b + r1;
    if q1 < q {
      MulMonotone(q1 + 1, q, b);
    } else if q < q1 {
      MulMonotone(q + 1, q1, b);
    }
  }

  lemma {:induction false} DataStep(items: seq<Pair>, x: Pair, interval: nat)
    requires interval >= 1
    ensures var more := items + [x];
      Data(more, interval, |more|) == Data(items, interval, |items|) + EntryAt(more, interval, |items|)
  {
    hide EntryAt;
    DataOfPrefix(items, items + [x], interval, |items|);
  }

  lemma {:induction false} RestartsOfPrefix(items: seq<Pair>, more: seq<Pair>, interval: nat, r: nat)
    requires interval >= 1 && items <= more && r <= Restarts(interval, |items|) && r <= Restarts(interval, |more|)
    ensures RestartArray(items, interval, r) == RestartArray(more, interval, r)
  {
    hide Data;
    if r > 0 {
      RestartsOfPrefix(items, more, interval, r - 1);
      RestartInRange(interval, |items|, r - 1);
      DataOfPrefix(items, more, interval, (r - 1) * interval);
    }
  }

  lemma {:induction false} RestartStep(items: seq<Pair>, x: Pair, interval: nat)
    requires interval >= 1
    ensures var more := items + [x];
      RestartArray(more, interval, Restarts(interval, |more|)) ==
        RestartArray(items, interval, Restarts(interval, |items|))
          + if |items| > 0 && IsRestart(|items|, interval) then [Offset(items, interval, |items|)] else []
  {
    hide Data;
    var more, n, r := items + [x], |items|, Restarts(interval, |items|);
    CounterStep(n, interval);
    RestartsOfPrefix(items, more, interval, r);
    if n > 0 && IsRestart(n, interval) {
      RestartIndex(n, interval);
      DataOfPrefix(items, more, interval, n);
    }
  }

  lemma {:induction false} RestartIndex(n: nat, interval: nat)
    requires interval >= 1 && n > 0 && n % interval == 0
    ensures Restarts(interval, n) * interval == n
  {
    CounterStep(n, interval);
    var q := (n - 1) / interval;
    assert n - 1 == q * interval + (n - 1) % interval;
    assert (q + 1) * interval == q * interval + interval;
  }
}
