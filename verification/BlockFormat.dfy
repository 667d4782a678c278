/** The prefix-compressed block (table/block_builder.cc): what a list of entries becomes. */
module BlockFormat {
  import opened Basics
  import opened LogFormat
  import opened Varints

  datatype Pair = Pair(key: Bytes, value: Bytes)

  function CommonPrefix(a: Bytes, b: Bytes): (n: nat)
    ensures n <= |a| && n <= |b| && a[..n] == b[..n]
    ensures n < |a| && n < |b| ==> a[n] != b[n]
  {
    if a == [] || b == [] || a[0] != b[0] then 0
    else
      var n := CommonPrefix(a[1..], b[1..]);
      assert a[..n + 1] == [a[0]] + a[1..][..n] && b[..n + 1] == [b[0]] + b[1..][..n];
      n + 1
  }

  predicate IsRestart(i: nat, interval: nat)
    requires interval >= 1
  {
    i % interval == 0
  }

  /** Every interval-th entry is a restart point and shares nothing. */
  function Shared(items: seq<Pair>, interval: nat, i: nat): (n: nat)
    requires interval >= 1 && i < |items|
    ensures n <= |items[i].key| && (n > 0 ==> i > 0 && n <= |items[i - 1].key| && items[i - 1].key[..n] == items[i].key[..n])
    ensures IsRestart(i, interval) ==> n == 0
  {
    if IsRestart(i, interval) then 0 else CommonPrefix(items[i - 1].key, items[i].key)
  }

  function EncodeEntry(shared: nat, key: Bytes, value: Bytes): Bytes
    requires shared <= |key|
  {
    PutVarint(shared) + PutVarint(|key| - shared) + PutVarint(|value|) + key[shared..] + value
  }

  function EntryAt(items: seq<Pair>, interval: nat, i: nat): Bytes
    requires interval >= 1 && i < |items|
  {
    EncodeEntry(Shared(items, interval, i), items[i].key, items[i].value)
  }

  /** The bytes of the first n entries. */
  function Data(items: seq<Pair>, interval: nat, n: nat): Bytes
    requires interval >= 1 && n <= |items|
  {
    if n == 0 then [] else Data(items, interval, n - 1) + EntryAt(items, interval, n - 1)
  }

  /** Where entry n starts. */
  function Offset(items: seq<Pair>, interval: nat, n: nat): nat
    requires interval >= 1 && n <= |items|
  {
    |Data(items, interval, n)|
  }

  lemma {:induction false} DataGrows(items: seq<Pair>, interval: nat, m: nat, n: nat)
    requires interval >= 1 && m <= n <= |items|
    ensures Data(items, interval, m) <= Data(items, interval, n)
    ensures m < n ==> Offset(items, interval, m) + 3 <= Offset(items, interval, n)
    decreases n
  {
    hide EntryAt;
    if m < n {
      DataGrows(items, interval, m, n - 1);
      EntrySize(items, interval, n - 1);
    }
  }

  lemma {:induction false} EntrySize(items: seq<Pair>, interval: nat, i: nat)
    requires interval >= 1 && i < |items|
    ensures |EntryAt(items, interval, i)| >= 3
  {
  }

  /** Entries come in order of offset. */
  lemma {:induction false} OffsetOrder(items: seq<Pair>, interval: nat, m: nat, n: nat)
    requires interval >= 1 && m <= |items| && n <= |items|
    ensures m < n <==> Offset(items, interval, m) < Offset(items, interval, n)
    ensures m == n <==> Offset(items, interval, m) == Offset(items, interval, n)
  {
    DataGrows(items, interval, if m < n then m else n, if m < n then n else m);
  }

  /** An entry depends on what comes before it only. */
  lemma {:induction false} DataOfPrefix(items: seq<Pair>, more: seq<Pair>, interval: nat, n: nat)
    requires interval >= 1 && n <= |items| && items <= more
    ensures Data(items, interval, n) == Data(more, interval, n)
  {
    if n > 0 {
      DataOfPrefix(items, more, interval, n - 1);
    }
  }

  /** The number of restart points of n entries: one even if there are none. */
  function Restarts(interval: nat, n: nat): nat
    requires interval >= 1
  {
    if n == 0 then 1 else (n - 1) / interval + 1
  }

  /** The restart array. */
  function RestartArray(items: seq<Pair>, interval: nat, r: nat): seq<nat>
    requires interval >= 1 && r <= Restarts(interval, |items|)
  {
    if r == 0 then []
    else
      RestartInRange(interval, |items|, r - 1);
      RestartArray(items, interval, r - 1) + [Offset(items, interval, (r - 1) * interval)]
  }

  lemma {:induction false} RestartInRange(interval: nat, n: nat, r: nat)
    requires interval >= 1 && r < Restarts(interval, n)
    ensures 0 <= r * interval <= n && (n > 0 ==> r * interval < n)
  {
    if n > 0 {
      var q := (n - 1) / interval;
      assert r * interval <= q * interval by { MulMonotone(r, q, interval); }
      assert q * interval <= n - 1;
    }
  }

  lemma {:induction false} MulMonotone(a: nat, b: nat, c: nat)
    requires a <= b
    ensures a * c <= b * c
  {
  }

  lemma {:induction false} RestartAt(items: seq<Pair>, interval: nat, n: nat, r: nat)
    requires interval >= 1 && r < n <= Restarts(interval, |items|)
    ensures |RestartArray(items, interval, n)| == n && 0 <= r * interval <= |items|
    ensures RestartArray(items, interval, n)[r] == Offset(items, interval, r * interval)
  {
    hide Data;
    RestartInRange(interval, |items|, r);
    RestartLength(items, interval, n);
    if r < n - 1 {
      RestartAt(items, interval, n - 1, r);
      RestartLength(items, interval, n - 1);
    } else {
      RestartLength(items, interval, n - 1);
    }
  }

  lemma {:induction false} RestartLength(items: seq<Pair>, interval: nat, n: nat)
    requires interval >= 1 && n <= Restarts(interval, |items|)
    ensures |RestartArray(items, interval, n)| == n
  {
    hide Data;
    if n > 0 {
      RestartLength(items, interval, n - 1);
    }
  }

  predicate All32(vs: seq<nat>) {
    forall i | 0 <= i < |vs| :: vs[i] < TWO32
  }

  function PutFixed32s(vs: seq<nat>): Bytes
    requires All32(vs)
  {
    if vs == [] then [] else PutFixed32s(vs[..|vs| - 1]) + Fixed32(vs[|vs| - 1])
  }

  lemma {:induction false} Fixed32sAt(vs: seq<nat>, i: nat)
    requires All32(vs) && i < |vs|
    ensures |PutFixed32s(vs)| == 4 * |vs| && PutFixed32s(vs)[4 * i..4 * i + 4] == Fixed32(vs[i])
  {
    hide Fixed32;
    var n := |vs| - 1;
    Fixed32sLength(vs);
    Fixed32sLength(vs[..n]);
    if i < n {
      Fixed32sAt(vs[..n], i);
      assert PutFixed32s(vs)[4 * i..4 * i + 4] == PutFixed32s(vs[..n])[4 * i..4 * i + 4];
    }
  }

  lemma {:induction false} Fixed32sLength(vs: seq<nat>)
    requires All32(vs)
    ensures |PutFixed32s(vs)| == 4 * |vs|
  {
    hide Fixed32;
    if vs != [] {
      Fixed32sLength(vs[..|vs| - 1]);
    }
  }

  /** A block small enough for its 32-bit offsets. */
  predicate FitsIn32(items: seq<Pair>, interval: nat)
    requires interval >= 1
  {
    Offset(items, interval, |items|) < TWO32 && |items| < TWO32 && forall i | 0 <= i < |items| :: |items[i].key| < TWO32 && |items[i].value| < TWO32
  }

  lemma {:induction false} RestartsFit(items: seq<Pair>, interval: nat)
    requires interval >= 1 && FitsIn32(items, interval)
    ensures var rs := RestartArray(items, interval, Restarts(interval, |items|));
      |rs| < TWO32 && All32(rs)
  {
    hide Data;
    var n := Restarts(interval, |items|);
    var rs := RestartArray(items, interval, n);
    RestartLength(items, interval, n);
    forall r: nat | r < |rs| ensures rs[r] < TWO32 {
      RestartAt(items, interval, n, r);
      DataGrows(items, interval, r * interval, |items|);
    }
    FewRestarts(interval, |items|);
  }

  lemma {:induction false} FewRestarts(interval: nat, n: nat)
    requires interval >= 1
    ensures Restarts(interval, n) <= n + 1 && (n > 0 ==> Restarts(interval, n) <= n)
  {
    if n > 0 {
      RestartInRange(interval, n, Restarts(interval, n) - 1);
      MulMonotone(1, interval, Restarts(interval, n) - 1);
    }
  }

  /** The whole block: entries, restart array, number of restart points. */
  function Block(items: seq<Pair>, interval: nat): Bytes
    requires interval >= 1 && FitsIn32(items, interval)
  {
    RestartsFit(items, interval);
    var rs := RestartArray(items, interval, Restarts(interval, |items|));
    Data(items, interval, |items|) + PutFixed32s(rs) + Fixed32(|rs|)
  }
}
