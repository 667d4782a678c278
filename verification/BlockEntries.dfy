/** Reading the parts of an encoded block (table/block.cc). */
module BlockEntries {
  import opened Basics
  import opened LogFormat
  import opened Varints
  import opened BlockFormat

  datatype Header = Header(shared: nat, nonShared: nat, valueLength: nat, size: nat)

  /** The three lengths as varints. */
  function DecodeVarints(b: Bytes): (h: Option<Header>)
    ensures h.Some? ==> h.value.size <= |b|
  {
    match GetVarint32(b)
    case None => None
    case Some(s) =>
      match GetVarint32(b[s.size..])
      case None => None
      case Some(n) =>
        match GetVarint32(b[s.size + n.size..])
        case None => None
        case Some(v) => Some(Header(s.value, n.value, v.value, s.size + n.size + v.size))
  }

  /** DecodeEntry: the lengths, in one byte each if possible, provided that the entry fits. */
  function DecodeEntry(b: Bytes): (h: Option<Header>)
    ensures h.Some? ==> h.value.size <= |b|
  {
    if |b| < 3 then None
    else
      var h := if b[0] < 128 && b[1] < 128 && b[2] < 128 then Some(Header(b[0], b[1], b[2], 3)) else DecodeVarints(b);
      if h.Some? && |b| - h.value.size < (h.value.nonShared + h.value.valueLength) % TWO32 then None else h
  }

  /** The fast path decodes what the slow one would. */
  lemma {:induction false} FastPath(b: Bytes)
    requires |b| >= 3 && b[0] < 128 && b[1] < 128 && b[2] < 128
    ensures DecodeVarints(b) == Some(Header(b[0], b[1], b[2], 3))
  {
    assert GetVarint(b, 5) == Some(Got(b[0], 1));
    assert GetVarint(b[1..], 5) == Some(Got(b[1], 1));
    assert GetVarint(b[2..], 5) == Some(Got(b[2], 1));
  }

  lemma {:induction false} VarintsRoundTrip(s: nat, n: nat, v: nat, rest: Bytes)
    requires s < TWO32 && n < TWO32 && v < TWO32
    ensures var head := PutVarint(s) + PutVarint(n) + PutVarint(v);
      DecodeVarints(head + rest) == Some(Header(s, n, v, |head|))
  {
    hide PutVarint, GetVarint32;
    var ps, pn, pv := PutVarint(s), PutVarint(n), PutVarint(v);
    var b := ps + pn + pv + rest;
    RoundTrip32(s, pn + pv + rest);
    assert b == ps + (pn + pv + rest);
    RoundTrip32(n, pv + rest);
    assert b[|ps|..] == pn + (pv + rest);
    RoundTrip32(v, rest);
    assert b[|ps| + |pn|..] == pv + rest;
  }

  /** An encoded entry decodes to its parts. */
  lemma {:induction false} EntryRoundTrip(shared: nat, key: Bytes, value: Bytes, rest: Bytes) returns (h: Header)
    requires shared <= |key| && |key| < TWO32 && |value| < TWO32 && |EncodeEntry(shared, key, value)| < TWO32
    ensures var b := EncodeEntry(shared, key, value) + rest;
      && DecodeEntry(b) == Some(h) && h.shared == shared && h.nonShared == |key| - shared && h.valueLength == |value|
      && h.size + h.nonShared + h.valueLength == |EncodeEntry(shared, key, value)|
      && b[h.size..h.size + h.nonShared] == key[shared..]
      && b[h.size + h.nonShared..h.size + h.nonShared + h.valueLength] == value
  {
    hide DecodeVarints, PutVarint;
    var head := PutVarint(shared) + PutVarint(|key| - shared) + PutVarint(|value|);
    var b := EncodeEntry(shared, key, value) + rest;
    assert b == head + (key[shared..] + value + rest);
    VarintsRoundTrip(shared, |key| - shared, |value|, key[shared..] + value + rest);
    if b[0] < 128 && b[1] < 128 && b[2] < 128 {
      FastPath(b);
    }
    h := Header(shared, |key| - shared, |value|, |head|);
  }

  /** An entry where the block has it. */
  lemma {:induction false} EntryInBlock(items: seq<Pair>, interval: nat, i: nat) returns (h: Header)
    requires interval >= 1 && i < |items| && FitsIn32(items, interval)
    ensures var data, at := Data(items, interval, |items|), Offset(items, interval, i);
      && at < Offset(items, interval, i + 1) <= |data|
      && DecodeEntry(data[at..]) == Some(h)
      && h.shared == Shared(items, interval, i) && h.nonShared == |items[i].key| - h.shared && h.valueLength == |items[i].value|
      && at + h.size + h.nonShared + h.valueLength == Offset(items, interval, i + 1)
      && data[at + h.size..at + h.size + h.nonShared] == items[i].key[h.shared..]
      && data[at + h.size + h.nonShared..at + h.size + h.nonShared + h.valueLength] == items[i].value
  {
    hide EncodeEntry, DecodeEntry, Shared, Data;
    var data, at := Data(items, interval, |items|), Offset(items, interval, i);
    var rest := CutEntry(items, interval, i);
    h := EntryRoundTrip(Shared(items, interval, i), items[i].key, items[i].value, rest);
    SliceOfDrop(data, at, h.size, h.size + h.nonShared);
    SliceOfDrop(data, at, h.size + h.nonShared, h.size + h.nonShared + h.valueLength);
  }

  lemma {:induction false} SliceOfDrop(s: Bytes, at: nat, a: nat, b: nat)
    requires at + b <= |s| && a <= b
    ensures s[at + a..at + b] == s[at..][a..b]
  {
  }

  lemma {:induction false} CutEntry(items: seq<Pair>, interval: nat, i: nat) returns (rest: Bytes)
    requires interval >= 1 && i < |items| && FitsIn32(items, interval)
    ensures var data, at, e := Data(items, interval, |items|), Offset(items, interval, i), EntryAt(items, interval, i);
      && at < Offset(items, interval, i + 1) == at + |e| <= |data| && data[at..] == e + rest && |e| < TWO32
  {
    hide EntryAt;
    var data, at, e := Data(items, interval, |items|), Offset(items, interval, i), EntryAt(items, interval, i);
    DataGrows(items, interval, i, i + 1);
    DataGrows(items, interval, i + 1, |items|);
    rest := data[at + |e|..];
    assert data[..at + |e|] == Data(items, interval, i) + e;
    assert data == data[..at + |e|] + rest;
  }

  datatype Opened = BadBlock | Open(restarts: nat, numRestarts: nat)

  /** Block::Block: where the restart array is. */
  function OpenBlock(data: Bytes): (o: Opened)
    ensures o.Open? ==> o.restarts + 4 * o.numRestarts + 4 == |data|
  {
    if |data| < 4 then BadBlock
    else
      var n := DecodeFixed32(data[|data| - 4..]);
      if n > (|data| - 4) / 4 then BadBlock else Open(|data| - (1 + n) * 4, n)
  }

  lemma {:induction false} OpenEncoded(items: seq<Pair>, interval: nat)
    requires interval >= 1 && FitsIn32(items, interval)
    ensures OpenBlock(Block(items, interval)) == Open(Offset(items, interval, |items|), Restarts(interval, |items|))
  {
    hide Data, Fixed32, DecodeFixed32;
    var n := Restarts(interval, |items|);
    var rs := RestartArray(items, interval, n);
    RestartsFit(items, interval);
    RestartLength(items, interval, n);
    Fixed32sLength(rs);
    var b := Block(items, interval);
    assert b[|b| - 4..] == Fixed32(n) + [];
    Fixed32RoundTrip(n, []);
  }

  /** GetRestartPoint. */
  function RestartPoint(data: Bytes, restarts: nat, index: nat): nat
    requires restarts + 4 * index + 4 <= |data|
  {
    DecodeFixed32(data[restarts + index * 4..])
  }

  /** The entry at which restart r begins. */
  function RestartEntry(interval: nat, r: nat): nat {
    r * interval
  }

  lemma {:induction false} RestartEntryFacts(interval: nat, n: nat, r: nat)
    requires interval >= 1 && r < Restarts(interval, n)
    ensures RestartEntry(interval, r) <= n && (n > 0 ==> RestartEntry(interval, r) < n)
    ensures IsRestart(RestartEntry(interval, r), interval) && RestartEntry(interval, 0) == 0
  {
    RestartInRange(interval, n, r);
    MultipleIsRestart(interval, r);
  }

  lemma {:induction false} MultipleIsRestart(interval: nat, r: nat)
    requires interval >= 1
    ensures IsRestart(r * interval, interval)
  {
    var a := r * interval;
    var q, m := a / interval, a % interval;
    assert a == q * interval + m;
    if q < r {
      MulMonotone(q + 1, r, interval);
    } else if r < q {
      MulMonotone(r + 1, q, interval);
    }
  }

  lemma {:induction false} RestartPointIs(items: seq<Pair>, interval: nat, r: nat)
    requires interval >= 1 && FitsIn32(items, interval) && r < Restarts(interval, |items|)
    ensures RestartEntry(interval, r) <= |items|
    ensures var restarts, b := Offset(items, interval, |items|), Block(items, interval);
      restarts + 4 * r + 4 <= |b| && RestartPoint(b, restarts, r) == Offset(items, interval, RestartEntry(interval, r))
  {
    hide Data, Fixed32, DecodeFixed32;
    var n := Restarts(interval, |items|);
    var rs := RestartArray(items, interval, n);
    RestartsFit(items, interval);
    RestartAt(items, interval, n, r);
    Fixed32sAt(rs, r);
    var data, b := Data(items, interval, |items|), Block(items, interval);
    var at := |data| + 4 * r;
    assert b[at..at + 4] == Fixed32(rs[r]);
    assert b[at..] == Fixed32(rs[r]) + b[at + 4..];
    Fixed32RoundTrip(rs[r], b[at + 4..]);
  }
}
