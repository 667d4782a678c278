/** Variable-length integers: little-endian base 128 (util/coding.cc, and the same format in nanopb). */
module Varints {
  import opened Basics

  function PutVarint(v: nat): (b: Bytes)
    ensures |b| >= 1
  {
    if v < 128 then [v] else [v % 128 + 128] + PutVarint(v / 128)
  }

  /** A decoded value and how many bytes it took. */
  datatype Got = Got(value: nat, size: nat)

  /** At most limit bytes are looked at; without an end among them there is no value. */
  function GetVarint(b: Bytes, limit: nat): (g: Option<Got>)
    ensures g.Some? ==> 1 <= g.value.size <= |b|
  {
    if limit == 0 || b == [] then None
    else if b[0] < 128 then Some(Got(b[0], 1))
    else
      match GetVarint(b[1..], limit - 1)
      case None => None
      case Some(g) => Some(Got(b[0] - 128 + 128 * g.value, g.size + 1))
  }

  /** GetVarint32Ptr: five bytes, in 32-bit arithmetic. */
  function GetVarint32(b: Bytes): (g: Option<Got>)
    ensures g.Some? ==> 1 <= g.value.size <= |b| && g.value.value < TWO32
  {
    match GetVarint(b, 5)
    case None => None
    case Some(g) => Some(Got(g.value % TWO32, g.size))
  }

  /** GetVarint64Ptr: ten bytes, in 64-bit arithmetic. */
  function GetVarint64(b: Bytes): (g: Option<Got>)
    ensures g.Some? ==> 1 <= g.value.size <= |b| && g.value.value < TWO64
  {
    match GetVarint(b, 10)
    case None => None
    case Some(g) => Some(Got(g.value % TWO64, g.size))
  }

  lemma {:induction false} RoundTrip(v: nat, rest: Bytes, limit: nat)
    requires |PutVarint(v)| <= limit
    ensures GetVarint(PutVarint(v) + rest, limit) == Some(Got(v, |PutVarint(v)|))
  {
    var b := PutVarint(v) + rest;
    if v < 128 {
      assert b[0] == v;
    } else {
      assert b[0] == v % 128 + 128;
      assert b[1..] == PutVarint(v / 128) + rest;
      RoundTrip(v / 128, rest, limit - 1);
    }
  }

  function Pow128(n: nat): nat {
    if n == 0 then 1 else 128 * Pow128(n - 1)
  }

  lemma {:induction false} SizeBound(v: nat, n: nat)
    requires n >= 1 && v < Pow128(n)
    ensures |PutVarint(v)| <= n
  {
    if v >= 128 {
      assert n >= 2;
      SizeBound(v / 128, n - 1);
    }
  }

  lemma {:induction false} Powers()
    ensures Pow128(5) >= TWO32 && Pow128(10) >= TWO64
  {
    assert Pow128(1) == 128 && Pow128(2) == 0x4000 && Pow128(3) == 0x20_0000;
    assert Pow128(4) == 0x1000_0000;
    assert Pow128(5) == 0x8_0000_0000;
    assert Pow128(6) == 0x400_0000_0000;
    assert Pow128(7) == 0x2_0000_0000_0000;
    assert Pow128(8) == 0x100_0000_0000_0000;
    assert Pow128(9) == 0x8000_0000_0000_0000;
    assert Pow128(10) == 0x40_0000_0000_0000_0000;
  }

  lemma {:induction false} RoundTrip32(v: nat, rest: Bytes)
    requires v < TWO32
    ensures GetVarint32(PutVarint(v) + rest) == Some(Got(v, |PutVarint(v)|))
    ensures (PutVarint(v) + rest)[|PutVarint(v)|..] == rest
  {
    Powers();
    SizeBound(v, 5);
    RoundTrip(v, rest, 5);
  }

  lemma {:induction false} RoundTrip64(v: nat, rest: Bytes)
    requires v < TWO64
    ensures GetVarint64(PutVarint(v) + rest) == Some(Got(v, |PutVarint(v)|))
    ensures (PutVarint(v) + rest)[|PutVarint(v)|..] == rest
  {
    Powers();
    SizeBound(v, 10);
    RoundTrip(v, rest, 10);
  }

  /** PutLengthPrefixedSlice and GetLengthPrefixedSlice. */
  function PutSlice(s: Bytes): Bytes {
    PutVarint(|s|) + s
  }

  /** A slice and how many bytes it took. */
  datatype Sliced = Sliced(slice: Bytes, size: nat)

  function GetSlice(b: Bytes): (r: Option<Sliced>)
    ensures r.Some? ==> 1 <= r.value.size <= |b|
  {
    match GetVarint32(b)
    case None => None
    case Some(g) =>
      if |b| - g.size < g.value then None
      else Some(Sliced(b[g.size..g.size + g.value], g.size + g.value))
  }

  lemma {:induction false} SliceRoundTrip(s: Bytes, rest: Bytes)
    requires |s| < TWO32
    ensures GetSlice(PutSlice(s) + rest) == Some(Sliced(s, |PutSlice(s)|))
    ensures (PutSlice(s) + rest)[|PutSlice(s)|..] == rest
  {
    RoundTrip32(|s|, s + rest);
    assert PutSlice(s) + rest == PutVarint(|s|) + (s + rest);
  }

  /** A parsed thing and the input behind it. */
  datatype Parsed<T> = Parsed(value: T, rest: Bytes)

  /** GetLengthPrefixedSlice, which also moves its input. */
  function GetBytes(b: Bytes): (p: Option<Parsed<Bytes>>)
    ensures p.Some? ==> |p.value.rest| < |b|
  {
    match GetSlice(b)
    case None => None
    case Some(s) => Some(Parsed(s.slice, b[s.size..]))
  }

  lemma {:induction false} RoundBytes(s: Bytes, rest: Bytes)
    requires |s| < TWO32
    ensures GetBytes(PutSlice(s) + rest) == Some(Parsed(s, rest))
  {
    SliceRoundTrip(s, rest);
  }

  /** Bytes of a number, least significant first. */
  function LittleEndian(n: nat, size: nat): (b: Bytes)
    ensures |b| == size
  {
    if size == 0 then [] else [n % 256] + LittleEndian(n / 256, size - 1)
  }

  function FromLittleEndian(b: Bytes): nat {
    if b == [] then 0 else b[0] + 256 * FromLittleEndian(b[1..])
  }

  lemma {:induction false} LittleEndianRoundTrip(n: nat, size: nat)
    requires n < Pow256(size)
    ensures FromLittleEndian(LittleEndian(n, size)) == n
  {
    if size > 0 {
      LittleEndianRoundTrip(n / 256, size - 1);
      assert LittleEndian(n, size)[1..] == LittleEndian(n / 256, size - 1);
    }
  }

  lemma {:induction false} FromBound(b: Bytes)
    ensures FromLittleEndian(b) < Pow256(|b|)
  {
    if b != [] {
      FromBound(b[1..]);
    }
  }

  function Pow256(n: nat): nat {
    if n == 0 then 1 else 256 * Pow256(n - 1)
  }

  lemma {:induction false} Widths()
    ensures Pow256(4) == TWO32 && Pow256(8) == TWO64
  {
    assert Pow256(1) == 0x100 && Pow256(2) == 0x1_0000 && Pow256(3) == 0x100_0000 && Pow256(4) == TWO32;
    assert Pow256(5) == 0x100_0000_0000 && Pow256(6) == 0x1_0000_0000_0000 && Pow256(7) == 0x100_0000_0000_0000;
  }
}
