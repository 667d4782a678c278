/** Decoding values that are not submessages, with their overflow checks (pb_decode.c). */
module PbScalars {
  import opened Basics
  import opened Varints
  import opened PbFormat
  import opened PbReading

  /** Reading the low bits of a number as a signed one: a cast to a signed type. */
  function Signed(x: int, bits: nat): int {
    var low := x % Pow2(bits);
    if low >= Pow2(bits) / 2 then low - Pow2(bits) else low
  }

  function UnZigZag(value: nat): int {
    if value % 2 == 1 then -(value / 2) - 1 else value / 2
  }

  lemma {:induction false} ZigZagRoundTrip(n: int)
    ensures UnZigZag(ZigZag(n)) == n
  {
  }

  /** A number of its width survives the casts. */
  lemma {:induction false} SignedRoundTrip(n: int, bits: nat)
    requires Width(bits) && -(Pow2(bits) / 2) <= n < Pow2(bits) / 2
    ensures Unsigned(n) < TWO64 && ZigZag(n) < TWO64 && Signed(n, bits) == n
    ensures Signed(Unsigned(n), if bits == 64 then 64 else 32) == n
  {
    if bits == 64 {
      SignedIs(n, n, 64);
      SignedIs(Unsigned(n), n, 64);
    } else {
      assert Pow2(bits) <= TWO32;
      SignedIs(n, n, bits);
      SignedIs(Unsigned(n), n, 32);
    }
  }

  /** x is the cast of n if they differ by a multiple of the width. */
  lemma {:induction false} SignedIs(x: int, n: int, bits: nat)
    requires Width(bits) && -(Pow2(bits) / 2) <= n < Pow2(bits) / 2
    requires x == n || x == n + TWO64
    ensures Signed(x, bits) == n
  {
    if bits == 8 {
      LowBits(x, n, 0x100, 0x100_0000_0000_0000);
    } else if bits == 16 {
      LowBits(x, n, 0x1_0000, 0x1_0000_0000_0000);
    } else if bits == 32 {
      LowBits(x, n, TWO32, TWO32);
    } else {
      LowBits(x, n, TWO64, 1);
    }
  }

  lemma {:induction false} LowBits(x: int, n: int, p: nat, k: nat)
    requires p > 0 && -(p as int) <= n < p && p * k == TWO64 && (x == n || x == n + TWO64)
    ensures x % p == if n >= 0 then n else n + p
  {
    var q := (if x == n then 0 else k) - if n >= 0 then 0 else 1;
    var r := if n >= 0 then n else n + p;
    assert x == q * p + r;
    Remainder(x, p, q, r);
  }

  lemma {:induction false} Remainder(x: int, p: nat, q: int, r: nat)
    requires r < p && x == q * p + r
    ensures x % p == r
  {
    var q1, r1 := x / p, x % p;
    assert x == q1 * p + r1;
    Multiples(q - q1, p);
    assert (q - q1) * p == q * p - q1 * p;
  }

  lemma {:induction false} Multiples(k: int, p: nat)
    requires p > 0
    ensures k > 0 ==> k * p >= p
    ensures k < 0 ==> k * p <= -(p as int)
  {
  }

  /** The checks on a number of a static field: None if it is too large for its storage. */
  function CheckNumber(t: LType, value: nat): Option<int> {
    match t
    case VarintT(bits) =>
      if !Width(bits) then None
      else
        var svalue := Signed(value, if bits == 64 then 64 else 32);
        if Signed(svalue, bits) != svalue then None else Some(svalue)
    case UvarintT(bits) => if !Width(bits) || value % Pow2(bits) != value then None else Some(value)
    case SvarintT(bits) =>
      var n := UnZigZag(value);
      if !Width(bits) || Signed(n, bits) != n then None else Some(n)
    case _ => None
  }

  function RawNumber(t: LType, n: int): nat {
    if t.SvarintT? then ZigZag(n) else Unsigned(n)
  }

  /** What passes the checks fits. */
  lemma {:induction false} CheckedFits(t: LType, value: nat)
    requires value < TWO64 && CheckNumber(t, value).Some?
    ensures WfValue(t, Num(CheckNumber(t, value).value))
  {
    if !t.UvarintT? {
      SignedRange(if t.VarintT? then Signed(value, if t.bits == 64 then 64 else 32) else UnZigZag(value), t.bits);
    } else {
      ModRange(value, Pow2(t.bits));
    }
  }

  lemma {:induction false} ModRange(x: int, p: nat)
    requires p > 0
    ensures 0 <= x % p < p
  {
  }

  lemma {:induction false} SignedRange(x: int, bits: nat)
    requires Width(bits)
    ensures -(Pow2(bits) / 2) <= Signed(x, bits) < Pow2(bits) / 2
  {
    ModRange(x, Pow2(bits));
  }

  lemma {:induction false} SmallIsSame(n: nat, bits: nat)
    requires Width(bits) && n < Pow2(bits)
    ensures n < TWO64 && Unsigned(n) == n && n % Pow2(bits) == n && Pow2(bits) > 0
  {
  }

  lemma {:induction false} NumberRoundTrip(t: LType, v: Value)
    requires (t.VarintT? || t.UvarintT? || t.SvarintT?) && WfValue(t, v)
    ensures EncScalar(t, v) == PutVarint(RawNumber(t, v.n)) && RawNumber(t, v.n) < TWO64
    ensures CheckNumber(t, RawNumber(t, v.n)) == Some(v.n)
  {
    hide PutVarint, Signed, ZigZag, UnZigZag, Pow2;
    if t.UvarintT? {
      SmallIsSame(v.n, t.bits);
    } else {
      SignedRoundTrip(v.n, t.bits);
      ZigZagRoundTrip(v.n);
    }
  }

  /** The C string in a buffer. */
  function UpToNul(b: Bytes): (s: Bytes)
    ensures |s| <= |b| && s == b[..|s|] && forall i | 0 <= i < |s| :: s[i] != 0
    ensures |s| < |b| ==> b[|s|] == 0
  {
    if b == [] || b[0] == 0 then [] else [b[0]] + UpToNul(b[1..])
  }

  // ---- What a value at the front of some bytes means ----

  /** The value of type t at the front of b, t not being a submessage. */
  ghost function ScalarOf(t: LType, b: Bytes): Value {
    match t
    case BoolT => Num(if Number32(b) != 0 then 1 else 0)
    case Fixed32T => Num(if |b| >= 4 then FromLittleEndian(b[..4]) else 0)
    case Fixed64T => Num(if |b| >= 8 then FromLittleEndian(b[..8]) else 0)
    case BytesT(_) => Data(Payload(b))
    case StringT(_) => Data(UpToNul(Payload(b)))
    case FixedBytesT(size) => Data(if Payload(b) == [] then seq(size, i => 0) else Payload(b))
    case SubT(_) => Num(0)
    case _ => NumberOf(t, b)
  }

  ghost function NumberOf(t: LType, b: Bytes): Value {
    match GetVarint64(b)
    case None => Num(0)
    case Some(g) => Num(if CheckNumber(t, g.value).Some? then CheckNumber(t, g.value).value else 0)
  }

  /** That value is whole and fits its storage. */
  ghost predicate AcceptScalar(t: LType, b: Bytes) {
    match t
    case BoolT => Accept32(b)
    case Fixed32T => |b| >= 4
    case Fixed64T => |b| >= 8
    case BytesT(max) => AcceptSlice(b) && |Payload(b)| <= max
    case StringT(size) => AcceptSlice(b) && |Payload(b)| < size
    case FixedBytesT(size) => AcceptSlice(b) && (|Payload(b)| == 0 || |Payload(b)| == size)
    case SubT(_) => false
    case _ => GetVarint64(b).Some? && CheckNumber(t, GetVarint64(b).value.value).Some?
  }

  /** Which numbers fit, and what they are: a number of 64 bits read as it is, as a signed one (of 32 bits, if the
      storage has no more), or in zigzag order. */
  lemma {:induction false} CheckNumberMeans(t: LType, value: nat, n: int)
    requires value < 0x1_0000_0000_0000_0000 && WfType(t)
    ensures t.UvarintT? ==> (CheckNumber(t, value) == Some(n) <==> n == value && WfValue(t, Num(n)))
    ensures t.SvarintT? ==> (CheckNumber(t, value) == Some(n) <==> value == (if n >= 0 then 2 * n else -2 * n - 1) && WfValue(t, Num(n)))
    ensures t == VarintT(64) ==> (CheckNumber(t, value) == Some(n) <==>
              value == (if n >= 0 then n else n + 0x1_0000_0000_0000_0000) && WfValue(t, Num(n)))
    ensures t.VarintT? && t.bits != 64 ==> (CheckNumber(t, value) == Some(n) <==>
              value % 0x1_0000_0000 == (if n >= 0 then n else n + 0x1_0000_0000) && WfValue(t, Num(n)))
  {
    hide Signed, UnZigZag;
    if t.UvarintT? {
      UvarintMeans(t.bits, value, n);
    } else if t.SvarintT? {
      SignedFixes(UnZigZag(value), t.bits);
      UnZigZagMeans(value, n);
    } else if t.VarintT? {
      var wide := if t.bits == 64 then 64 else 32;
      SignedFixes(Signed(value, wide), t.bits);
      SignedMeans(value, wide, n);
    }
  }

  lemma {:induction false} UvarintMeans(bits: nat, value: nat, n: int)
    requires Width(bits)
    ensures value % Pow2(bits) == value <==> value < Pow2(bits)
  {
    ModRange(value, Pow2(bits));
  }

  lemma {:induction false} UnZigZagMeans(value: nat, n: int)
    ensures UnZigZag(value) == n <==> value == if n >= 0 then 2 * n else -2 * n - 1
  {
  }

  lemma {:induction false} SignedFixes(n: int, bits: nat)
    requires Width(bits)
    ensures Signed(n, bits) == n <==> -(Pow2(bits) / 2) <= n < Pow2(bits) / 2
  {
    SignedRange(n, bits);
  }

  lemma {:induction false} SignedMeans(value: nat, bits: nat, n: int)
    requires bits == 64 || bits == 32
    ensures -(Pow2(bits) / 2) <= n < Pow2(bits) / 2 ==>
              (Signed(value, bits) == n <==> value % Pow2(bits) == if n >= 0 then n else n + Pow2(bits))
    ensures -(Pow2(bits) / 2) <= Signed(value, bits) < Pow2(bits) / 2
  {
    SignedRange(value, bits);
  }

  /** pb_dec_varint, pb_dec_uvarint, pb_dec_svarint. */
  method DecodeNumber(stream: IStream, t: LType, ghost v: Value, ghost more: Bytes) returns (ok: bool, r: Value)
    requires stream.Valid() && (t.VarintT? || t.UvarintT? || t.SvarintT?)
    modifies stream
    ensures stream.Valid() && stream.bytesLeft <= old(stream.bytesLeft)
    ensures stream.state + stream.bytesLeft == old(stream.state) + old(stream.bytesLeft)
    ensures ok ==> WfValue(t, r) && Took(old(stream.Rest()), WT_VARINT, old(stream.bytesLeft) - stream.bytesLeft)
    ensures ok <==> AcceptScalar(t, old(stream.Rest()))
    ensures ok ==> r == ScalarOf(t, old(stream.Rest()))
    ensures WfValue(t, v) && old(stream.Rest()) == EncScalar(t, v) + more ==> ok && r == v && stream.Rest() == more
  {
    hide Took, GetVarint64, PutVarint, EncScalar, CheckNumber, RawNumber;
    if GetVarint64(stream.Rest()).Some? {
      TookVarint(stream.Rest());
    }
    if WfValue(t, v) && stream.Rest() == EncScalar(t, v) + more {
      NumberRoundTrip(t, v);
      RoundTrip64(RawNumber(t, v.n), more);
    }
    var value;
    ok, value := stream.DecodeVarint();
    r := Num(0);
    if ok {
      var n := CheckNumber(t, value);
      if n.None? {
        return false, r;
      }
      CheckedFits(t, value);
      r := Num(n.value);
    }
  }

  lemma {:induction false} WholeString(b: Bytes)
    requires forall i | 0 <= i < |b| :: b[i] != 0
    ensures UpToNul(b) == b
  {
    if b != [] {
      WholeString(b[1..]);
    }
  }

  lemma {:induction false} NoNul(t: LType, b: Bytes)
    requires WfValue(t, Data(b))
    ensures t.StringT? ==> UpToNul(b) == b
  {
    if t.StringT? {
      WholeString(b);
    }
  }

  /** The length in front of a length-delimited value; b is the value if its length is encoded in the shortest way. */
  method DecodeLength(stream: IStream, ghost b: Bytes, ghost more: Bytes) returns (ok: bool, size: nat)
    requires stream.Valid()
    modifies stream
    ensures stream.Valid() && stream.bytesLeft <= old(stream.bytesLeft) && (ok ==> stream.bytesLeft < old(stream.bytesLeft))
    ensures stream.state + stream.bytesLeft == old(stream.state) + old(stream.bytesLeft)
    ensures AcceptSlice(old(stream.Rest())) <==> ok && size <= stream.bytesLeft
    ensures ok && size <= stream.bytesLeft ==>
      && Payload(old(stream.Rest())) == stream.Rest()[..size] && |Payload(old(stream.Rest()))| == size
      && Took(old(stream.Rest()), WT_STRING, old(stream.bytesLeft) - stream.bytesLeft + size)
    ensures old(stream.Rest()) == PutSlice(b) + more && |b| < TWO32 ==> ok && size == |b| && stream.Rest() == b + more
  {
    hide PutVarint, Reads32, Took, Accept32, AcceptSlice, Payload;
    ghost var rest0 := stream.Rest();
    assert stream.Rest() == PutSlice(b) + more ==> stream.Rest() == PutVarint(|b|) + (b + more);
    var eof;
    ok, size, eof := stream.DecodeVarint32(|b|, b + more);
    if !ok {
      NoSlice(rest0);
      return;
    }
    ghost var k := |rest0| - stream.bytesLeft;
    PayloadIs(rest0, size, k);
    assert stream.Rest() == rest0[k..];
    if size <= stream.bytesLeft {
      TookSlice(rest0, size, k);
    }
  }

  lemma {:induction false} NoSlice(b: Bytes)
    requires !Accept32(b)
    ensures !AcceptSlice(b)
  {
  }

  /** pb_dec_bytes, pb_dec_string and pb_dec_fixed_length_bytes: nothing longer than the storage. */
  method DecodeData(stream: IStream, t: LType, ghost v: Value, ghost more: Bytes) returns (ok: bool, r: Value)
    requires stream.Valid() && (t.BytesT? || t.StringT? || t.FixedBytesT?)
    modifies stream
    ensures stream.Valid() && stream.bytesLeft <= old(stream.bytesLeft)
    ensures stream.state + stream.bytesLeft == old(stream.state) + old(stream.bytesLeft)
    ensures ok && WfType(t) ==> WfValue(t, r)
    ensures ok ==> Took(old(stream.Rest()), WT_STRING, old(stream.bytesLeft) - stream.bytesLeft)
    ensures WfValue(t, v) && old(stream.Rest()) == PutSlice(v.bytes) + more && |v.bytes| < TWO32 ==>
        ok && r == v && stream.Rest() == more
    ensures ok <==> AcceptScalar(t, old(stream.Rest()))
    ensures ok ==> r == ScalarOf(t, old(stream.Rest()))
  {
    hide PutSlice, Took, AcceptSlice, Payload, UpToNul;
    ghost var good := WfValue(t, v) && stream.Rest() == PutSlice(v.bytes) + more && |v.bytes| < TWO32;
    ghost var b := if v.Data? then v.bytes else [];
    var size;
    ok, size := DecodeLength(stream, b, more);
    r := Data([]);
    if !ok {
      return;
    }
    if t.FixedBytesT? && size == 0 {
      r := Data(seq(t.size, i => 0));
      assert good ==> [] + more == more;
      return;
    }
    if (t.BytesT? && size > t.max) || (t.StringT? && size + 1 > t.dataSize) || (t.FixedBytesT? && size != t.size) {
      ok := false;
      return;
    }
    Parts(b, more);
    var buf;
    ok, buf := stream.Read(size);
    if good {
      NoNul(t, b);
    }
    r := Data(if t.StringT? then UpToNul(buf) else buf);
  }

  /** The decoders of all values that are not submessages. */
  method DecodeScalar(stream: IStream, t: LType, ghost v: Value, ghost more: Bytes) returns (ok: bool, r: Value)
    requires stream.Valid() && !t.SubT?
    modifies stream
    ensures stream.Valid() && stream.bytesLeft <= old(stream.bytesLeft)
    ensures stream.state + stream.bytesLeft == old(stream.state) + old(stream.bytesLeft)
    ensures ok && WfType(t) ==> WfValue(t, r)
    ensures ok ==> Took(old(stream.Rest()), WireType(t), old(stream.bytesLeft) - stream.bytesLeft)
    ensures WfValue(t, v) && old(stream.Rest()) == EncScalar(t, v) + more && old(stream.bytesLeft) < TWO32 ==>
        ok && r == v && stream.Rest() == more
    ensures ok <==> AcceptScalar(t, old(stream.Rest()))
    ensures ok ==> r == ScalarOf(t, old(stream.Rest()))
  {
    hide Took, Reads32, Accept32, Number32, AcceptSlice, Payload, UpToNul, CheckNumber, GetVarint64, FromLittleEndian, LittleEndian, NumberOf;
    match t
    case BoolT =>
      var value, eof;
      ghost var rest0 := stream.Rest();
      ok, value, eof := stream.DecodeVarint32(if v.Num? && v.n != 0 then 1 else 0, more);
      r := Num(if value != 0 then 1 else 0);
      if ok {
        TookVarint32(rest0, value, |rest0| - stream.bytesLeft);
        Number32Is(rest0, value, |rest0| - stream.bytesLeft);
      }
    case VarintT(_) => ok, r := DecodeNumber(stream, t, v, more);
    case UvarintT(_) => ok, r := DecodeNumber(stream, t, v, more);
    case SvarintT(_) => ok, r := DecodeNumber(stream, t, v, more);
    case Fixed32T => ok, r := DecodeFixed(stream, 4, if v.Num? then v.n else 0, more);
    case Fixed64T => ok, r := DecodeFixed(stream, 8, if v.Num? then v.n else 0, more);
    case BytesT(_) => ok, r := DecodeData(stream, t, v, more);
    case StringT(_) => ok, r := DecodeData(stream, t, v, more);
    case FixedBytesT(_) => ok, r := DecodeData(stream, t, v, more);
  }

  /** pb_decode_fixed32 and pb_decode_fixed64. */
  method DecodeFixed(stream: IStream, size: nat, ghost n: int, ghost more: Bytes) returns (ok: bool, r: Value)
    requires stream.Valid() && (size == 4 || size == 8)
    modifies stream
    ensures stream.Valid() && stream.bytesLeft <= old(stream.bytesLeft)
    ensures stream.state + stream.bytesLeft == old(stream.state) + old(stream.bytesLeft)
    ensures 0 <= n < (if size == 4 then TWO32 else TWO64) && old(stream.Rest()) == LittleEndian(n, size) + more ==>
        ok && r == Num(n) && stream.Rest() == more
    ensures ok ==> r.Num? && 0 <= r.n < if size == 4 then TWO32 else TWO64
    ensures ok ==> Took(old(stream.Rest()), if size == 4 then WT_32BIT else WT_64BIT, old(stream.bytesLeft) - stream.bytesLeft)
    ensures ok <==> |old(stream.Rest())| >= size
    ensures ok ==> r == Num(FromLittleEndian(old(stream.Rest())[..size]))
  {
    hide FromLittleEndian, LittleEndian;
    Widths();
    if 0 <= n < (if size == 4 then TWO32 else TWO64) {
      LittleEndianRoundTrip(n, size);
      Parts(LittleEndian(n, size), more);
    }
    var buf;
    ok, buf := stream.Read(size);
    FromBound(buf);
    r := Num(FromLittleEndian(buf));
  }

  /** pb_skip_varint: any number of bytes up to one without its high bit. */
  method SkipVarint(stream: IStream) returns (ok: bool)
    requires stream.Valid()
    modifies stream
    ensures stream.Valid() && stream.bytesLeft <= old(stream.bytesLeft)
    ensures stream.state + stream.bytesLeft == old(stream.state) + old(stream.bytesLeft)
    ensures ok <==> FieldSize(old(stream.Rest()), WT_VARINT).Some?
    ensures ok ==> FieldSize(old(stream.Rest()), WT_VARINT).value == old(stream.bytesLeft) - stream.bytesLeft
  {
    var b: byte := 128;
    ok := true;
    ghost var rest0 := stream.Rest();
    ghost var read: nat, result: nat, scale: nat := 0, 0, 1;
    NothingRead(rest0, |rest0|);
    hide Continues, GetVarint;
    while b >= 128
      invariant stream.Valid() && stream.state + stream.bytesLeft == old(stream.state) + old(stream.bytesLeft)
      invariant 0 <= read <= |rest0| && stream.bytesLeft == old(stream.bytesLeft) - read && stream.Rest() == rest0[read..]
      invariant if b >= 128 then Continues(rest0, |rest0|, read, result, scale)
                else GetVarint(rest0, |rest0|).Some? && GetVarint(rest0, |rest0|).value.size == read
      decreases b >= 128, stream.bytesLeft
    {
      ok, b := stream.ReadByte();
      if !ok {
        NothingLeft(rest0, |rest0|, read, result, scale);
        return;
      }
      VarintStep(rest0, |rest0|, read, result, scale);
      read, result, scale := read + 1, result + b % 128 * scale, scale * 128;
    }
  }

  /** pb_skip_string; b is what the string holds if it is encoded in the shortest way. */
  method SkipString(stream: IStream, ghost b: Bytes, ghost more: Bytes) returns (ok: bool)
    requires stream.Valid()
    modifies stream
    ensures stream.Valid() && stream.bytesLeft <= old(stream.bytesLeft)
    ensures stream.state + stream.bytesLeft == old(stream.state) + old(stream.bytesLeft)
    ensures ok ==> FieldSize(old(stream.Rest()), WT_STRING) == Some(old(stream.bytesLeft) - stream.bytesLeft)
    ensures ok <==> AcceptSlice(old(stream.Rest()))
    ensures old(stream.Rest()) == PutSlice(b) + more && |b| < TWO32 ==> ok && stream.Rest() == more
  {
    hide PutSlice, FieldSize, AcceptSlice, Payload;
    var length, buf;
    ok, length := DecodeLength(stream, b, more);
    if ok {
      Parts(b, more);
      ok, buf := stream.Read(length);
    }
  }

  /** pb_skip_field: past a value of any wire type, and no further. */
  method SkipField(stream: IStream, wire: nat, ghost b: Bytes, ghost more: Bytes) returns (ok: bool)
    requires stream.Valid()
    modifies stream
    ensures stream.Valid() && stream.bytesLeft <= old(stream.bytesLeft)
    ensures stream.state + stream.bytesLeft == old(stream.state) + old(stream.bytesLeft)
    ensures ok ==> Took(old(stream.Rest()), wire, old(stream.bytesLeft) - stream.bytesLeft)
    ensures ok <==> AcceptSkip(old(stream.Rest()), wire)
    ensures wire == WT_STRING && old(stream.Rest()) == PutSlice(b) + more && |b| < TWO32 ==> ok && stream.Rest() == more
  {
    hide PutSlice, GetVarint, Accept32;
    var buf;
    if wire == WT_VARINT {
      ok := SkipVarint(stream);
    } else if wire == WT_64BIT {
      ok, buf := stream.Read(8);
    } else if wire == WT_STRING {
      ok := SkipString(stream, b, more);
    } else if wire == WT_32BIT {
      ok, buf := stream.Read(4);
    } else {
      ok := false;
    }
  }
}
