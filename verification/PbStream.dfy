/** Reading from an input stream (pb_decode.c): integers, tags, values that are not submessages. */
module PbReading {
  import opened Basics
  import opened Varints
  import opened PbFormat

  lemma {:induction false} Parts(a: Bytes, b: Bytes)
    ensures (a + b)[..|a|] == a && (a + b)[|a|..] == b
  {
  }

  /** pb_istream_t over a buffer. */
  class IStream {
    const data: Bytes
    var state: nat
    var bytesLeft: nat

    ghost predicate Valid()
      reads this
    {
      state + bytesLeft <= |data|
    }

    /** What is left to read. */
    ghost function Rest(): (r: Bytes)
      requires Valid()
      reads this
      ensures |r| == bytesLeft
    {
      data[state..state + bytesLeft]
    }

    constructor (data: Bytes, state: nat, bytesLeft: nat)
      requires state + bytesLeft <= |data|
      ensures Valid() && this.data == data && this.state == state && this.bytesLeft == bytesLeft
    {
      this.data, this.state, this.bytesLeft := data, state, bytesLeft;
    }

    /** pb_read. */
    method Read(count: nat) returns (ok: bool, buf: Bytes)
      requires Valid()
      modifies this
      ensures Valid()
      ensures ok <==> count <= old(bytesLeft)
      ensures !ok ==> unchanged(this)
      ensures ok ==> buf == old(Rest())[..count] && Rest() == old(Rest())[count..]
      ensures ok ==> state == old(state) + count && bytesLeft == old(bytesLeft) - count
    {
      if count == 0 {
        return true, [];
      }
      if bytesLeft < count {
        return false, [];
      }
      buf := data[state..state + count];
      state, bytesLeft := state + count, bytesLeft - count;
      ok := true;
    }

    /** pb_readbyte. */
    method ReadByte() returns (ok: bool, b: byte)
      requires Valid()
      modifies this
      ensures Valid()
      ensures ok <==> old(bytesLeft) > 0
      ensures !ok ==> unchanged(this)
      ensures ok ==> b == old(Rest())[0] && Rest() == old(Rest())[1..]
      ensures ok ==> state == old(state) + 1 && bytesLeft == old(bytesLeft) - 1
    {
      if bytesLeft == 0 {
        return false, 0;
      }
      b := data[state];
      state, bytesLeft := state + 1, bytesLeft - 1;
      ok := true;
    }

    /** pb_decode_varint: at most ten bytes, in 64-bit arithmetic. */
    method DecodeVarint() returns (ok: bool, value: nat)
      requires Valid()
      modifies this
      ensures Valid() && bytesLeft <= old(bytesLeft) && state + bytesLeft == old(state) + old(bytesLeft)
      ensures ok <==> GetVarint64(old(Rest())).Some?
      ensures ok ==> var g := GetVarint64(old(Rest())).value;
        value == g.value && Rest() == old(Rest())[g.size..] && state == old(state) + g.size && bytesLeft == old(bytesLeft) - g.size
    {
      hide Valid, Continues, GetVarint;
      ghost var rest0 := Rest();
      NothingRead(rest0, 10);
      var result: nat, scale: nat, read: nat := 0, 1, 0;
      while true
        invariant Valid() && read <= 10 && read <= |rest0| && Rest() == rest0[read..]
        invariant state == old(state) + read && bytesLeft == old(bytesLeft) - read
        invariant Continues(rest0, 10, read, result, scale)
        decreases bytesLeft
      {
        if read >= 10 {
          NothingLeft(rest0, 10, read, result, scale);
          return false, 0;
        }
        var more, b := ReadByte();
        if !more {
          NothingLeft(rest0, 10, read, result, scale);
          return false, 0;
        }
        VarintStep(rest0, 10, read, result, scale);
        result := result + b % 128 * scale;
        scale, read := scale * 128, read + 1;
        if b < 128 {
          break;
        }
      }
      ok, value := true, result % TWO64;
    }
  
    /** pb_decode_varint32_eof. More than five bytes are allowed if the rest only extends the sign. */
    method DecodeVarint32(ghost v: nat, ghost more: Bytes) returns (ok: bool, value: nat, eof: bool)
      requires Valid()
      modifies this
      ensures Valid() && bytesLeft <= old(bytesLeft)
      ensures state + bytesLeft == old(state) + old(bytesLeft)
      ensures ok ==> bytesLeft < old(bytesLeft) && value < TWO32
      ensures eof ==> !ok && old(bytesLeft) == 0
      ensures ok ==> Reads32(old(Rest()), value, old(bytesLeft) - bytesLeft)
      ensures ok <==> Accept32(old(Rest()))
      ensures v < TWO32 && old(Rest()) == PutVarint(v) + more ==> ok && value == v && !eof && Rest() == more
    {
      hide Valid, PutVarint, Grouping, GroupEnd, Summed, Reads32, Tail32;
      ghost var good := v < TWO32 && Rest() == PutVarint(v) + more;
      ghost var rest0 := Rest();
      FirstByte(v, more);
      eof := false;
      var got, b := ReadByte();
      if !got {
        return false, 0, bytesLeft == 0;
      }
      SumStart(rest0);
      if b < 128 {
        return true, b, false;
      }
      var result: nat, bitpos: nat, scale: nat := b % 128, 7, 128;
      ghost var w: nat, read: nat := v / 128, 1;
      if good {
        GroupStart(v, more, b);
      }
      while true
        invariant Valid() && bytesLeft < old(bytesLeft) && state + bytesLeft == old(state) + old(bytesLeft)
        invariant result < TWO32 && bitpos >= 7
        invariant 0 < read <= |rest0| && Rest() == rest0[read..] && read == old(bytesLeft) - bytesLeft
        invariant Summed(rest0, read, result, bitpos, scale)
        invariant Accept32(rest0) == Tail32(rest0[read..], result, bitpos, scale)
        invariant good ==> Grouping(v, more, Rest(), result, bitpos, scale, w)
        decreases bytesLeft
      {
        if good {
          GroupStep(v, more, Rest(), result, bitpos, scale, w);
        }
        TailStep(Rest(), result, bitpos, scale);
        got, b := ReadByte();
        if !got {
          return false, 0, false;
        }
        SumStep(rest0, read, result, bitpos, scale);
        if bitpos >= 32 {
          var signExtension := if bitpos < 63 then 0xff else 0x01;
          if b % 128 != 0 && (result / 0x8000_0000 == 0 || b != signExtension) {
            return false, 0, false;
          }
        } else {
          result := OrShifted(result, b, scale);
        }
        bitpos, scale := bitpos + 7, scale * 128;
        w, read := w / 128, read + 1;
        if b < 128 {
          break;
        }
      }
      if good {
        GroupEnds(v, more, Rest(), result, bitpos, b);
      }
      if bitpos == 35 && b / 16 % 8 != 0 {
        return false, 0, false;
      }
      ok, value := true, result;
    }

    /** pb_decode_tag: a key of zero ends the message. */
    method DecodeTag(ghost wire0: nat, ghost tag0: nat, ghost more: Bytes) returns (ok: bool, wire: nat, tag: nat, eof: bool)
      requires Valid()
      modifies this
      ensures Valid() && bytesLeft <= old(bytesLeft) && state + bytesLeft == old(state) + old(bytesLeft)
      ensures wire < 8 && (ok ==> bytesLeft < old(bytesLeft) && KeyAt(old(Rest()), wire, tag, old(bytesLeft) - bytesLeft))
      ensures !ok && eof ==> old(bytesLeft) == 0 || exists size :: Reads32(old(Rest()), 0, size)
      ensures ok <==> Accept32(old(Rest())) && Number32(old(Rest())) != 0
      ensures ok ==> wire == Number32(old(Rest())) % 8 && tag == Number32(old(Rest())) / 8
      ensures old(bytesLeft) > 0 && !ok ==> (eof <==> Accept32(old(Rest())) && Number32(old(Rest())) == 0)
      ensures wire0 < 8 && 0 < tag0 < 0x2000_0000 && old(Rest()) == EncTag(wire0, tag0) + more ==>
          ok && wire == wire0 && tag == tag0 && Rest() == more
    {
      hide Reads32, Accept32, Number32;
      ghost var rest0 := Rest();
      var value;
      ok, value, eof := DecodeVarint32(tag0 * 8 + wire0, more);
      wire, tag := 0, 0;
      if ok {
        Number32Is(rest0, value, |rest0| - bytesLeft);
      }
      if !ok {
        return;
      }
      if value == 0 {
        ok, eof := false, true;
        return;
      }
      wire, tag := value % 8, value / 8;
    }
  }

  /** The first byte of an encoded number says whether there is more of it. */
  lemma {:induction false} FirstByte(v: nat, more: Bytes)
    ensures var b := PutVarint(v) + more;
      && b[0] % 128 == v % 128 && (b[0] < 128 <==> v / 128 == 0)
      && (v / 128 == 0 ==> b[0] == v && b[1..] == more)
      && (v / 128 > 0 ==> b[1..] == PutVarint(v / 128) + more)
  {
  }

  predicate Scales(bitpos: nat, scale: nat) {
    || (bitpos == 7 && scale == 0x80) || (bitpos == 14 && scale == 0x4000)
    || (bitpos == 21 && scale == 0x20_0000) || (bitpos == 28 && scale == 0x1000_0000)
  }

  /** result |= (byte & 0x7f) << bitpos in 32-bit arithmetic; the bits of result are below bitpos. */
  function OrShifted(result: nat, b: byte, scale: nat): (r: nat)
    ensures r < TWO32
  {
    (result + b % 128 * scale) % TWO32
  }

  /** Part way through a 32-bit number: result holds its low bits, w is still to come. */
  ghost predicate Grouping(v: nat, more: Bytes, rest: Bytes, result: nat, bitpos: nat, scale: nat, w: nat) {
    && rest == PutVarint(w) + more && v < TWO32 && v == result + scale * w && w > 0
    && Scales(bitpos, scale) && result < scale
  }

  ghost predicate GroupEnd(v: nat, more: Bytes, rest: Bytes, result: nat, bitpos: nat, b: byte) {
    result == v && rest == more && !(bitpos == 35 && b / 16 % 8 != 0)
  }

  lemma {:induction false} GroupEnds(v: nat, more: Bytes, rest: Bytes, result: nat, bitpos: nat, b: byte)
    requires GroupEnd(v, more, rest, result, bitpos, b)
    ensures result == v && rest == more && !(bitpos == 35 && b / 16 % 8 != 0)
  {
  }

  lemma {:induction false} GroupStart(v: nat, more: Bytes, b: byte)
    requires v < TWO32 && b == (PutVarint(v) + more)[0] && b >= 128
    ensures Grouping(v, more, (PutVarint(v) + more)[1..], b % 128, 7, 128, v / 128)
  {
    FirstByte(v, more);
  }

  lemma {:induction false} GroupStep(v: nat, more: Bytes, rest: Bytes, result: nat, bitpos: nat, scale: nat, w: nat)
    requires Grouping(v, more, rest, result, bitpos, scale, w)
    ensures rest != [] && bitpos < 32
    ensures rest[0] >= 128 ==> Grouping(v, more, rest[1..], OrShifted(result, rest[0], scale), bitpos + 7, scale * 128, w / 128)
    ensures rest[0] < 128 ==> GroupEnd(v, more, rest[1..], OrShifted(result, rest[0], scale), bitpos + 7, rest[0])
  {
    hide PutVarint;
    FirstByte(w, more);
    GroupFits(v, result, scale, w, bitpos);
  }

  /** The next seven bits of a 32-bit number, and what is left of it. */
  lemma {:induction false} GroupFits(v: nat, result: nat, scale: nat, w: nat, bitpos: nat)
    requires v < TWO32 && v == result + scale * w && w > 0 && Scales(bitpos, scale) && result < scale
    ensures result + w % 128 * scale <= v && result + w % 128 * scale < scale * 128
    ensures v == result + w % 128 * scale + scale * 128 * (w / 128)
    ensures w / 128 > 0 ==> bitpos < 28 && Scales(bitpos + 7, scale * 128)
    ensures w / 128 == 0 && bitpos == 28 ==> w < 16
  {
    var lo, hi := w % 128, w / 128;
    assert w == lo + 128 * hi;
    Regroup(lo, hi, scale);
  }

  /** After `read` bytes with the top bit set, which gave result, the value depends on the bytes left. */
  ghost predicate Continues(rest: Bytes, limit: nat, read: nat, result: nat, scale: nat)
    requires read <= limit && read <= |rest|
  {
    match GetVarint(rest[read..], limit - read)
    case None => GetVarint(rest, limit).None?
    case Some(g) => GetVarint(rest, limit) == Some(Got(result + scale * g.value, read + g.size))
  }

  lemma {:induction false} NothingRead(rest: Bytes, limit: nat)
    ensures Continues(rest, limit, 0, 0, 1)
  {
    assert rest[0..] == rest;
  }

  lemma {:induction false} NothingLeft(rest: Bytes, limit: nat, read: nat, result: nat, scale: nat)
    requires read <= limit && read <= |rest| && Continues(rest, limit, read, result, scale)
    requires read == limit || read == |rest|
    ensures GetVarint(rest, limit).None?
  {
  }

  lemma {:induction false} VarintStep(rest: Bytes, limit: nat, read: nat, result: nat, scale: nat)
    requires read < limit && read < |rest| && Continues(rest, limit, read, result, scale)
    ensures rest[read] < 128 ==> GetVarint(rest, limit) == Some(Got(result + rest[read] % 128 * scale, read + 1))
    ensures rest[read] >= 128 ==> Continues(rest, limit, read + 1, result + rest[read] % 128 * scale, scale * 128)
  {
    var b := rest[read];
    assert rest[read..][0] == b && rest[read..][1..] == rest[read + 1..];
    GetVarintStep(rest[read..], limit - read);
    hide GetVarint;
    if b < 128 {
      assert scale * b == b % 128 * scale;
    } else {
      assert b % 128 == b - 128;
      VarintMore(rest, limit, read, result, scale, b - 128);
    }
  }

  /** Seven more bits move from what is still to come into what has been read. */
  lemma {:induction false} VarintMore(rest: Bytes, limit: nat, read: nat, result: nat, scale: nat, low: nat)
    requires read < limit && read < |rest| && Continues(rest, limit, read, result, scale)
    requires var next := GetVarint(rest[read + 1..], limit - read - 1);
      GetVarint(rest[read..], limit - read) == if next.None? then None else Some(Got(low + 128 * next.value.value, next.value.size + 1))
    ensures Continues(rest, limit, read + 1, result + low * scale, scale * 128)
  {
    hide GetVarint;
    var next := GetVarint(rest[read + 1..], limit - read - 1);
    if next.Some? {
      Regroup(low, next.value.value, scale);
    }
  }

  /** value is the low 32 bits of the number at the front of rest, which takes size bytes. */
  ghost predicate Reads32(rest: Bytes, value: nat, size: int) {
    match GetVarint(rest, |rest|)
    case None => false
    case Some(g) => g.value % TWO32 == value && g.size == size
  }

  /** A key with this wire type and this tag is at the front of rest, and takes size bytes. */
  ghost predicate KeyAt(rest: Bytes, wire: nat, tag: nat, size: int) {
    exists value: nat :: value > 0 && Reads32(rest, value, size) && value % 8 == wire && value / 8 == tag
  }

  /** How many bytes a value of this wire type takes at the front of rest. */
  ghost function FieldSize(rest: Bytes, wire: nat): (n: Option<nat>)
    ensures n.Some? ==> 1 <= n.value <= |rest|
  {
    if wire == WT_64BIT then if |rest| >= 8 then Some(8) else None
    else if wire == WT_32BIT then if |rest| >= 4 then Some(4) else None
    else if wire == WT_VARINT || wire == WT_STRING then
      match GetVarint(rest, |rest|)
      case None => None
      case Some(g) =>
        if wire == WT_VARINT then Some(g.size)
        else if g.size + g.value % TWO32 <= |rest| then Some(g.size + g.value % TWO32)
        else None
    else None
  }

  /** The low 32 bits of the number at the front of b. */
  ghost function Number32(b: Bytes): (n: nat)
    ensures n < TWO32
  {
    if GetVarint(b, |b|).Some? then GetVarint(b, |b|).value.value % TWO32 else 0
  }

  lemma {:induction false} Number32Is(b: Bytes, value: nat, size: int)
    requires Reads32(b, value, size)
    ensures Number32(b) == value
  {
  }

  /** The bytes of the length-delimited value at the front of b. */
  ghost function Payload(b: Bytes): (r: Bytes)
    ensures |r| < |b| || r == []
  {
    match GetVarint(b, |b|)
    case None => []
    case Some(g) => if g.size + g.value % TWO32 <= |b| then b[g.size..g.size + g.value % TWO32] else []
  }

  lemma {:induction false} PayloadIs(b: Bytes, length: nat, size: nat)
    requires Reads32(b, length, size)
    ensures size <= |b| && (AcceptSlice(b) <==> Accept32(b) && size + length <= |b|)
    ensures size + length <= |b| ==> Payload(b) == b[size..][..length] && |Payload(b)| == length
  {
    if size + length <= |b| {
      assert b[size..][..length] == b[size..size + length];
    }
  }

  /** A length-delimited value is accepted at the front of b. */
  ghost predicate AcceptSlice(b: Bytes) {
    Accept32(b) && FieldSize(b, WT_STRING).Some?
  }

  /** A value of this wire type can be skipped. */
  ghost predicate AcceptSkip(b: Bytes, wire: nat) {
    FieldSize(b, wire).Some? && (wire == WT_STRING ==> Accept32(b))
  }

  /** A value of this wire type at the front of rest takes n bytes. */
  ghost predicate Took(rest: Bytes, wire: nat, n: int) {
    FieldSize(rest, wire) == Some(n)
  }

  /** A byte behind the first 32 bits that is neither zero nor the extension of a sign. */
  predicate Overflows(b: byte, result: nat, bitpos: nat) {
    bitpos >= 32 && b % 128 != 0 && (result / 0x8000_0000 == 0 || b != if bitpos < 63 then 0xff else 0x01)
  }

  /** Whether pb_decode_varint32_eof accepts the rest of a number of which result has been read. */
  ghost predicate Tail32(b: Bytes, result: nat, bitpos: nat, scale: nat) {
    && b != [] && !Overflows(b[0], result, bitpos)
    && if b[0] < 128 then bitpos != 28 || b[0] / 16 % 8 == 0
       else Tail32(b[1..], if bitpos >= 32 then result else OrShifted(result, b[0], scale), bitpos + 7, scale * 128)
  }

  lemma {:induction false} TailStep(b: Bytes, result: nat, bitpos: nat, scale: nat)
    ensures b == [] || Overflows(b[0], result, bitpos) ==> !Tail32(b, result, bitpos, scale)
    ensures b != [] && !Overflows(b[0], result, bitpos) ==>
        Tail32(b, result, bitpos, scale)
          == if b[0] < 128 then bitpos != 28 || b[0] / 16 % 8 == 0
             else Tail32(b[1..], if bitpos >= 32 then result else OrShifted(result, b[0], scale), bitpos + 7, scale * 128)
  {
  }

  /** A 32-bit number is accepted at the front of b. */
  ghost predicate Accept32(b: Bytes) {
    b != [] && (b[0] < 128 || Tail32(b[1..], b[0] % 128, 7, 128))
  }

  /** A number in at most five bytes is accepted if and only if it is below 2^32. */
  lemma {:induction false} ShortAccepted(b: Bytes)
    requires GetVarint(b, 5).Some?
    ensures Accept32(b) <==> GetVarint(b, 5).value.value < 0x1_0000_0000
  {
    hide Tail32;
    GetVarintStep(b, 5);
    if b[0] >= 128 {
      ShortTail(b[1..], b[0] % 128, 1);
    }
  }

  lemma {:induction false} ShortTail(b: Bytes, result: nat, k: nat)
    requires 1 <= k <= 4 && GetVarint(b, 5 - k).Some?
    ensures var value, scale := GetVarint(b, 5 - k).value.value, if k == 1 then 0x80 else if k == 2 then 0x4000 else if k == 3 then 0x20_0000 else 0x1000_0000;
      Tail32(b, result, 7 * k, scale) <==> value < if k == 1 then 0x200_0000 else if k == 2 then 0x4_0000 else if k == 3 then 0x800 else 16
    decreases 4 - k
  {
    hide OrShifted;
    GetVarintStep(b, 5 - k);
    if b[0] >= 128 && k < 4 {
      ShortTail(b[1..], OrShifted(result, b[0], if k == 1 then 0x80 else if k == 2 then 0x4000 else 0x20_0000), k + 1);
    }
  }

  /** What is accepted is a number. */
  lemma {:induction false} AcceptedIsNumber(b: Bytes)
    requires Accept32(b)
    ensures GetVarint(b, |b|).Some?
  {
    hide Tail32;
    if b[0] >= 128 {
      TailIsNumber(b[1..], b[0] % 128, 7, 128);
    }
  }

  lemma {:induction false} TailIsNumber(b: Bytes, result: nat, bitpos: nat, scale: nat)
    requires Tail32(b, result, bitpos, scale)
    ensures GetVarint(b, |b|).Some?
    decreases |b|
  {
    hide OrShifted;
    if b[0] >= 128 {
      TailIsNumber(b[1..], if bitpos >= 32 then result else OrShifted(result, b[0], scale), bitpos + 7, scale * 128);
    }
  }

  lemma {:induction false} EnoughLimit(b: Bytes, limit: nat, more: nat)
    requires GetVarint(b, limit).Some? && (limit <= more || |b| <= more)
    ensures GetVarint(b, more) == GetVarint(b, limit)
  {
    if b[0] >= 128 {
      EnoughLimit(b[1..], limit - 1, more - 1);
    }
  }

  lemma {:induction false} TookVarint(rest: Bytes)
    requires GetVarint64(rest).Some?
    ensures Took(rest, WT_VARINT, GetVarint64(rest).value.size)
  {
    EnoughLimit(rest, 10, |rest|);
  }

  lemma {:induction false} TookVarint32(rest: Bytes, value: nat, size: int)
    requires Reads32(rest, value, size)
    ensures Took(rest, WT_VARINT, size)
  {
  }

  lemma {:induction false} TookSlice(rest: Bytes, length: nat, size: int)
    requires Reads32(rest, length, size) && size + length <= |rest|
    ensures Took(rest, WT_STRING, size + length)
  {
  }

  /** result holds the low 32 bits of the groups read so far. */
  ghost predicate Summed(rest: Bytes, read: nat, result: nat, bitpos: nat, scale: nat)
    requires read <= |rest|
  {
    && (if bitpos < 32 then Scales(bitpos, scale) else scale % TWO32 == 0)
    && exists full: nat :: full % TWO32 == result && Continues(rest, |rest|, read, full, scale)
  }

  lemma {:induction false} SumStart(rest: Bytes)
    requires rest != []
    ensures rest[0] < 128 ==> Reads32(rest, rest[0], 1)
    ensures rest[0] >= 128 ==> Summed(rest, 1, rest[0] % 128, 7, 128)
  {
    NothingRead(rest, |rest|);
    VarintStep(rest, |rest|, 0, 0, 1);
    hide GetVarint;
    if rest[0] >= 128 {
      assert Continues(rest, |rest|, 1, 0 + rest[0] % 128 * 1, 1 * 128);
    }
  }

  lemma {:induction false} SumStep(rest: Bytes, read: nat, result: nat, bitpos: nat, scale: nat)
    requires read < |rest| && Summed(rest, read, result, bitpos, scale)
    ensures var next := if bitpos >= 32 then result else OrShifted(result, rest[read], scale);
      if rest[read] < 128 then Reads32(rest, next, read + 1)
      else Summed(rest, read + 1, next, bitpos + 7, scale * 128)
  {
    hide Continues;
    var full: nat :| full % TWO32 == result && Continues(rest, |rest|, read, full, scale);
    var low := rest[read] % 128;
    VarintStep(rest, |rest|, read, full, scale);
    SumLow(full, low, bitpos, scale);
    hide OrShifted;
  }

  /** Adding a group to the low 32 bits. */
  lemma {:induction false} SumLow(full: nat, low: nat, bitpos: nat, scale: nat)
    requires if bitpos < 32 then Scales(bitpos, scale) else scale % TWO32 == 0
    ensures low * scale >= 0
    ensures (full + low * scale) % TWO32 == if bitpos >= 32 then full % TWO32 else (full % TWO32 + low * scale) % TWO32
    ensures if bitpos + 7 < 32 then Scales(bitpos + 7, scale * 128) else scale * 128 % TWO32 == 0
  {
    if bitpos >= 32 {
      var k := scale / TWO32;
      assert low * scale == (low * k) * TWO32;
      Multiple(full, low * k);
    }
  }

  lemma {:induction false} Multiple(a: nat, k: nat)
    ensures (a + k * TWO32) % TWO32 == a % TWO32
  {
  }

  lemma {:induction false} GetVarintStep(b: Bytes, limit: nat)
    requires limit > 0 && b != []
    ensures b[0] < 128 ==> GetVarint(b, limit) == Some(Got(b[0], 1))
    ensures b[0] >= 128 ==>
      var next := GetVarint(b[1..], limit - 1);
      GetVarint(b, limit) == if next.None? then None else Some(Got(b[0] - 128 + 128 * next.value.value, next.value.size + 1))
  {
  }

  lemma {:induction false} Regroup(a: nat, b: nat, scale: nat)
    ensures scale * (a + 128 * b) == a * scale + scale * 128 * b
  {
  }
}
