/** The encoder (pb_encode.c): a sizing pass and a writing pass over the same descriptor. */
module PbEncoding {
  import opened Basics
  import opened Varints
  import opened PbFormat
  import opened PbIteration

  /** pb_ostream_t. Without a callback it only counts. */
  class OStream {
    const sizing: bool
    const maxSize: nat
    var out: Bytes
    var bytesWritten: nat

    ghost predicate Valid()
      reads this
    {
      if sizing then out == [] else |out| == bytesWritten <= maxSize
    }

    constructor Sizing()
      ensures Valid() && sizing && bytesWritten == 0 && out == []
    {
      sizing, maxSize, out, bytesWritten := true, 0, [], 0;
    }

    constructor Buffer(size: nat)
      ensures Valid() && !sizing && maxSize == size && bytesWritten == 0 && out == []
    {
      sizing, maxSize, out, bytesWritten := false, size, [], 0;
    }

    /** Of b, written after `before`: it fails exactly when b does not fit. */
    ghost predicate Wrote(before: Bytes, count: nat, b: Bytes, ok: bool)
      reads this
    {
      && Valid()
      && (ok <==> sizing || count + |b| <= maxSize)
      && (ok ==> bytesWritten == count + |b| && out == before + if sizing then [] else b)
    }

    /** pb_write. */
    method Write(b: Bytes) returns (ok: bool)
      requires Valid()
      modifies this
      ensures Wrote(old(out), old(bytesWritten), b, ok)
    {
      if |b| > 0 && !sizing {
        if bytesWritten + |b| > maxSize {
          return false;
        }
        out := out + b;
      }
      bytesWritten := bytesWritten + |b|;
      ok := true;
    }

    /** pb_write without data: just sizing. */
    method Count(size: nat)
      requires Valid() && sizing
      modifies this`bytesWritten
      ensures Valid() && bytesWritten == old(bytesWritten) + size
    {
      bytesWritten := bytesWritten + size;
    }

    /** pb_encode_varint. */
    method EncodeVarint(value: nat) returns (ok: bool)
      requires Valid()
      modifies this
      ensures Wrote(old(out), old(bytesWritten), PutVarint(value), ok)
    {
      if value <= 0x7f {
        ok := Write([value]);
        return;
      }
      var buffer := VarintBytes(value);
      ok := Write(buffer);
    }

    /** pb_encode_tag. */
    method EncodeTag(wire: nat, tag: nat) returns (ok: bool)
      requires Valid()
      modifies this
      ensures Wrote(old(out), old(bytesWritten), EncTag(wire, tag), ok)
    {
      ok := EncodeVarint(tag * 8 + wire);
    }

    /** pb_encode_string. */
    method EncodeString(b: Bytes) returns (ok: bool)
      requires Valid()
      modifies this
      ensures Wrote(old(out), old(bytesWritten), PutSlice(b), ok)
    {
      ok := EncodeVarint(|b|);
      if ok {
        ok := Write(b);
      }
    }
  }

  /** The loop of pb_encode_varint: groups of seven bits, each with its high bit set, and then the last without. */
  method VarintBytes(value: nat) returns (buffer: Bytes)
    requires value > 0
    ensures buffer == PutVarint(value)
  {
    var left := value;
    buffer := [];
    while left != 0
      invariant left != 0 ==> PutVarint(value) == buffer + PutVarint(left)
      invariant left == 0 ==> buffer != [] && buffer[|buffer| - 1] >= 128
      invariant left == 0 ==> PutVarint(value) == buffer[..|buffer| - 1] + [buffer[|buffer| - 1] - 128]
      decreases left
    {
      ghost var before := buffer;
      buffer := buffer + [left % 128 + 128];
      assert buffer[..|buffer| - 1] == before;
      left := left / 128;
    }
    buffer := buffer[..|buffer| - 1] + [buffer[|buffer| - 1] - 128];
  }

  /** The encoders of values that are not submessages. */
  method EncodeScalar(stream: OStream, t: LType, v: Value) returns (ok: bool)
    requires stream.Valid() && WfValue(t, v) && !t.SubT?
    modifies stream
    ensures stream.Wrote(old(stream.out), old(stream.bytesWritten), EncScalar(t, v), ok)
  {
    match t
    case BoolT => ok := stream.EncodeVarint(if v.n != 0 then 1 else 0);
    case VarintT(_) => ok := stream.EncodeVarint(Unsigned(v.n));
    case UvarintT(_) => ok := stream.EncodeVarint(v.n);
    case SvarintT(_) => ok := stream.EncodeVarint(ZigZag(v.n));
    case Fixed32T => ok := stream.Write(LittleEndian(v.n, 4));
    case Fixed64T => ok := stream.Write(LittleEndian(v.n, 8));
    case BytesT(_) => ok := stream.EncodeString(v.bytes);
    case StringT(_) => ok := stream.EncodeString(v.bytes);
    case FixedBytesT(_) => ok := stream.EncodeString(v.bytes);
  }

  method EncodeValue(stream: OStream, t: LType, v: Value) returns (ok: bool)
    requires stream.Valid() && WfValue(t, v)
    modifies stream
    ensures stream.Wrote(old(stream.out), old(stream.bytesWritten), EncValue(t, v), ok)
    decreases v, 0
  {
    hide EncScalar;
    if t.SubT? {
      ok := EncodeSubmessage(stream, t.fields, v.msg);
    } else {
      ok := EncodeScalar(stream, t, v);
    }
  }

  /** pb_encode_submessage: the size from a pass that does not write, then the same fields again. */
  method EncodeSubmessage(stream: OStream, fs: seq<Field>, m: Message) returns (ok: bool)
    requires stream.Valid() && WfMessage(fs, m)
    modifies stream
    ensures stream.Wrote(old(stream.out), old(stream.bytesWritten), PutSlice(EncFields(fs, m, |fs|)), ok)
    decreases m, 1
  {
    hide EncFields, PutVarint, WfMessage;
    var sizestream := new OStream.Sizing();
    ok := Encode(sizestream, fs, m);
    var size := sizestream.bytesWritten;
    ok := stream.EncodeVarint(size);
    if !ok {
      return;
    }
    if stream.sizing {
      stream.Count(size);
      return;
    }
    if stream.bytesWritten + size > stream.maxSize {
      return false;
    }
    var substream := new OStream.Buffer(size);
    ok := Encode(substream, fs, m);
    stream.out := stream.out + substream.out;
    stream.bytesWritten := stream.bytesWritten + substream.bytesWritten;
    if substream.bytesWritten != size {
      ok := false;
    }
  }

  /** The sizing loop or the writing loop of a packed array. */
  method EncodeItems(stream: OStream, t: LType, vs: seq<Value>) returns (ok: bool)
    requires stream.Valid() && WfAll(t, vs)
    modifies stream
    ensures stream.Wrote(old(stream.out), old(stream.bytesWritten), EncAll(t, vs), ok)
    decreases vs, 2
  {
    hide EncValue, WfValue;
    ok := true;
    ghost var out, count := stream.out, stream.bytesWritten;
    assert EncAll(t, []) == [];
    for i := 0 to |vs|
      invariant ok && stream.Wrote(out, count, EncAll(t, vs[..i]), true)
    {
      WfAllAt(t, vs, i);
      assert vs[..i + 1][..i] == vs[..i];
      ok := EncodeValue(stream, t, vs[i]);
      if !ok {
        EncAllGrows(t, vs, i + 1);
        return;
      }
    }
    assert vs[..|vs|] == vs;
  }

  lemma {:induction false} WfAllAt(t: LType, vs: seq<Value>, i: nat)
    requires WfAll(t, vs) && i < |vs|
    ensures WfValue(t, vs[i])
  {
    hide WfValue;
    if i < |vs| - 1 {
      WfAllAt(t, vs[..|vs| - 1], i);
    }
  }

  lemma {:induction false} EncAllGrows(t: LType, vs: seq<Value>, n: nat)
    requires n <= |vs|
    ensures |EncAll(t, vs[..n])| <= |EncAll(t, vs)|
    decreases |vs|
  {
    hide EncValue;
    if n < |vs| {
      EncAllGrows(t, vs[..|vs| - 1], n);
      assert vs[..|vs| - 1][..n] == vs[..n];
    } else {
      assert vs[..n] == vs;
    }
  }

  /** The unpacked branch of encode_array: each value behind its own tag. */
  method EncodeTaggedItems(stream: OStream, f: Field, vs: seq<Value>) returns (ok: bool)
    requires stream.Valid() && WfAll(f.ltype, vs)
    modifies stream
    ensures stream.Wrote(old(stream.out), old(stream.bytesWritten), EncTagged(f, vs), ok)
    decreases vs, 2
  {
    hide EncValue, WfValue, EncTag;
    ok := true;
    ghost var out, count := stream.out, stream.bytesWritten;
    assert EncTagged(f, []) == [];
    for i := 0 to |vs|
      invariant ok && stream.Wrote(out, count, EncTagged(f, vs[..i]), true)
    {
      WfAllAt(f.ltype, vs, i);
      assert vs[..i + 1][..i] == vs[..i];
      EncTaggedGrows(f, vs, i + 1);
      ok := stream.EncodeTag(WireType(f.ltype), f.tag);
      if !ok {
        return;
      }
      ok := EncodeValue(stream, f.ltype, vs[i]);
      if !ok {
        return;
      }
    }
    assert vs[..|vs|] == vs;
  }

  lemma {:induction false} EncTaggedGrows(f: Field, vs: seq<Value>, n: nat)
    requires n <= |vs|
    ensures |EncTagged(f, vs[..n])| <= |EncTagged(f, vs)|
    decreases |vs|
  {
    hide EncValue, EncTag;
    if n < |vs| {
      EncTaggedGrows(f, vs[..|vs| - 1], n);
      assert vs[..|vs| - 1][..n] == vs[..n];
    } else {
      assert vs[..n] == vs;
    }
  }

  /** The size of a packed array: known for fixed widths, by a sizing pass for the rest. */
  method PackedSize(t: LType, vs: seq<Value>) returns (size: nat)
    requires WfAll(t, vs) && Packable(t)
    ensures size == |EncAll(t, vs)|
    decreases vs, 3
  {
    hide EncValue, WfValue;
    if t.Fixed32T? {
      FixedSize(t, vs, 4);
      size := 4 * |vs|;
    } else if t.Fixed64T? {
      FixedSize(t, vs, 8);
      size := 8 * |vs|;
    } else {
      var sizestream := new OStream.Sizing();
      var ok := EncodeItems(sizestream, t, vs);
      size := sizestream.bytesWritten;
    }
  }

  lemma {:induction false} FixedSize(t: LType, vs: seq<Value>, width: nat)
    requires WfAll(t, vs) && ((t.Fixed32T? && width == 4) || (t.Fixed64T? && width == 8))
    ensures |EncAll(t, vs)| == width * |vs|
  {
    if vs != [] {
      FixedSize(t, vs[..|vs| - 1], width);
    }
  }

  /** encode_array. */
  method EncodeArray(stream: OStream, f: Field, vs: seq<Value>) returns (ok: bool)
    requires stream.Valid() && WfSlot(f, Many(vs))
    modifies stream
    ensures stream.Wrote(old(stream.out), old(stream.bytesWritten), EncSlot(f, Many(vs)), ok)
    decreases vs, 4
  {
    hide EncAll, EncTagged, EncTag, WfAll, PutVarint;
    if |vs| == 0 {
      return true;
    }
    if |vs| > f.rule.max {
      return false;
    }
    if Packable(f.ltype) {
      ok := stream.EncodeTag(WT_STRING, f.tag);
      if !ok {
        return;
      }
      var size := PackedSize(f.ltype, vs);
      ok := stream.EncodeVarint(size);
      if !ok {
        return;
      }
      if stream.sizing {
        stream.Count(size);
        return;
      }
      ok := EncodeItems(stream, f.ltype, vs);
    } else {
      ok := EncodeTaggedItems(stream, f, vs);
    }
  }

  /** encode_basic_field. */
  method EncodeField(stream: OStream, f: Field, s: Slot) returns (ok: bool)
    requires stream.Valid() && WfSlot(f, s)
    modifies stream
    ensures stream.Wrote(old(stream.out), old(stream.bytesWritten), EncSlot(f, s), ok)
    decreases s, 0
  {
    hide EncTag, EncValue, WfValue, IsDefault;
    if s.Many? {
      ok := EncodeArray(stream, f, s.vs);
    } else {
      var present := if f.rule.Singular? then !IsDefault(f.ltype, s.v) else s.One?;
      ok := true;
      if present {
        ok := stream.EncodeTag(WireType(f.ltype), f.tag);
        if ok {
          ok := EncodeValue(stream, f.ltype, s.v);
        }
      }
    }
  }

  /** pb_encode: the fields in the order of the descriptor. It succeeds exactly when the whole
      message fits, and a sizing stream then counts exactly the bytes a writing stream gets. */
  method Encode(stream: OStream, fs: seq<Field>, m: Message) returns (ok: bool)
    requires stream.Valid() && WfMessage(fs, m)
    modifies stream
    ensures stream.Wrote(old(stream.out), old(stream.bytesWritten), EncFields(fs, m, |fs|), ok)
    decreases m, 0
  {
    hide EncSlot, WfSlot, EncFields, WfSlots, RequiredBefore;
    NoFields(fs, m);
    var iter := new FieldIter(fs);
    ok := true;
    if fs == [] {
      return;
    }
    ghost var out, count := stream.out, stream.bytesWritten;
    while true
      invariant fresh(iter) && iter.Valid() && iter.fields == fs && ok
      invariant stream.Wrote(out, count, EncFields(fs, m, iter.pos), true)
      decreases |fs| - iter.pos
    {
      ghost var i := iter.pos;
      WfSlotAt(fs, m, |fs|, i);
      EncFieldsGrow(fs, m, i + 1, |fs|);
      OneMoreField(fs, m, i);
      ok := EncodeField(stream, fs[iter.pos], m.slots[iter.pos]);
      if !ok {
        return;
      }
      var more := iter.Next();
      if !more {
        break;
      }
    }
  }

  lemma {:induction false} NoFields(fs: seq<Field>, m: Message)
    ensures EncFields(fs, m, 0) == []
  {
  }

  lemma {:induction false} OneMoreField(fs: seq<Field>, m: Message, i: nat)
    requires i < |fs| == |m.slots|
    ensures EncFields(fs, m, i + 1) == EncFields(fs, m, i) + EncSlot(fs[i], m.slots[i])
  {
    hide EncSlot;
  }

  lemma {:induction false} EncFieldsGrow(fs: seq<Field>, m: Message, i: nat, n: nat)
    requires i <= n <= |fs|
    ensures |EncFields(fs, m, i)| <= |EncFields(fs, m, n)|
    decreases n
  {
    hide EncSlot;
    if i < n {
      EncFieldsGrow(fs, m, i, n - 1);
    }
  }

  /** pb_get_encoded_size, and then a buffer of that size: encoding succeeds, and fills it. */
  method EncodeMessage(fs: seq<Field>, m: Message) returns (data: Bytes)
    requires WfMessage(fs, m)
    ensures data == EncFields(fs, m, |fs|)
  {
    hide EncFields, WfMessage;
    var sizestream := new OStream.Sizing();
    var counted := Encode(sizestream, fs, m);
    var stream := new OStream.Buffer(sizestream.bytesWritten);
    var ok := Encode(stream, fs, m);
    data := stream.out;
  }
}
