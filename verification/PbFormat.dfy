/**
 * Messages as nanopb sees them (pb.h, pb_encode.c): field descriptors, static values, and the bytes
 * they become.
 */
module PbFormat {
  import opened Basics
  import opened Varints

  /** PB_LTYPE with the sizes of its storage: bits of an integer, bytes of a buffer. */
  datatype LType =
    | BoolT | VarintT(bits: nat) | UvarintT(bits: nat) | SvarintT(bits: nat) | Fixed32T | Fixed64T
    | BytesT(max: nat) | StringT(dataSize: nat) | FixedBytesT(size: nat) | SubT(fields: seq<Field>)

  /** PB_HTYPE; Singular is an optional field without a has_ flag (proto3). */
  datatype Rule = Required | Optional | Singular | Repeated(max: nat)

  datatype Field = Field(tag: nat, rule: Rule, ltype: LType)

  datatype Value = Num(n: int) | Data(bytes: Bytes) | Sub(msg: Message)

  /** What a field of the struct holds: nothing while its has_ flag is off, a value, or an array. */
  datatype Slot = Off | One(v: Value) | Many(vs: seq<Value>)

  datatype Message = Message(slots: seq<Slot>)

  predicate Packable(t: LType) {
    t.BoolT? || t.VarintT? || t.UvarintT? || t.SvarintT? || t.Fixed32T? || t.Fixed64T?
  }

  const WT_VARINT: nat := 0
  const WT_64BIT: nat := 1
  const WT_STRING: nat := 2
  const WT_32BIT: nat := 5

  /** pb_encode_tag_for_field. */
  function WireType(t: LType): nat {
    match t
    case BoolT => WT_VARINT
    case VarintT(_) => WT_VARINT
    case UvarintT(_) => WT_VARINT
    case SvarintT(_) => WT_VARINT
    case Fixed32T => WT_32BIT
    case Fixed64T => WT_64BIT
    case BytesT(_) => WT_STRING
    case StringT(_) => WT_STRING
    case FixedBytesT(_) => WT_STRING
    case SubT(_) => WT_STRING
  }

  function EncTag(wire: nat, tag: nat): Bytes {
    PutVarint(tag * 8 + wire)
  }

  /** A signed number in 64-bit two's complement. */
  function Unsigned(n: int): nat {
    if n >= 0 then n else if n >= -(TWO64 as int) then n + TWO64 else 0
  }

  function ZigZag(n: int): nat {
    if n >= 0 then 2 * n else -2 * n - 1
  }

  /** The encoding of a value that is not a submessage. */
  function EncScalar(t: LType, v: Value): Bytes {
    if v.Num? then
      match t
      case BoolT => PutVarint(if v.n == 0 then 0 else 1)
      case VarintT(_) => PutVarint(Unsigned(v.n))
      case UvarintT(_) => PutVarint(Unsigned(v.n))
      case SvarintT(_) => PutVarint(ZigZag(v.n))
      case Fixed32T => LittleEndian(Unsigned(v.n), 4)
      case Fixed64T => LittleEndian(Unsigned(v.n), 8)
      case _ => []
    else if v.Data? then PutSlice(v.bytes)
    else []
  }

  function EncValue(t: LType, v: Value): Bytes
    decreases v, 0
  {
    if v.Sub? && t.SubT? then PutSlice(EncFields(t.fields, v.msg, |t.fields|)) else EncScalar(t, v)
  }

  /** The values of an array one after another. */
  function EncAll(t: LType, vs: seq<Value>): Bytes
    decreases vs, 1
  {
    if vs == [] then [] else EncAll(t, vs[..|vs| - 1]) + EncValue(t, vs[|vs| - 1])
  }

  /** The values of an array, each behind its tag. */
  function EncTagged(f: Field, vs: seq<Value>): Bytes
    decreases vs, 1
  {
    if vs == [] then []
    else EncTagged(f, vs[..|vs| - 1]) + (EncTag(WireType(f.ltype), f.tag) + EncValue(f.ltype, vs[|vs| - 1]))
  }

  function EncSlot(f: Field, s: Slot): Bytes
    decreases s, 0
  {
    match s
    case Off => []
    case One(v) =>
      if f.rule.Singular? && IsDefault(f.ltype, v) then []
      else EncTag(WireType(f.ltype), f.tag) + EncValue(f.ltype, v)
    case Many(vs) =>
      if vs == [] then []
      else if Packable(f.ltype) then EncTag(WT_STRING, f.tag) + PutSlice(EncAll(f.ltype, vs))
      else EncTagged(f, vs)
  }

  /** The first n fields of a message. */
  function EncFields(fs: seq<Field>, m: Message, n: nat): Bytes
    requires n <= |fs|
    decreases m, n
  {
    if n == 0 then []
    else EncFields(fs, m, n - 1) + if n - 1 < |m.slots| then EncSlot(fs[n - 1], m.slots[n - 1]) else []
  }

  /** pb_check_proto3_default_value for a value without a has_ flag. */
  predicate IsDefault(t: LType, v: Value)
    decreases v, 1
  {
    match v
    case Num(n) => n == 0
    case Data(b) => if t.FixedBytesT? then t.size == 0 else b == []
    case Sub(m) => t.SubT? && AllDefault(t.fields, m, |t.fields|)
  }

  /** The same for the first n fields of a submessage. */
  predicate AllDefault(fs: seq<Field>, m: Message, n: nat)
    requires n <= |fs|
    decreases m, n
  {
    n == 0 || (AllDefault(fs, m, n - 1) && n - 1 < |m.slots| && SlotDefault(fs[n - 1], m.slots[n - 1]))
  }

  predicate SlotDefault(f: Field, s: Slot)
    decreases s, 0
  {
    match s
    case Off => true
    case One(v) => f.rule.Singular? && IsDefault(f.ltype, v)
    case Many(vs) => vs == []
  }

  /** pb_message_set_to_defaults. */
  function Default(t: LType): Value
    decreases t, 1
  {
    match t
    case BytesT(_) => Data([])
    case StringT(_) => Data([])
    case FixedBytesT(n) => Data(seq(n, i => 0))
    case SubT(fs) => Sub(Message(Defaults(fs, |fs|)))
    case _ => Num(0)
  }

  function DefaultSlot(f: Field): Slot
    decreases f, 0
  {
    match f.rule
    case Required => One(Default(f.ltype))
    case Singular => One(Default(f.ltype))
    case Optional => Off
    case Repeated(_) => Many([])
  }

  function Defaults(fs: seq<Field>, n: nat): (s: seq<Slot>)
    requires n <= |fs|
    ensures |s| == n
    decreases fs, n
  {
    if n == 0 then [] else Defaults(fs, n - 1) + [DefaultSlot(fs[n - 1])]
  }

  predicate Width(bits: nat) {
    bits == 8 || bits == 16 || bits == 32 || bits == 64
  }

  function Pow2(bits: nat): nat {
    if bits == 8 then 0x100 else if bits == 16 then 0x1_0000 else if bits == 32 then TWO32 else TWO64
  }

  /** A value its field can hold. A string ends before its storage does and holds no NUL. */
  predicate WfValue(t: LType, v: Value)
    decreases v, 0
  {
    match t
    case BoolT => v.Num? && (v.n == 0 || v.n == 1)
    case VarintT(bits) => Width(bits) && v.Num? && -(Pow2(bits) / 2) <= v.n < Pow2(bits) / 2
    case UvarintT(bits) => Width(bits) && v.Num? && 0 <= v.n < Pow2(bits)
    case SvarintT(bits) => Width(bits) && v.Num? && -(Pow2(bits) / 2) <= v.n < Pow2(bits) / 2
    case Fixed32T => v.Num? && 0 <= v.n < TWO32
    case Fixed64T => v.Num? && 0 <= v.n < TWO64
    case BytesT(max) => v.Data? && |v.bytes| <= max
    case StringT(size) => v.Data? && |v.bytes| < size && forall i | 0 <= i < |v.bytes| :: v.bytes[i] != 0
    case FixedBytesT(size) => v.Data? && |v.bytes| == size
    case SubT(fs) => v.Sub? && |v.msg.slots| == |fs| && WfSlots(fs, v.msg, |fs|)
  }

  predicate WfSlots(fs: seq<Field>, m: Message, n: nat)
    requires n <= |fs| && n <= |m.slots|
    decreases m, n
  {
    n == 0 || (WfSlots(fs, m, n - 1) && WfSlot(fs[n - 1], m.slots[n - 1]))
  }

  predicate WfSlot(f: Field, s: Slot)
    decreases s, 0
  {
    match f.rule
    case Required => s.One? && WfValue(f.ltype, s.v)
    case Singular => s.One? && WfValue(f.ltype, s.v)
    case Optional => s.Off? || (s.One? && WfValue(f.ltype, s.v))
    case Repeated(max) => s.Many? && |s.vs| <= max && WfAll(f.ltype, s.vs)
  }

  predicate WfAll(t: LType, vs: seq<Value>)
    decreases vs, 1
  {
    vs == [] || (WfAll(t, vs[..|vs| - 1]) && WfValue(t, vs[|vs| - 1]))
  }

  predicate WfMessage(fs: seq<Field>, m: Message) {
    |m.slots| == |fs| && WfSlots(fs, m, |fs|)
  }

  /** At every level tags are distinct, not zero, and small enough for a 32-bit key; integers have
      one of the four widths, and a string has room for its NUL. */
  predicate WfType(t: LType)
    decreases t, 1
  {
    match t
    case VarintT(bits) => Width(bits)
    case UvarintT(bits) => Width(bits)
    case SvarintT(bits) => Width(bits)
    case StringT(size) => size >= 1
    case SubT(fs) => WfFields(fs, |fs|) && DistinctTags(fs)
    case _ => true
  }

  predicate WfFields(fs: seq<Field>, n: nat)
    requires n <= |fs|
    decreases fs, n
  {
    n == 0 || (WfFields(fs, n - 1) && WfField(fs[n - 1]))
  }

  predicate WfField(f: Field)
    decreases f, 0
  {
    0 < f.tag < 0x2000_0000 && WfType(f.ltype)
  }

  predicate DistinctTags(fs: seq<Field>) {
    forall i, j | 0 <= i < j < |fs| :: fs[i].tag != fs[j].tag
  }

  predicate WfDescriptor(fs: seq<Field>) {
    WfFields(fs, |fs|) && DistinctTags(fs)
  }

  lemma {:induction false} WfFieldAt(fs: seq<Field>, n: nat, i: nat)
    requires i < n <= |fs| && WfFields(fs, n)
    ensures WfField(fs[i])
  {
    if i < n - 1 {
      WfFieldAt(fs, n - 1, i);
    }
  }

  lemma {:induction false} WfSlotAt(fs: seq<Field>, m: Message, n: nat, i: nat)
    requires i < n <= |fs| && n <= |m.slots| && WfSlots(fs, m, n)
    ensures WfSlot(fs[i], m.slots[i])
  {
    if i < n - 1 {
      WfSlotAt(fs, m, n - 1, i);
    }
  }

  lemma {:induction false} DefaultsAt(fs: seq<Field>, n: nat, i: nat)
    requires i < n <= |fs|
    ensures Defaults(fs, n)[i] == DefaultSlot(fs[i])
  {
    if i < n - 1 {
      DefaultsAt(fs, n - 1, i);
    }
  }

  /** A value that the proto3 check calls default is the default, so leaving it out loses nothing. */
  lemma {:induction false} IsDefaultIsDefault(t: LType, v: Value)
    requires WfValue(t, v) && IsDefault(t, v)
    ensures v == Default(t)
    decreases v, 1
  {
    if v.Sub? {
      AllDefaultIsDefault(t.fields, v.msg, |t.fields|);
      assert v.msg.slots[..|t.fields|] == v.msg.slots;
    }
  }

  lemma {:induction false} AllDefaultIsDefault(fs: seq<Field>, m: Message, n: nat)
    requires n <= |fs| && n <= |m.slots| && WfSlots(fs, m, n) && AllDefault(fs, m, n)
    ensures m.slots[..n] == Defaults(fs, n)
    decreases m, n
  {
    if n > 0 {
      AllDefaultIsDefault(fs, m, n - 1);
      var f, s := fs[n - 1], m.slots[n - 1];
      if s.One? {
        IsDefaultIsDefault(f.ltype, s.v);
      }
      assert m.slots[..n] == m.slots[..n - 1] + [s];
    }
  }

  /** Types whose default value the check leaves out: a fixed number of bytes is always written, and so is a
      submessage with a required field or one of those. */
  predicate Omittable(t: LType)
    decreases t, 1
  {
    match t
    case FixedBytesT(n) => n == 0
    case SubT(fs) => AllOmittable(fs, |fs|)
    case _ => true
  }

  predicate AllOmittable(fs: seq<Field>, n: nat)
    requires n <= |fs|
    decreases fs, n
  {
    n == 0 || (AllOmittable(fs, n - 1) && OmittableField(fs[n - 1]))
  }

  predicate OmittableField(f: Field)
    decreases f, 0
  {
    !f.rule.Required? && (f.rule.Singular? ==> Omittable(f.ltype))
  }

  /** Exactly the default values of such types are left out. */
  lemma {:induction false} LeftOutIff(t: LType, v: Value)
    requires WfValue(t, v)
    ensures IsDefault(t, v) <==> v == Default(t) && Omittable(t)
    decreases v, 1
  {
    if v.Sub? {
      AllLeftOutIff(t.fields, v.msg, |t.fields|);
      assert v.msg.slots[..|t.fields|] == v.msg.slots;
    }
  }

  lemma {:induction false} AllLeftOutIff(fs: seq<Field>, m: Message, n: nat)
    requires n <= |fs| && n <= |m.slots| && WfSlots(fs, m, n)
    ensures AllDefault(fs, m, n) <==> m.slots[..n] == Defaults(fs, n) && AllOmittable(fs, n)
    decreases m, n
  {
    if n > 0 {
      AllLeftOutIff(fs, m, n - 1);
      var f, s := fs[n - 1], m.slots[n - 1];
      if s.One? {
        LeftOutIff(f.ltype, s.v);
      }
      assert m.slots[..n] == m.slots[..n - 1] + [s];
      assert m.slots[..n] == Defaults(fs, n) ==> s == DefaultSlot(f) && m.slots[..n - 1] == Defaults(fs, n - 1) by {
        if m.slots[..n] == Defaults(fs, n) {
          assert m.slots[..n][n - 1] == DefaultSlot(f) && m.slots[..n][..n - 1] == m.slots[..n - 1];
          assert Defaults(fs, n)[..n - 1] == Defaults(fs, n - 1);
        }
      }
    }
  }

  /** Defaults fit their fields. */
  lemma {:induction false} DefaultWf(t: LType)
    requires WfType(t)
    ensures WfValue(t, Default(t))
    decreases t, 1
  {
    if t.SubT? {
      var fs := t.fields;
      DefaultsWf(fs, Message(Defaults(fs, |fs|)), |fs|);
    }
  }

  lemma {:induction false} DefaultsWf(fs: seq<Field>, m: Message, n: nat)
    requires n <= |fs| && n <= |m.slots| && WfFields(fs, n)
    requires m.slots[..n] == Defaults(fs, n)
    ensures WfSlots(fs, m, n)
    decreases fs, n
  {
    if n > 0 {
      assert m.slots[..n - 1] == m.slots[..n][..n - 1] == Defaults(fs, n - 1);
      DefaultsWf(fs, m, n - 1);
      var f := fs[n - 1];
      assert m.slots[n - 1] == m.slots[..n][n - 1];
      DefaultFieldWf(f);
    }
  }

  lemma {:induction false} DefaultFieldWf(f: Field)
    requires WfField(f)
    ensures WfSlot(f, DefaultSlot(f))
    decreases f, 0
  {
    DefaultWf(f.ltype);
  }

  /** The struct pb_message_set_to_defaults leaves. */
  function Fresh(fs: seq<Field>): Message {
    Message(Defaults(fs, |fs|))
  }

  lemma {:induction false} FreshWf(fs: seq<Field>)
    requires WfDescriptor(fs)
    ensures WfMessage(fs, Fresh(fs))
  {
    DefaultsWf(fs, Fresh(fs), |fs|);
  }

  /** Storing a value in one field. */
  lemma {:induction false} StoreWf(fs: seq<Field>, m: Message, n: nat, i: nat, s: Slot)
    requires n <= |fs| && n <= |m.slots| && i < |m.slots| && WfSlots(fs, m, n)
    requires i < n ==> WfSlot(fs[i], s)
    ensures WfSlots(fs, Message(m.slots[i := s]), n)
    decreases n
  {
    if n > 0 {
      StoreWf(fs, m, n - 1, i, s);
    }
  }
}
