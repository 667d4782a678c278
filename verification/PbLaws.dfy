/** What holds of every message a receiver accepts, whoever wrote it and in whichever order. */
module PbLaws {
  import opened Basics
  import opened Varints
  import opened PbFormat
  import opened PbIteration
  import opened PbReading
  import opened PbScalars
  import opened PbRecords
  import opened PbMeaning

  // ---- What stands at the front of some bytes does not depend on what follows ----

  lemma {:induction false} VarintPrefix(a: Bytes, x: Bytes, limit: nat)
    requires GetVarint(a, |a|).Some?
    ensures GetVarint(a + x, limit) == GetVarint(a, limit)
  {
    if limit > 0 && a[0] >= 128 {
      assert (a + x)[1..] == a[1..] + x;
      VarintPrefix(a[1..], x, limit - 1);
    }
  }

  lemma {:induction false} NumberPrefix(a: Bytes, x: Bytes)
    requires GetVarint(a, |a|).Some?
    ensures GetVarint(a + x, |a + x|) == GetVarint(a, |a|)
    ensures Number32(a + x) == Number32(a) && Body(a + x) == Body(a) + x
  {
    hide GetVarint;
    VarintPrefix(a, x, |a + x|);
    EnoughLimit(a, |a|, |a + x|);
    var size := GetVarint(a, |a|).value.size;
    assert (a + x)[size..] == a[size..] + x;
  }

  lemma {:induction false} SizePrefix(a: Bytes, x: Bytes, wire: nat)
    requires FieldSize(a, wire).Some?
    ensures FieldSize(a + x, wire) == FieldSize(a, wire)
    ensures wire == WT_STRING ==> Payload(a + x) == Payload(a)
  {
    hide GetVarint;
    if GetVarint(a, |a|).Some? {
      NumberPrefix(a, x);
      if wire == WT_STRING {
        var g := GetVarint(a, |a|).value;
        assert (a + x)[g.size..g.size + g.value % TWO32] == a[g.size..g.size + g.value % TWO32];
      }
    }
  }

  lemma {:induction false} FrontPrefix(fs: seq<Field>, a: Bytes, x: Bytes)
    requires FrontRecord(fs, a).Some?
    ensures FrontRecord(fs, a + x) == FrontRecord(fs, a) && GetVarint(a, |a|).Some?
    ensures FieldSize(Body(a), ValueWire(fs, Number32(a) / 8, Number32(a) % 8)).Some?
  {
    hide GetVarint, FieldSize, ValueWire;
    NumberPrefix(a, x);
    SizePrefix(Body(a), x, ValueWire(fs, Number32(a) / 8, Number32(a) % 8));
  }

  lemma {:induction false} ScalarPrefix(t: LType, a: Bytes, x: Bytes)
    requires FieldSize(a, WireType(t)).Some?
    ensures ScalarOf(t, a + x) == ScalarOf(t, a)
  {
    hide GetVarint, FromLittleEndian, Payload, CheckNumber;
    SizePrefix(a, x, WireType(t));
    if WireType(t) == WT_VARINT {
      NumberPrefix(a, x);
      VarintPrefix(a, x, 10);
    } else if t.Fixed32T? {
      assert (a + x)[..4] == a[..4];
    } else if t.Fixed64T? {
      assert (a + x)[..8] == a[..8];
    }
  }

  lemma {:induction false} ValuePrefix(t: LType, a: Bytes, x: Bytes, was: Value)
    requires FieldSize(a, WireType(t)).Some?
    ensures ValueOf(t, a + x, was) == ValueOf(t, a, was)
  {
    hide FieldSize, ScalarOf, Payload, Walked;
    if t.SubT? {
      SizePrefix(a, x, WT_STRING);
    } else {
      ScalarPrefix(t, a, x);
    }
  }

  lemma {:induction false} SlotPrefix(f: Field, wire: nat, a: Bytes, x: Bytes, slot: Slot)
    requires FieldSize(a, FieldWire(f, wire)).Some?
    ensures SlotAfter(f, wire, a + x, slot) == SlotAfter(f, wire, a, slot)
  {
    hide FieldSize, ValueOf, Payload, PackedItems;
    if f.rule.Repeated? && wire == WT_STRING && Packable(f.ltype) {
      SizePrefix(a, x, WT_STRING);
    } else if f.rule.Repeated? {
      ValuePrefix(f.ltype, a, x, Default(f.ltype));
    } else {
      ValuePrefix(f.ltype, a, x, if slot.One? then slot.v else Default(f.ltype));
    }
  }

  lemma {:induction false} WireOf(fs: seq<Field>, tag: nat, wire: nat)
    ensures IndexOf(fs, tag) < |fs| ==> ValueWire(fs, tag, wire) == FieldWire(fs[IndexOf(fs, tag)], wire)
    ensures IndexOf(fs, tag) == |fs| ==> ValueWire(fs, tag, wire) == wire
  {
    if fs != [] && fs[0].tag != tag {
      WireOf(fs[1..], tag, wire);
    }
  }

  lemma {:induction false} RecordPrefix(fs: seq<Field>, a: Bytes, x: Bytes, dest: Message)
    requires FrontRecord(fs, a).Some?
    ensures RecordInto(fs, a + x, dest) == RecordInto(fs, a, dest)
  {
    hide FrontRecord, FieldSize, SlotAfter, Number32, Body, ValueWire;
    FrontPrefix(fs, a, x);
    NumberPrefix(a, x);
    var tag, wire := Number32(a) / 8, Number32(a) % 8;
    var i := IndexOf(fs, tag);
    WireOf(fs, tag, wire);
    if i < |fs| && i < |dest.slots| {
      SlotPrefix(fs[i], wire, Body(a), x, dest.slots[i]);
    }
  }

  // ---- Concatenation ----

  /** a is whole records, to its end. */
  ghost predicate Whole(fs: seq<Field>, a: Bytes)
    decreases |a|
  {
    a == [] || (FrontRecord(fs, a).Some? && Whole(fs, a[FrontRecord(fs, a).value.size..]))
  }

  /** Messages one after another merge: the second is read into what the first has made. */
  lemma {:induction false} ConcatMerges(fs: seq<Field>, a: Bytes, b: Bytes, dest: Message)
    requires Whole(fs, a)
    ensures Walked(fs, a + b, dest) == Walked(fs, b, Walked(fs, a, dest))
    decreases |a|
  {
    hide FrontRecord, RecordInto, Walked;
    if a == [] {
      assert a + b == b;
      WalkedNothing(fs, dest);
    } else {
      var n := FrontRecord(fs, a).value.size;
      FrontPrefix(fs, a, b);
      RecordPrefix(fs, a, b, dest);
      WalkStep(fs, a, dest);
      WalkStep(fs, a + b, dest);
      assert (a + b)[n..] == a[n..] + b;
      ConcatMerges(fs, a[n..], b, RecordInto(fs, a, dest));
    }
  }

  lemma {:induction false} WalkedNothing(fs: seq<Field>, dest: Message)
    ensures Walked(fs, [], dest) == dest
  {
  }

  lemma {:induction false} WholeConcat(fs: seq<Field>, a: Bytes, b: Bytes)
    requires Whole(fs, a) && Whole(fs, b)
    ensures Whole(fs, a + b)
    decreases |a|
  {
    hide FrontRecord;
    if a == [] {
      assert a + b == b;
    } else {
      var n := FrontRecord(fs, a).value.size;
      FrontPrefix(fs, a, b);
      assert (a + b)[n..] == a[n..] + b;
      WholeConcat(fs, a[n..], b);
    }
  }

  lemma {:induction false} HasRecordConcat(fs: seq<Field>, a: Bytes, b: Bytes, tag: nat)
    requires Whole(fs, a)
    ensures HasRecord(fs, a + b, tag) <==> HasRecord(fs, a, tag) || HasRecord(fs, b, tag)
    decreases |a|
  {
    hide FrontRecord;
    if a == [] {
      assert a + b == b;
      assert !HasRecord(fs, a, tag) by { NoneInNothing(fs, tag); }
    } else {
      var n := FrontRecord(fs, a).value.size;
      FrontPrefix(fs, a, b);
      assert (a + b)[n..] == a[n..] + b;
      HasRecordConcat(fs, a[n..], b, tag);
    }
  }

  lemma {:induction false} NoneInNothing(fs: seq<Field>, tag: nat)
    ensures !HasRecord(fs, [], tag)
  {
  }

  // ---- One field ----

  lemma {:induction false} FrontTag(fs: seq<Field>, b: Bytes)
    requires FrontRecord(fs, b).Some?
    ensures b != [] && FrontRecord(fs, b).value.tag == Number32(b) / 8
  {
    hide FieldSize, ValueWire;
  }

  /** A record leaves the slots of other fields alone. */
  lemma {:induction false} RecordElsewhere(fs: seq<Field>, b: Bytes, dest: Message, i: nat)
    requires FrontRecord(fs, b).Some? && i < |fs| == |dest.slots| && fs[i].tag != FrontRecord(fs, b).value.tag
    ensures var r := RecordInto(fs, b, dest); |r.slots| == |fs| && r.slots[i] == dest.slots[i]
  {
    hide FrontRecord, SlotAfter, Number32, Body;
    FrontTag(fs, b);
  }

  /** The slot of a field without a record in b is what it was. */
  lemma {:induction false} Untouched(fs: seq<Field>, b: Bytes, dest: Message, i: nat)
    requires i < |fs| == |dest.slots| && !HasRecord(fs, b, fs[i].tag)
    ensures var r := Walked(fs, b, dest); |r.slots| == |fs| && r.slots[i] == dest.slots[i]
    decreases |b|
  {
    hide FrontRecord, RecordInto;
    if FrontRecord(fs, b).Some? {
      RecordElsewhere(fs, b, dest, i);
      Untouched(fs, b[FrontRecord(fs, b).value.size..], RecordInto(fs, b, dest), i);
    }
  }

  lemma {:induction false} SlotsKept(fs: seq<Field>, b: Bytes, dest: Message)
    ensures |Walked(fs, b, dest).slots| == |dest.slots|
    decreases |b|
  {
    hide FrontRecord, SlotAfter;
    if FrontRecord(fs, b).Some? {
      SlotsKept(fs, b[FrontRecord(fs, b).value.size..], RecordInto(fs, b, dest));
    }
  }

  /** r is one record with this tag. */
  ghost predicate OneRecord(fs: seq<Field>, r: Bytes, tag: nat) {
    FrontRecord(fs, r) == Some(Front(tag, |r|))
  }

  lemma {:induction false} OneIsWhole(fs: seq<Field>, r: Bytes, tag: nat, dest: Message)
    requires OneRecord(fs, r, tag)
    ensures Whole(fs, r) && Walked(fs, r, dest) == RecordInto(fs, r, dest)
    ensures forall other :: HasRecord(fs, r, other) <==> other == tag
  {
    hide FrontRecord, RecordInto, Walked;
    assert r[|r|..] == [];
    WalkStep(fs, r, dest);
    WalkedNothing(fs, RecordInto(fs, r, dest));
    forall other
      ensures HasRecord(fs, r, other) <==> other == tag
    {
      NoneInNothing(fs, other);
    }
  }

  lemma {:induction false} RecordHere(fs: seq<Field>, r: Bytes, dest: Message, i: nat)
    requires DistinctTags(fs) && i < |fs| == |dest.slots| && OneRecord(fs, r, fs[i].tag)
    ensures RecordInto(fs, r, dest) == Message(dest.slots[i := SlotAfter(fs[i], Number32(r) % 8, Body(r), dest.slots[i])])
  {
    hide FrontRecord, SlotAfter, Number32, Body;
    FrontTag(fs, r);
    assert IndexOf(fs, fs[i].tag) == i;
  }

  /** What the last record of a field leaves in its slot, wherever it stands. */
  lemma {:induction false} LastRecord(fs: seq<Field>, a: Bytes, r: Bytes, b: Bytes, dest: Message, i: nat)
    requires DistinctTags(fs) && i < |fs| == |dest.slots|
    requires Whole(fs, a) && OneRecord(fs, r, fs[i].tag) && !HasRecord(fs, b, fs[i].tag)
    ensures |Walked(fs, a, dest).slots| == |Walked(fs, a + (r + b), dest).slots| == |fs|
    ensures Walked(fs, a + (r + b), dest).slots[i]
         == SlotAfter(fs[i], Number32(r) % 8, Body(r), Walked(fs, a, dest).slots[i])
  {
    hide FrontRecord, SlotAfter, Walked, OneRecord, RecordInto;
    var before := Walked(fs, a, dest);
    SlotsKept(fs, a, dest);
    OneIsWhole(fs, r, fs[i].tag, before);
    ConcatMerges(fs, a, r + b, dest);
    ConcatMerges(fs, r, b, before);
    RecordHere(fs, r, before, i);
    Untouched(fs, b, RecordInto(fs, r, before), i);
  }

  /** The last record of a field that is neither an array nor a submessage decides its value. */
  lemma {:induction false} LastValueWins(fs: seq<Field>, a: Bytes, r: Bytes, b: Bytes, dest: Message, i: nat)
    requires DistinctTags(fs) && i < |fs| == |dest.slots| && !fs[i].rule.Repeated? && !fs[i].ltype.SubT?
    requires Whole(fs, a) && OneRecord(fs, r, fs[i].tag) && !HasRecord(fs, b, fs[i].tag)
    ensures var m := Walked(fs, a + (r + b), dest);
      i < |m.slots| && m.slots[i] == One(ScalarOf(fs[i].ltype, Body(r)))
  {
    hide FrontRecord, Walked, OneRecord, ScalarOf, Body, Whole;
    LastRecord(fs, a, r, b, dest, i);
  }

  /** The records of a submessage merge: the last one is read into what those before it have made. */
  lemma {:induction false} SubmessagesMerge(fs: seq<Field>, a: Bytes, r: Bytes, b: Bytes, dest: Message, i: nat)
    requires DistinctTags(fs) && i < |fs| == |dest.slots| && !fs[i].rule.Repeated? && fs[i].ltype.SubT?
    requires Whole(fs, a) && OneRecord(fs, r, fs[i].tag) && !HasRecord(fs, b, fs[i].tag)
    ensures var m, before := Walked(fs, a + (r + b), dest), Walked(fs, a, dest);
      && i < |m.slots| && i < |before.slots|
      && (before.slots[i].One? && before.slots[i].v.Sub? ==>
            m.slots[i] == One(Sub(Walked(fs[i].ltype.fields, Payload(Body(r)), before.slots[i].v.msg))))
      && (!before.slots[i].One? ==>
            m.slots[i] == One(Sub(Walked(fs[i].ltype.fields, Payload(Body(r)), Fresh(fs[i].ltype.fields)))))
  {
    hide FrontRecord, Walked, OneRecord, Body, Whole, Payload, Defaults;
    LastRecord(fs, a, r, b, dest, i);
    NotEmpty(fs, r, fs[i].tag);
    DefaultIsFresh(fs[i].ltype);
    WireOf(fs, fs[i].tag, Number32(r) % 8);
  }

  lemma {:induction false} DefaultIsFresh(t: LType)
    ensures t.SubT? ==> Default(t) == Sub(Fresh(t.fields))
  {
  }

  lemma {:induction false} NotEmpty(fs: seq<Field>, r: Bytes, tag: nat)
    requires OneRecord(fs, r, tag)
    ensures Body(r) != []
  {
    hide ValueWire;
    FrontPrefix(fs, r, []);
  }

  // ---- Arrays ----

  /** The values one record adds to an array. */
  ghost function RecordItems(f: Field, wire: nat, b: Bytes): seq<Value> {
    if wire == WT_STRING && Packable(f.ltype) then PackedItems(f.ltype, Payload(b)) else [ValueOf(f.ltype, b, Default(f.ltype))]
  }

  /** The values of all records of field i in b, in their order. */
  ghost function ItemsIn(fs: seq<Field>, b: Bytes, i: nat): seq<Value>
    requires i < |fs|
    decreases |b|
  {
    match FrontRecord(fs, b)
    case None => []
    case Some(f) =>
      (if f.tag == fs[i].tag then RecordItems(fs[i], Number32(b) % 8, Body(b)) else []) + ItemsIn(fs, b[f.size..], i)
  }

  lemma {:induction false} ItemsStep(fs: seq<Field>, b: Bytes, dest: Message, i: nat)
    requires i < |fs|
    ensures FrontRecord(fs, b).None? ==> ItemsIn(fs, b, i) == [] && Walked(fs, b, dest) == dest
    ensures FrontRecord(fs, b).Some? ==>
      var f := FrontRecord(fs, b).value;
      && Walked(fs, b, dest) == Walked(fs, b[f.size..], RecordInto(fs, b, dest))
      && ItemsIn(fs, b, i)
         == (if f.tag == fs[i].tag then RecordItems(fs[i], Number32(b) % 8, Body(b)) else []) + ItemsIn(fs, b[f.size..], i)
  {
    hide FrontRecord, RecordInto, RecordItems;
  }

  /** An array holds what it held, and then the values of its records in their order. */
  lemma {:induction false} ArrayExtended(fs: seq<Field>, b: Bytes, dest: Message, i: nat)
    requires DistinctTags(fs) && i < |fs| == |dest.slots| && fs[i].rule.Repeated? && dest.slots[i].Many?
    ensures var m := Walked(fs, b, dest); i < |m.slots| && m.slots[i] == Many(dest.slots[i].vs + ItemsIn(fs, b, i))
    decreases |b|
  {
    hide FrontRecord, RecordInto, RecordItems, Walked, ItemsIn, Number32, Body;
    var vs := dest.slots[i].vs;
    ItemsStep(fs, b, dest, i);
    if FrontRecord(fs, b).None? {
      assert vs + [] == vs;
    } else {
      var f := FrontRecord(fs, b).value;
      var next := RecordInto(fs, b, dest);
      var more := if f.tag == fs[i].tag then RecordItems(fs[i], Number32(b) % 8, Body(b)) else [];
      OneArrayRecord(fs, b, dest, i);
      ArrayExtended(fs, b[f.size..], next, i);
      assert vs + (more + ItemsIn(fs, b[f.size..], i)) == (vs + more) + ItemsIn(fs, b[f.size..], i);
    }
  }

  lemma {:induction false} OneArrayRecord(fs: seq<Field>, b: Bytes, dest: Message, i: nat)
    requires FrontRecord(fs, b).Some?
    requires DistinctTags(fs) && i < |fs| == |dest.slots| && fs[i].rule.Repeated? && dest.slots[i].Many?
    ensures var next := RecordInto(fs, b, dest);
      |next.slots| == |fs| && next.slots[i] == Many(dest.slots[i].vs
        + if FrontRecord(fs, b).value.tag == fs[i].tag then RecordItems(fs[i], Number32(b) % 8, Body(b)) else [])
  {
    hide FrontRecord, Number32, Body, PackedItems, ValueOf, Payload;
    FrontTag(fs, b);
    if FrontRecord(fs, b).value.tag == fs[i].tag {
      assert IndexOf(fs, fs[i].tag) == i;
    } else {
      assert dest.slots[i].vs + [] == dest.slots[i].vs;
    }
  }

  // ---- Order, and unknown fields ----

  /** No field of fs has a record in b. */
  ghost predicate Unknown(fs: seq<Field>, b: Bytes) {
    forall k | 0 <= k < |fs| :: !HasRecord(fs, b, fs[k].tag)
  }

  lemma {:induction false} UnknownChangesNothing(fs: seq<Field>, b: Bytes, dest: Message)
    requires |dest.slots| == |fs| && Unknown(fs, b)
    ensures Walked(fs, b, dest) == dest
  {
    hide HasRecord, Walked;
    SlotsKept(fs, b, dest);
    var r := Walked(fs, b, dest);
    forall i | 0 <= i < |fs|
      ensures r.slots[i] == dest.slots[i]
    {
      Untouched(fs, b, dest, i);
    }
    assert r.slots == dest.slots;
  }

  /** Records of unknown fields, wherever they stand, change nothing: a receiver makes of the message of a newer
      sender what it would make of it without them. */
  lemma {:induction false} UnknownIgnored(fs: seq<Field>, a: Bytes, u: Bytes, b: Bytes, dest: Message)
    requires |dest.slots| == |fs| && Whole(fs, a) && Whole(fs, u) && Unknown(fs, u)
    ensures Walked(fs, a + (u + b), dest) == Walked(fs, a + b, dest)
  {
    hide HasRecord, Walked, Whole, Unknown;
    var m := Walked(fs, a, dest);
    SlotsKept(fs, a, dest);
    ConcatMerges(fs, a, u + b, dest);
    ConcatMerges(fs, u, b, m);
    ConcatMerges(fs, a, b, dest);
    UnknownChangesNothing(fs, u, m);
  }

  /** Neighbouring records of different fields may change places. */
  lemma {:induction false} RecordsCommute(fs: seq<Field>, a: Bytes, r: Bytes, s: Bytes, b: Bytes, dest: Message, tag: nat, other: nat)
    requires |dest.slots| == |fs| && Whole(fs, a) && OneRecord(fs, r, tag) && OneRecord(fs, s, other) && tag != other
    ensures Walked(fs, a + (r + (s + b)), dest) == Walked(fs, a + (s + (r + b)), dest)
  {
    hide FrontRecord, Walked, OneRecord, RecordInto, Whole;
    var m := Walked(fs, a, dest);
    SlotsKept(fs, a, dest);
    ConcatMerges(fs, a, r + (s + b), dest);
    ConcatMerges(fs, a, s + (r + b), dest);
    TwoRecords(fs, r, s, b, m, tag, other);
    TwoRecords(fs, s, r, b, m, other, tag);
    SwapRecords(fs, r, s, m, tag, other);
  }

  lemma {:induction false} TwoRecords(fs: seq<Field>, r: Bytes, s: Bytes, b: Bytes, m: Message, tag: nat, other: nat)
    requires OneRecord(fs, r, tag) && OneRecord(fs, s, other)
    ensures Walked(fs, r + (s + b), m) == Walked(fs, b, RecordInto(fs, s, RecordInto(fs, r, m)))
  {
    hide FrontRecord, Walked, OneRecord, RecordInto;
    var after := RecordInto(fs, r, m);
    OneIsWhole(fs, r, tag, m);
    OneIsWhole(fs, s, other, after);
    ConcatMerges(fs, r, s + b, m);
    ConcatMerges(fs, s, b, after);
  }

  lemma {:induction false} SwapRecords(fs: seq<Field>, r: Bytes, s: Bytes, m: Message, tag: nat, other: nat)
    requires |m.slots| == |fs| && OneRecord(fs, r, tag) && OneRecord(fs, s, other) && tag != other
    ensures RecordInto(fs, s, RecordInto(fs, r, m)) == RecordInto(fs, r, RecordInto(fs, s, m))
  {
    hide FrontRecord, SlotAfter, Number32, Body;
    FrontTag(fs, r);
    FrontTag(fs, s);
    var i, j := IndexOf(fs, tag), IndexOf(fs, other);
    if i < |fs| && j < |fs| {
      var x, y := SlotAfter(fs[i], Number32(r) % 8, Body(r), m.slots[i]), SlotAfter(fs[j], Number32(s) % 8, Body(s), m.slots[j]);
      assert i != j;
      assert m.slots[i := x][j := y] == m.slots[j := y][i := x];
    }
  }

  /** The last record of a field in b, and what stands around it. */
  lemma {:induction false} LastOf(fs: seq<Field>, b: Bytes, tag: nat) returns (front: Bytes, r: Bytes, back: Bytes)
    requires HasRecord(fs, b, tag)
    ensures b == front + (r + back) && Whole(fs, front) && OneRecord(fs, r, tag) && !HasRecord(fs, back, tag)
    decreases |b|
  {
    hide FrontRecord, OneRecord;
    var f := FrontRecord(fs, b).value;
    var head, rest := b[..f.size], b[f.size..];
    HeadIsOne(fs, b);
    OneIsWhole(fs, head, f.tag, Message([]));
    assert b == head + rest;
    if HasRecord(fs, rest, tag) {
      front, r, back := LastOf(fs, rest, tag);
      WholeConcat(fs, head, front);
      front := head + front;
      assert b == front + (r + back);
    } else {
      front, r, back := [], head, rest;
      assert b == front + (r + back);
    }
  }

  lemma {:induction false} CutVarint(b: Bytes, n: nat, limit: nat)
    requires GetVarint(b, limit).Some? && GetVarint(b, limit).value.size <= n <= |b|
    ensures GetVarint(b[..n], limit) == GetVarint(b, limit)
  {
    if b[0] >= 128 {
      assert b[..n][1..] == b[1..][..n - 1];
      CutVarint(b[1..], n - 1, limit - 1);
    }
  }

  lemma {:induction false} CutNumber(b: Bytes, n: nat)
    requires GetVarint(b, |b|).Some? && GetVarint(b, |b|).value.size <= n <= |b|
    ensures GetVarint(b[..n], n) == GetVarint(b, |b|)
  {
    hide GetVarint;
    CutVarint(b, n, |b|);
    EnoughLimit(b[..n], |b|, n);
  }

  lemma {:induction false} CutSize(b: Bytes, wire: nat, n: nat)
    requires FieldSize(b, wire) == Some(n)
    ensures FieldSize(b[..n], wire) == Some(n)
  {
    hide GetVarint;
    if GetVarint(b, |b|).Some? && GetVarint(b, |b|).value.size <= n {
      CutNumber(b, n);
    }
  }

  /** The record at the front of b, cut off. */
  lemma {:induction false} HeadIsOne(fs: seq<Field>, b: Bytes)
    requires FrontRecord(fs, b).Some?
    ensures var f := FrontRecord(fs, b).value; OneRecord(fs, b[..f.size], f.tag)
  {
    hide GetVarint, FieldSize, ValueWire;
    var g, n := GetVarint(b, |b|).value, FrontRecord(fs, b).value.size;
    CutNumber(b, n);
    var key := g.value % TWO32;
    CutSize(b[g.size..], ValueWire(fs, key / 8, key % 8), n - g.size);
    assert b[..n][g.size..] == b[g.size..][..n - g.size];
  }

  // ---- Acceptance ----

  lemma {:induction false} TailPrefix(a: Bytes, x: Bytes, result: nat, bitpos: nat, scale: nat)
    requires GetVarint(a, |a|).Some?
    ensures Tail32(a + x, result, bitpos, scale) == Tail32(a, result, bitpos, scale)
    decreases |a|
  {
    hide Overflows, OrShifted;
    if a[0] >= 128 {
      assert (a + x)[1..] == a[1..] + x;
      TailPrefix(a[1..], x, if bitpos >= 32 then result else OrShifted(result, a[0], scale), bitpos + 7, scale * 128);
    }
  }

  lemma {:induction false} AcceptPrefix32(a: Bytes, x: Bytes)
    requires GetVarint(a, |a|).Some?
    ensures Accept32(a + x) == Accept32(a)
  {
    hide Tail32;
    if a[0] >= 128 {
      assert (a + x)[1..] == a[1..] + x;
      TailPrefix(a[1..], x, a[0] % 128, 7, 128);
    }
  }

  lemma {:induction false} AcceptSlicePrefix(a: Bytes, x: Bytes, wire: nat)
    requires FieldSize(a, wire).Some?
    ensures wire == WT_STRING ==> AcceptSlice(a + x) == AcceptSlice(a)
    ensures AcceptSkip(a + x, wire) == AcceptSkip(a, wire)
  {
    hide GetVarint, Accept32;
    SizePrefix(a, x, wire);
    if wire == WT_STRING {
      AcceptPrefix32(a, x);
    }
  }

  lemma {:induction false} AcceptScalarPrefix(t: LType, a: Bytes, x: Bytes)
    requires FieldSize(a, WireType(t)).Some?
    ensures AcceptScalar(t, a + x) == AcceptScalar(t, a)
  {
    hide GetVarint, Accept32, AcceptSlice, Payload, CheckNumber;
    SizePrefix(a, x, WireType(t));
    if WireType(t) == WT_VARINT {
      VarintPrefix(a, x, 10);
      AcceptPrefix32(a, x);
    } else {
      AcceptSlicePrefix(a, x, WireType(t));
    }
    FixedSizes(t, a);
    FixedSizes(t, a + x);
  }

  lemma {:induction false} FixedSizes(t: LType, a: Bytes)
    requires FieldSize(a, WireType(t)).Some?
    ensures t.Fixed32T? ==> |a| >= 4
    ensures t.Fixed64T? ==> |a| >= 8
  {
  }

  lemma {:induction false} AcceptValuePrefix(t: LType, a: Bytes, x: Bytes, was: Value)
    requires FieldSize(a, WireType(t)).Some?
    ensures AcceptValue(t, a + x, was) == AcceptValue(t, a, was)
  {
    hide FieldSize, AcceptScalar, Payload, AcceptSlice, AcceptMessage;
    if t.SubT? {
      SizePrefix(a, x, WT_STRING);
      AcceptSlicePrefix(a, x, WT_STRING);
    } else {
      AcceptScalarPrefix(t, a, x);
    }
  }

  lemma {:induction false} AcceptFieldPrefix(f: Field, wire: nat, a: Bytes, x: Bytes, slot: Slot)
    requires FieldSize(a, FieldWire(f, wire)).Some?
    ensures AcceptField(f, wire, a + x, slot) == AcceptField(f, wire, a, slot)
  {
    hide FieldSize, AcceptValue, Payload, AcceptSlice, AcceptItems;
    if f.rule.Repeated? && wire == WT_STRING && Packable(f.ltype) {
      SizePrefix(a, x, WT_STRING);
      AcceptSlicePrefix(a, x, WT_STRING);
    } else if f.rule.Repeated? {
      AcceptValuePrefix(f.ltype, a, x, Default(f.ltype));
    } else {
      AcceptValuePrefix(f.ltype, a, x, if slot.One? then slot.v else Default(f.ltype));
    }
  }

  lemma {:induction false} AcceptRecordPrefix(fs: seq<Field>, a: Bytes, x: Bytes, dest: Message)
    requires FrontRecord(fs, a).Some?
    ensures AcceptRecord(fs, a + x, dest) == AcceptRecord(fs, a, dest)
    ensures Accept32(a + x) == Accept32(a) && Number32(a + x) == Number32(a) != 0 && a != []
  {
    hide FieldSize, AcceptField, AcceptSkip, ValueWire, Accept32, GetVarint, FrontRecord, Number32, Body;
    FrontPrefix(fs, a, x);
    NumberPrefix(a, x);
    AcceptPrefix32(a, x);
    FrontKey(fs, a);
    var tag, wire := Number32(a) / 8, Number32(a) % 8;
    var i := IndexOf(fs, tag);
    WireOf(fs, tag, wire);
    if i == |fs| {
      AcceptSlicePrefix(Body(a), x, wire);
    } else if i < |dest.slots| {
      AcceptFieldPrefix(fs[i], wire, Body(a), x, dest.slots[i]);
    }
  }

  lemma {:induction false} FrontKey(fs: seq<Field>, b: Bytes)
    requires FrontRecord(fs, b).Some?
    ensures b != [] && Number32(b) != 0
  {
    hide FieldSize, ValueWire;
  }

  /** What is accepted of two messages one after another. */
  lemma {:induction false} ConcatAccepted(fs: seq<Field>, a: Bytes, b: Bytes, dest: Message)
    requires Whole(fs, a)
    ensures AcceptWalk(fs, a + b, dest) <==> AcceptWalk(fs, a, dest) && AcceptWalk(fs, b, Walked(fs, a, dest))
    decreases |a|
  {
    hide FrontRecord, RecordInto, Walked, AcceptRecord, Accept32, Number32, AcceptWalk;
    if a == [] {
      assert a + b == b;
      WalkedNothing(fs, dest);
      AcceptNothing(fs, dest);
    } else {
      var n := FrontRecord(fs, a).value.size;
      FrontPrefix(fs, a, b);
      RecordPrefix(fs, a, b, dest);
      AcceptRecordPrefix(fs, a, b, dest);
      WalkStep(fs, a, dest);
      assert (a + b)[n..] == a[n..] + b;
      AcceptUnfold(fs, a, dest);
      AcceptUnfold(fs, a + b, dest);
      ConcatAccepted(fs, a[n..], b, RecordInto(fs, a, dest));
    }
  }

  lemma {:induction false} AcceptNothing(fs: seq<Field>, dest: Message)
    ensures AcceptWalk(fs, [], dest)
  {
  }

  lemma {:induction false} AcceptUnfold(fs: seq<Field>, b: Bytes, dest: Message)
    requires FrontRecord(fs, b).Some? && b != [] && Number32(b) != 0
    ensures var rest, next := b[FrontRecord(fs, b).value.size..], RecordInto(fs, b, dest);
      AcceptWalk(fs, b, dest) <==> Accept32(b) && AcceptRecord(fs, b, dest) && AcceptWalk(fs, rest, next)
  {
    hide FrontRecord, RecordInto, AcceptRecord, Accept32, Number32;
  }

  /** Records of unknown fields do not change what is accepted either, if they can be skipped themselves. */
  lemma {:induction false} UnknownAccepted(fs: seq<Field>, a: Bytes, u: Bytes, b: Bytes, dest: Message)
    requires |dest.slots| == |fs| && Whole(fs, a) && Whole(fs, u) && Unknown(fs, u) && AcceptWalk(fs, u, Walked(fs, a, dest))
    ensures AcceptMessage(fs, a + (u + b), dest) <==> AcceptMessage(fs, a + b, dest)
  {
    hide HasRecord, Walked, Whole, AcceptWalk, RequiredBefore;
    var m := Walked(fs, a, dest);
    SlotsKept(fs, a, dest);
    ConcatAccepted(fs, a, u + b, dest);
    ConcatAccepted(fs, u, b, m);
    ConcatAccepted(fs, a, b, dest);
    UnknownChangesNothing(fs, u, m);
    forall k | 0 <= k < |fs|
      ensures HasRecord(fs, a + (u + b), fs[k].tag) <==> HasRecord(fs, a + b, fs[k].tag)
    {
      HasRecordConcat(fs, a, u + b, fs[k].tag);
      HasRecordConcat(fs, u, b, fs[k].tag);
      HasRecordConcat(fs, a, b, fs[k].tag);
    }
  }
}
