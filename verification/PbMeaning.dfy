/**
 * What the bytes of a message mean to a receiver, and which of them it accepts, whoever wrote them: a walk over
 * the records from the front, each of which sets or extends the slot of its field (pb_decode.c).
 */
module PbMeaning {
  import opened Basics
  import opened Varints
  import opened PbFormat
  import opened PbIteration
  import opened PbReading
  import opened PbScalars
  import opened PbRecords

  /** What follows the key at the front of b. */
  ghost function Body(b: Bytes): (r: Bytes)
    ensures |r| < |b| || r == []
  {
    if GetVarint(b, |b|).Some? then b[GetVarint(b, |b|).value.size..] else []
  }

  /** The field with this tag, or |fs|. */
  function IndexOf(fs: seq<Field>, tag: nat): (i: nat)
    ensures i <= |fs| && (i < |fs| ==> fs[i].tag == tag)
    ensures i == |fs| ==> forall j | 0 <= j < |fs| :: fs[j].tag != tag
  {
    if fs == [] then 0 else if fs[0].tag == tag then 0 else 1 + IndexOf(fs[1..], tag)
  }

  /** The values of a packed array. */
  ghost function PackedItems(t: LType, b: Bytes): seq<Value>
    decreases |b|
  {
    match FieldSize(b, WireType(t))
    case None => []
    case Some(n) => [ScalarOf(t, b)] + PackedItems(t, b[n..])
  }

  /** The value of type t at the front of b; a submessage is read into the one that is there. */
  ghost function ValueOf(t: LType, b: Bytes, was: Value): Value
    decreases |b|, 1
  {
    if !t.SubT? then ScalarOf(t, b)
    else if b == [] || !was.Sub? then was
    else Sub(Walked(t.fields, Payload(b), was.msg))
  }

  /** The slot of a field after one of its records, whose value stands at the front of b: an array is extended,
      anything else replaced. */
  ghost function SlotAfter(f: Field, wire: nat, b: Bytes, slot: Slot): Slot
    decreases |b|, 2
  {
    if f.rule.Repeated? then
      var vs := if slot.Many? then slot.vs else [];
      if wire == WT_STRING && Packable(f.ltype) then Many(vs + PackedItems(f.ltype, Payload(b)))
      else Many(vs + [ValueOf(f.ltype, b, Default(f.ltype))])
    else One(ValueOf(f.ltype, b, if slot.One? then slot.v else Default(f.ltype)))
  }

  /** The message after the record at the front of b. */
  ghost function RecordInto(fs: seq<Field>, b: Bytes, dest: Message): Message
    decreases |b|, 3
  {
    var i := IndexOf(fs, Number32(b) / 8);
    if b != [] && i < |fs| && i < |dest.slots| then
      Message(dest.slots[i := SlotAfter(fs[i], Number32(b) % 8, Body(b), dest.slots[i])])
    else dest
  }

  /** The message after all records of b. */
  ghost function Walked(fs: seq<Field>, b: Bytes, dest: Message): Message
    decreases |b|, 4
  {
    match FrontRecord(fs, b)
    case None => dest
    case Some(f) => Walked(fs, b[f.size..], RecordInto(fs, b, dest))
  }

  // ---- What is accepted ----

  /** At most room values of a packed array, each accepted. */
  ghost predicate AcceptItems(t: LType, b: Bytes, room: int)
    decreases |b|
  {
    b == [] || (room > 0 && AcceptScalar(t, b) && FieldSize(b, WireType(t)).Some?
                && AcceptItems(t, b[FieldSize(b, WireType(t)).value..], room - 1))
  }

  ghost predicate AcceptValue(t: LType, b: Bytes, was: Value)
    decreases |b|, 1
  {
    if !t.SubT? then AcceptScalar(t, b)
    else b != [] && was.Sub? && AcceptSlice(b) && AcceptMessage(t.fields, Payload(b), was.msg)
  }

  ghost predicate AcceptField(f: Field, wire: nat, b: Bytes, slot: Slot)
    decreases |b|, 2
  {
    if f.rule.Repeated? then
      && slot.Many?
      && if wire == WT_STRING && Packable(f.ltype) then AcceptSlice(b) && AcceptItems(f.ltype, Payload(b), f.rule.max - |slot.vs|)
         else |slot.vs| < f.rule.max && AcceptValue(f.ltype, b, Default(f.ltype))
    else AcceptValue(f.ltype, b, if slot.One? then slot.v else Default(f.ltype))
  }

  /** A known field takes its record; an unknown one is skipped. */
  ghost predicate AcceptRecord(fs: seq<Field>, b: Bytes, dest: Message)
    decreases |b|, 3
  {
    var i := IndexOf(fs, Number32(b) / 8);
    && b != [] && FrontRecord(fs, b).Some?
    && if i < |fs| then i < |dest.slots| && AcceptField(fs[i], Number32(b) % 8, Body(b), dest.slots[i])
       else AcceptSkip(Body(b), Number32(b) % 8)
  }

  /** Accepted records up to the end of b or a key of zero. */
  ghost predicate AcceptWalk(fs: seq<Field>, b: Bytes, dest: Message)
    decreases |b|, 4
  {
    b == [] || (Accept32(b)
                && (Number32(b) == 0
                    || (AcceptRecord(fs, b, dest) && AcceptWalk(fs, b[FrontRecord(fs, b).value.size..], RecordInto(fs, b, dest)))))
  }

  ghost predicate AcceptMessage(fs: seq<Field>, b: Bytes, dest: Message)
    decreases |b|, 5
  {
    AcceptWalk(fs, b, dest) && RequiredPresent(fs, b)
  }

  lemma {:induction false} WalkStep(fs: seq<Field>, b: Bytes, dest: Message)
    requires FrontRecord(fs, b).Some?
    ensures Walked(fs, b, dest) == Walked(fs, b[FrontRecord(fs, b).value.size..], RecordInto(fs, b, dest))
  {
    hide FrontRecord, RecordInto;
  }

  lemma {:induction false} AcceptStep(fs: seq<Field>, b: Bytes, dest: Message)
    requires b != [] && Accept32(b) && Number32(b) != 0
    ensures !AcceptRecord(fs, b, dest) ==> !AcceptWalk(fs, b, dest)
    ensures AcceptRecord(fs, b, dest) && FrontRecord(fs, b).Some? ==>
              AcceptWalk(fs, b, dest) == AcceptWalk(fs, b[FrontRecord(fs, b).value.size..], RecordInto(fs, b, dest))
  {
    hide FrontRecord, RecordInto, AcceptRecord;
  }
}
