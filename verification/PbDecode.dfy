/** The decoder (pb_decode.c): keys, fields, submessages, and the check for required fields. */
module PbDecoding {
  import opened Basics
  import opened Varints
  import opened PbFormat
  import opened PbIteration
  import opened PbReading
  import opened PbScalars
  import opened PbRecords
  import opened PbMeaning
  import opened PbProgress
  import opened PbEncoding

  /** pb_make_string_substream: the length, and a stream of that many bytes over the same buffer. */
  method MakeSubstream(stream: IStream, ghost body: Bytes, ghost more: Bytes) returns (ok: bool, sub: IStream)
    requires stream.Valid()
    modifies stream
    ensures stream.Valid() && stream.bytesLeft <= old(stream.bytesLeft) && sub.Valid() && fresh(sub)
    ensures stream.state + stream.bytesLeft <= old(stream.state) + old(stream.bytesLeft)
    ensures ok ==> sub.data == stream.data && sub.state == stream.state && sub.bytesLeft < old(stream.bytesLeft)
    ensures ok ==> Took(old(stream.Rest()), WT_STRING, old(stream.bytesLeft) - stream.bytesLeft)
    ensures ok ==> sub.state + sub.bytesLeft + stream.bytesLeft == old(stream.state) + old(stream.bytesLeft)
    ensures old(stream.Rest()) == PutSlice(body) + more && |body| < TWO32 ==>
        && ok && sub.Rest() == body
        && stream.data[sub.state + sub.bytesLeft..sub.state + sub.bytesLeft + stream.bytesLeft] == more
    ensures ok <==> AcceptSlice(old(stream.Rest()))
    ensures ok ==> sub.Rest() == Payload(old(stream.Rest()))
  {
    hide PutSlice, Took, AcceptSlice, Payload;
    ghost var good := stream.Rest() == PutSlice(body) + more && |body| < TWO32;
    var size;
    ok, size := DecodeLength(stream, body, more);
    sub := new IStream(stream.data, stream.state, 0);
    if !ok {
      return;
    }
    if stream.bytesLeft < size {
      return false, sub;
    }
    ghost var rest := stream.Rest();
    sub := new IStream(stream.data, stream.state, size);
    stream.bytesLeft := stream.bytesLeft - size;
    assert sub.Rest() == rest[..size];
    if good {
      Parts(body, more);
      assert stream.data[sub.state + size..sub.state + size + stream.bytesLeft] == rest[size..];
    }
  }

  /** pb_close_string_substream: what the substream has not read is skipped. */
  method CloseSubstream(stream: IStream, sub: IStream) returns (ok: bool)
    requires stream.Valid() && sub.Valid() && stream != sub && sub.data == stream.data
    requires sub.state + sub.bytesLeft + stream.bytesLeft <= |stream.data|
    modifies stream, sub
    ensures ok && stream.Valid() && stream.bytesLeft == old(stream.bytesLeft)
    ensures stream.state == old(sub.state) + old(sub.bytesLeft)
  {
    if sub.bytesLeft > 0 {
      var buf;
      ok, buf := sub.Read(sub.bytesLeft);
    }
    stream.state := sub.state;
    ok := true;
  }

  /** Items until the substream or the array is at its end. */
  method DecodeItems(sub: IStream, t: LType, max: nat, vs: seq<Value>, ghost want: seq<Value>) returns (ok: bool, r: seq<Value>)
    requires sub.Valid() && Packable(t) && WfType(t) && WfAll(t, vs) && |vs| <= max
    modifies sub
    ensures sub.Valid() && sub.state + sub.bytesLeft == old(sub.state) + old(sub.bytesLeft)
    ensures WfAll(t, r) && |r| <= max
    ensures Wanted(t, max, vs, want, old(sub.Rest())) ==> ok && r == vs + want && sub.bytesLeft == 0
    ensures ok && sub.bytesLeft == 0 <==> AcceptItems(t, old(sub.Rest()), max - |vs|)
    ensures ok && sub.bytesLeft == 0 ==> r == vs + PackedItems(t, old(sub.Rest()))
  {
    hide EncAll, WfAll, EncScalar, WfValue, WfType, Remaining, Wanted, AcceptScalar, ScalarOf, AcceptItems, PackedItems, Took, ItemsSoFar, EncScalar;
    ghost var rest0 := sub.Rest();
    NoItemsYet(t, rest0, max, vs);
    ghost var good := Wanted(t, max, vs, want, sub.Rest());
    ok, r := true, vs;
    ghost var left := want;
    if good {
      AllRemaining(t, max, vs, want, sub.Rest());
    }
    while sub.bytesLeft > 0 && |r| < max
      invariant ok && sub.Valid() && sub.state + sub.bytesLeft == old(sub.state) + old(sub.bytesLeft)
      invariant WfAll(t, r) && |r| <= max
      invariant good ==> Remaining(t, max, r, left, vs + want, sub.Rest())
      invariant ItemsSoFar(t, rest0, max, vs, r, sub.Rest())
      decreases max - |r|
    {
      ghost var rest := sub.Rest();
      if good {
        NextItem(t, max, r, left, vs + want, sub.Rest());
      }
      var item;
      ok, item := DecodeScalar(sub, t, if left == [] then Num(0) else left[0], Following(t, left));
      if !ok {
        ItemFails(t, rest0, max, vs, r, rest);
        return;
      }
      AppendWf(t, r, item);
      assert sub.Rest() == rest[|rest| - sub.bytesLeft..];
      ItemTaken(t, rest0, max, vs, r, rest, |rest| - sub.bytesLeft);
      r := r + [item];
      left := if left == [] then [] else left[1..];
    }
    ItemsEnd(t, rest0, max, vs, r, sub.Rest());
    if good {
      NothingRemains(t, max, r, left, vs + want, sub.Rest());
    }
  }

  /** r is vs and what has been read of rest0; the outcome depends on rest. */
  ghost predicate ItemsSoFar(t: LType, rest0: Bytes, max: nat, vs: seq<Value>, r: seq<Value>, rest: Bytes) {
    && vs + PackedItems(t, rest0) == r + PackedItems(t, rest)
    && AcceptItems(t, rest0, max - |vs|) == AcceptItems(t, rest, max - |r|)
  }

  lemma {:induction false} NoItemsYet(t: LType, rest: Bytes, max: nat, vs: seq<Value>)
    ensures ItemsSoFar(t, rest, max, vs, vs, rest)
  {
  }

  lemma {:induction false} ItemFails(t: LType, rest0: Bytes, max: nat, vs: seq<Value>, r: seq<Value>, rest: Bytes)
    requires ItemsSoFar(t, rest0, max, vs, r, rest) && rest != [] && !AcceptScalar(t, rest)
    ensures !AcceptItems(t, rest0, max - |vs|)
  {
    hide AcceptScalar, ScalarOf, FieldSize;
  }

  lemma {:induction false} ItemTaken(t: LType, rest0: Bytes, max: nat, vs: seq<Value>, r: seq<Value>, rest: Bytes, n: nat)
    requires ItemsSoFar(t, rest0, max, vs, r, rest) && rest != [] && |r| < max && AcceptScalar(t, rest)
    requires Took(rest, WireType(t), n)
    ensures ItemsSoFar(t, rest0, max, vs, r + [ScalarOf(t, rest)], rest[n..])
  {
    hide AcceptScalar, ScalarOf, FieldSize;
    assert r + ([ScalarOf(t, rest)] + PackedItems(t, rest[n..])) == r + [ScalarOf(t, rest)] + PackedItems(t, rest[n..]);
  }

  lemma {:induction false} ItemsEnd(t: LType, rest0: Bytes, max: nat, vs: seq<Value>, r: seq<Value>, rest: Bytes)
    requires ItemsSoFar(t, rest0, max, vs, r, rest) && (rest == [] || |r| >= max)
    ensures rest == [] <==> AcceptItems(t, rest0, max - |vs|)
    ensures rest == [] ==> r == vs + PackedItems(t, rest0)
  {
    if rest == [] {
      assert FieldSize(rest, WireType(t)).None?;
      assert r + [] == r;
    }
  }

  /** Of the items of total, r have been read and left are still to come. */
  ghost predicate Remaining(t: LType, max: nat, r: seq<Value>, left: seq<Value>, total: seq<Value>, rest: Bytes) {
    WfAll(t, left) && rest == EncAll(t, left) && r + left == total && |total| <= max && |rest| < TWO32
  }

  ghost function Following(t: LType, left: seq<Value>): Bytes {
    if left == [] then [] else EncAll(t, left[1..])
  }

  lemma {:induction false} AllRemaining(t: LType, max: nat, vs: seq<Value>, want: seq<Value>, rest: Bytes)
    requires Wanted(t, max, vs, want, rest)
    ensures Remaining(t, max, vs, want, vs + want, rest)
  {
  }

  lemma {:induction false} NextItem(t: LType, max: nat, r: seq<Value>, left: seq<Value>, total: seq<Value>, rest: Bytes)
    requires Remaining(t, max, r, left, total, rest) && Packable(t) && rest != []
    ensures left != [] && WfValue(t, left[0]) && rest == EncScalar(t, left[0]) + Following(t, left) && |rest| < TWO32
    ensures Remaining(t, max, r + [left[0]], left[1..], total, Following(t, left))
  {
    hide EncAll, WfAll, EncScalar, WfValue;
    FirstItem(t, left);
    assert r + left == r + [left[0]] + left[1..];
  }

  lemma {:induction false} NothingRemains(t: LType, max: nat, r: seq<Value>, left: seq<Value>, total: seq<Value>, rest: Bytes)
    requires Remaining(t, max, r, left, total, rest) && Packable(t) && (rest == [] || |r| >= max)
    ensures r == total && rest == []
  {
    hide EncAll, WfAll;
    NoItemsLeft(t, left);
    FirstItem(t, left);
  }

  ghost predicate Wanted(t: LType, max: nat, vs: seq<Value>, want: seq<Value>, rest: Bytes) {
    WfAll(t, want) && |vs + want| <= max && rest == EncAll(t, want) && |rest| < TWO32
  }

  /** The packed branch for a repeated field. */
  method DecodePacked(stream: IStream, t: LType, max: nat, vs: seq<Value>, ghost want: seq<Value>, ghost more: Bytes)
    returns (ok: bool, r: seq<Value>)
    requires stream.Valid() && Packable(t) && WfType(t) && WfAll(t, vs) && |vs| <= max
    modifies stream
    ensures stream.Valid() && stream.bytesLeft <= old(stream.bytesLeft)
    ensures stream.state + stream.bytesLeft <= old(stream.state) + old(stream.bytesLeft)
    ensures ok ==> stream.state + stream.bytesLeft == old(stream.state) + old(stream.bytesLeft)
    ensures ok ==> Took(old(stream.Rest()), WT_STRING, old(stream.bytesLeft) - stream.bytesLeft)
    ensures WfAll(t, r) && |r| <= max
    ensures Wanted(t, max, vs, want, EncAll(t, want)) && old(stream.Rest()) == PutSlice(EncAll(t, want)) + more ==>
        ok && r == vs + want && stream.Rest() == more
    ensures ok <==> AcceptSlice(old(stream.Rest())) && AcceptItems(t, Payload(old(stream.Rest())), max - |vs|)
    ensures ok ==> r == vs + PackedItems(t, Payload(old(stream.Rest())))
  {
    hide EncAll, WfAll, PutVarint, WfType, Took, AcceptSlice, Payload, AcceptItems, PackedItems;
    var sub;
    r := vs;
    ok, sub := MakeSubstream(stream, EncAll(t, want), more);
    if !ok {
      return;
    }
    ok, r := DecodeItems(sub, t, max, vs, want);
    if sub.bytesLeft != 0 {
      return false, r;
    }
    var closed := CloseSubstream(stream, sub);
  }

  lemma {:induction false} AppendWf(t: LType, vs: seq<Value>, v: Value)
    requires WfAll(t, vs) && WfValue(t, v)
    ensures WfAll(t, vs + [v])
  {
    hide WfValue;
    assert (vs + [v])[..|vs|] == vs;
  }

  /** The encoding of an array from its front. */
  lemma {:induction false} FirstItem(t: LType, vs: seq<Value>)
    requires WfAll(t, vs) && Packable(t)
    ensures vs != [] ==> WfValue(t, vs[0]) && WfAll(t, vs[1..]) && EncAll(t, vs) == EncScalar(t, vs[0]) + EncAll(t, vs[1..])
    ensures vs == [] ==> EncAll(t, vs) == []
    decreases |vs|
  {
    hide EncScalar, WfValue;
    if |vs| == 1 {
      assert vs[1..] == [] && vs[..0] == [];
      NotSub(t, vs[0]);
      assert EncAll(t, []) == [];
    } else if |vs| > 1 {
      var init, last := vs[..|vs| - 1], vs[|vs| - 1];
      FirstItem(t, init);
      assert init[1..] == vs[1..][..|vs| - 2];
      NotSub(t, last);
    }
  }

  lemma {:induction false} NotSub(t: LType, v: Value)
    requires Packable(t)
    ensures EncValue(t, v) == EncScalar(t, v)
  {
  }

  lemma {:induction false} NoItemsLeft(t: LType, left: seq<Value>)
    requires WfAll(t, left) && Packable(t)
    ensures |EncAll(t, left)| >= |left|
  {
    hide WfValue;
    if left != [] {
      NoItemsLeft(t, left[..|left| - 1]);
      NotSub(t, left[|left| - 1]);
      SomeBytes(t, left[|left| - 1]);
    }
  }

  lemma {:induction false} SomeBytes(t: LType, v: Value)
    requires WfValue(t, v) && Packable(t)
    ensures |EncScalar(t, v)| >= 1
  {
  }

  /** pb_dec_submessage: a repeated one starts from the defaults, others from what the struct holds. */
  method DecodeSubmessage(stream: IStream, fs: seq<Field>, repeated: bool, was: Message, ghost m: Message, ghost more: Bytes)
    returns (ok: bool, r: Message)
    requires stream.Valid() && WfDescriptor(fs) && WfMessage(fs, was)
    modifies stream
    ensures stream.Valid() && stream.bytesLeft <= old(stream.bytesLeft)
    ensures stream.state + stream.bytesLeft <= old(stream.state) + old(stream.bytesLeft)
    ensures ok ==> stream.state + stream.bytesLeft == old(stream.state) + old(stream.bytesLeft)
    ensures ok ==> WfMessage(fs, r) && Took(old(stream.Rest()), WT_STRING, old(stream.bytesLeft) - stream.bytesLeft)
    ensures SubExpected(fs, repeated, was, m, more, old(stream.Rest())) ==> ok && r == m && stream.Rest() == more
    ensures ok <==> AcceptSlice(old(stream.Rest())) && AcceptMessage(fs, Payload(old(stream.Rest())), if repeated then Fresh(fs) else was)
    ensures ok ==> r == Walked(fs, Payload(old(stream.Rest())), if repeated then Fresh(fs) else was)
    decreases stream.bytesLeft, 1
  {
    hide WfMessage, WfDescriptor, EncFields, PutVarint, Fresh, Took, RequiredPresent, WholeRecords, AcceptSlice, Payload, AcceptMessage, Walked;
    var sub;
    r := was;
    ghost var good := SubExpected(fs, repeated, was, m, more, stream.Rest());
    ok, sub := MakeSubstream(stream, EncFields(fs, m, |fs|), more);
    if !ok {
      return;
    }
    FreshWf(fs);
    ok, r := DecodeNoInit(sub, fs, if repeated then Fresh(fs) else was, m);
    var closed := CloseSubstream(stream, sub);
  }

  ghost predicate SubExpected(fs: seq<Field>, repeated: bool, was: Message, m: Message, more: Bytes, rest: Bytes) {
    && WfMessage(fs, m) && (repeated || was == Fresh(fs)) && |rest| < TWO32
    && rest == PutSlice(EncFields(fs, m, |fs|)) + more
  }

  method DecodeValue(stream: IStream, t: LType, repeated: bool, was: Value, ghost v: Value, ghost more: Bytes)
    returns (ok: bool, r: Value)
    requires stream.Valid() && WfType(t) && WfValue(t, was)
    modifies stream
    ensures stream.Valid() && stream.bytesLeft <= old(stream.bytesLeft)
    ensures stream.state + stream.bytesLeft <= old(stream.state) + old(stream.bytesLeft)
    ensures ok ==> stream.state + stream.bytesLeft == old(stream.state) + old(stream.bytesLeft)
    ensures ok ==> WfValue(t, r) && Took(old(stream.Rest()), WireType(t), old(stream.bytesLeft) - stream.bytesLeft)
    ensures WfValue(t, v) && (repeated || was == Default(t)) && ValueExpected(t, v, more, old(stream.Rest())) ==>
        ok && r == v && stream.Rest() == more
    ensures ok <==> AcceptValue(t, old(stream.Rest()), if repeated then Default(t) else was)
    ensures ok ==> r == ValueOf(t, old(stream.Rest()), if repeated then Default(t) else was)
    decreases stream.bytesLeft, 2
  {
    hide EncFields, EncScalar, Took, AcceptSlice, Payload, AcceptMessage, Walked, AcceptScalar, ScalarOf;
    NoBytes();
    if t.SubT? {
      var msg;
      ok, msg := DecodeSubmessage(stream, t.fields, repeated, was.msg, if v.Sub? then v.msg else was.msg, more);
      r := Sub(msg);
    } else {
      ok, r := DecodeScalar(stream, t, v, more);
    }
  }

  lemma {:induction false} NoBytes()
    ensures !AcceptSlice([])
  {
  }

  ghost predicate ValueExpected(t: LType, v: Value, more: Bytes, rest: Bytes) {
    rest == EncValue(t, v) + more && |rest| < TWO32
  }

  /** decode_static_field. */
  method DecodeField(stream: IStream, f: Field, wire: nat, slot: Slot, ghost body: Bytes, ghost after: Slot, ghost more: Bytes)
    returns (ok: bool, r: Slot)
    requires stream.Valid() && WfField(f) && WfSlot(f, slot)
    modifies stream
    ensures stream.Valid() && stream.bytesLeft <= old(stream.bytesLeft)
    ensures stream.state + stream.bytesLeft <= old(stream.state) + old(stream.bytesLeft)
    ensures ok ==> stream.state + stream.bytesLeft == old(stream.state) + old(stream.bytesLeft)
    ensures ok ==> WfSlot(f, r) && Took(old(stream.Rest()), FieldWire(f, wire), old(stream.bytesLeft) - stream.bytesLeft)
    ensures FieldBody(f, slot, wire, body, after) && old(stream.Rest()) == body + more && old(stream.bytesLeft) < TWO32 ==>
        ok && r == after && stream.Rest() == more
    ensures ok <==> AcceptField(f, wire, old(stream.Rest()), slot)
    ensures ok ==> r == SlotAfter(f, wire, old(stream.Rest()), slot)
    decreases stream.bytesLeft, 3
  {
    hide WfValue, WfAll, EncValue, EncAll, PutVarint, WfType, Took, AcceptSlice, Payload, AcceptItems, PackedItems, AcceptValue, ValueOf;
    r := slot;
    DefaultWf(f.ltype);
    if f.rule.Repeated? {
      ghost var vs: seq<Value> := if after.Many? && |slot.vs| <= |after.vs| then after.vs[|slot.vs|..] else [];
      var items;
      if wire == WT_STRING && Packable(f.ltype) {
        ok, items := DecodePacked(stream, f.ltype, f.rule.max, slot.vs, vs, more);
        r := Many(items);
      } else {
        if |slot.vs| >= f.rule.max {
          return false, r;
        }
        var v;
        ok, v := DecodeValue(stream, f.ltype, true, Default(f.ltype), if vs == [] then Num(0) else vs[0], more);
        if ok {
          AppendWf(f.ltype, slot.vs, v);
          r := Many(slot.vs + [v]);
        }
      }
    } else {
      var v;
      ok, v := DecodeValue(stream, f.ltype, false, if slot.One? then slot.v else Default(f.ltype), if after.One? then after.v else Num(0), more);
      if ok {
        r := One(v);
      }
    }
  }

  datatype Status = Failed | Ended | Skipped | Decoded

  /** One round of pb_decode_noinit: a key and, if its field is known, what follows. */
  method DecodeOne(stream: IStream, iter: FieldIter, dest: Message, ghost m: Message, ghost u: Unit) returns (status: Status, r: Message)
    requires stream.Valid() && stream.bytesLeft > 0 && iter.Valid() && WfDescriptor(iter.fields) && WfMessage(iter.fields, dest)
    modifies stream, iter
    ensures stream.Valid() && iter.Valid() && stream.bytesLeft <= old(stream.bytesLeft)
    ensures status.Skipped? || status.Decoded? ==> stream.bytesLeft < old(stream.bytesLeft)
    ensures stream.state + stream.bytesLeft <= old(stream.state) + old(stream.bytesLeft)
    ensures status != Failed ==> stream.state + stream.bytesLeft == old(stream.state) + old(stream.bytesLeft)
    ensures status != Failed ==> WfMessage(iter.fields, r)
    ensures status.Ended? ==> EndsHere(old(stream.Rest()))
    ensures status.Skipped? || status.Decoded? ==>
      var front := FrontRecord(iter.fields, old(stream.Rest()));
      && front.Some? && front.value.size == old(stream.bytesLeft) - stream.bytesLeft
      && if status.Decoded? then iter.pos < |iter.fields| && iter.fields[iter.pos].tag == front.value.tag
         else r == dest && forall i | 0 <= i < |iter.fields| :: iter.fields[i].tag != front.value.tag
    ensures NextUnit(iter.fields, m, dest, old(stream.Rest()), u) && old(stream.bytesLeft) < TWO32 ==>
      status == Decoded && iter.pos == u.field && r == Message(dest.slots[u.field := u.after])
      && stream.Rest() == After(iter.fields, m, u.i, u.j)
    ensures status.Failed? ==> !AcceptWalk(iter.fields, old(stream.Rest()), dest)
    ensures status.Ended? ==> r == dest && AcceptWalk(iter.fields, old(stream.Rest()), dest) && Walked(iter.fields, old(stream.Rest()), dest) == dest
    ensures status.Skipped? || status.Decoded? ==> PassedOne(iter.fields, old(stream.Rest()), dest, stream.Rest(), r)
    decreases stream.bytesLeft, 0
  {
    hide KeyAt, Took, FrontRecord, ValueWire, Reads32, DistinctTags, FieldBody, FieldWire, NextUnit, After, WfSlots, WfFields, EncTag,
      AcceptWalk, Walked, Accept32, Number32, AcceptRecord, RecordInto, AcceptField, SlotAfter, AcceptSkip, Body, PassedOne;
    ghost var fs, good := iter.fields, NextUnit(iter.fields, m, dest, stream.Rest(), u) && stream.bytesLeft < TWO32;
    r := dest;
    ghost var rest0 := stream.Rest();
    ghost var more := After1(fs, m, u);
    if good {
      UnitParts(fs, m, dest, stream.Rest(), u);
    }
    var ok, wire, tag, eof := stream.DecodeTag(u.wire, if u.field < |fs| then fs[u.field].tag else 1, u.body + more);
    if !ok {
      status := if eof then Ended else Failed;
      NoRecord(fs, rest0, dest);
      return;
    }
    ghost var k := |rest0| - stream.bytesLeft;
    assert stream.Rest() == rest0[k..];
    BodyIs(rest0, wire, tag, k);
    var found := iter.Find(tag);
    if !found {
      UnknownWire(fs, tag, wire);
      ok := SkipField(stream, wire, [], []);
      status := if ok then Skipped else Failed;
      if ok {
        FrontIs(fs, rest0, wire, tag, k, |rest0| - k - stream.bytesLeft);
        assert stream.Rest() == rest0[|rest0| - stream.bytesLeft..];
      }
      PassUnknown(fs, rest0, dest);
      return;
    }
    if good {
      TagsTell(fs, iter.pos, u.field);
    }
    ok, r := TakeField(stream, iter.fields, iter.pos, wire, dest, rest0, k, u.body, u.after, more);
    status := if ok then Decoded else Failed;
  }

  /** decode_field, behind the key of field i, which took the first k bytes of rest0. */
  method TakeField(stream: IStream, fs: seq<Field>, i: nat, wire: nat, dest: Message, ghost rest0: Bytes, ghost k: nat,
                   ghost body: Bytes, ghost after: Slot, ghost more: Bytes) returns (ok: bool, r: Message)
    requires stream.Valid() && WfDescriptor(fs) && WfMessage(fs, dest) && i < |fs|
    requires 0 < k <= |rest0| && stream.Rest() == rest0[k..] && KeyAt(rest0, wire, fs[i].tag, k)
    requires Accept32(rest0) && Number32(rest0) != 0 && Number32(rest0) / 8 == fs[i].tag && Number32(rest0) % 8 == wire
    modifies stream
    ensures stream.Valid() && stream.bytesLeft <= old(stream.bytesLeft)
    ensures stream.state + stream.bytesLeft <= old(stream.state) + old(stream.bytesLeft)
    ensures ok ==> stream.state + stream.bytesLeft == old(stream.state) + old(stream.bytesLeft)
    ensures ok ==> WfMessage(fs, r) && FrontRecord(fs, rest0) == Some(Front(fs[i].tag, |rest0| - stream.bytesLeft))
    ensures !ok ==> !AcceptWalk(fs, rest0, dest)
    ensures ok ==> PassedOne(fs, rest0, dest, stream.Rest(), r)
    ensures FieldBody(fs[i], dest.slots[i], wire, body, after) && old(stream.Rest()) == body + more && old(stream.bytesLeft) < TWO32 ==>
        ok && r == Message(dest.slots[i := after]) && stream.Rest() == more
    decreases stream.bytesLeft, 4
  {
    hide KeyAt, Took, FrontRecord, ValueWire, Reads32, DistinctTags, FieldBody, FieldWire, WfSlots, WfFields,
      AcceptWalk, Walked, Accept32, Number32, AcceptRecord, RecordInto, AcceptField, SlotAfter, AcceptSkip, Body, PassedOne;
    BodyIs(rest0, wire, fs[i].tag, k);
    WfFieldAt(fs, |fs|, i);
    WfSlotAt(fs, dest, |fs|, i);
    ghost var rest := stream.Rest();
    var slot;
    ok, slot := DecodeField(stream, fs[i], wire, dest.slots[i], body, after, more);
    PassKnown(fs, rest0, dest, i);
    r := dest;
    if ok {
      KnownWire(fs, i, wire);
      FrontIs(fs, rest0, wire, fs[i].tag, k, |rest0| - k - stream.bytesLeft);
      StoreWf(fs, dest, |fs|, i, slot);
      r := Message(dest.slots[i := slot]);
      assert stream.Rest() == rest[|rest| - stream.bytesLeft..];
      assert stream.Rest() == rest0[k..][|rest| - stream.bytesLeft..];
    }
  }

  /** One record of rest0 has been taken into r; the outcome depends on rest. */
  ghost predicate PassedOne(fs: seq<Field>, rest0: Bytes, dest: Message, rest: Bytes, r: Message) {
    Walked(fs, rest0, dest) == Walked(fs, rest, r) && AcceptWalk(fs, rest0, dest) == AcceptWalk(fs, rest, r)
  }

  lemma {:induction false} NoRecord(fs: seq<Field>, b: Bytes, dest: Message)
    requires b != []
    ensures Accept32(b) && Number32(b) == 0 ==> AcceptWalk(fs, b, dest) && Walked(fs, b, dest) == dest
    ensures !Accept32(b) ==> !AcceptWalk(fs, b, dest)
  {
    hide Accept32, FieldSize, RecordInto, AcceptRecord;
    if Accept32(b) && Number32(b) == 0 {
      AcceptedIsNumber(b);
    }
  }

  lemma {:induction false} BodyIs(b: Bytes, wire: nat, tag: nat, k: nat)
    requires KeyAt(b, wire, tag, k) && k <= |b|
    ensures Body(b) == b[k..]
  {
  }

  lemma {:induction false} PassUnknown(fs: seq<Field>, b: Bytes, dest: Message)
    requires b != [] && Accept32(b) && Number32(b) != 0 && forall i | 0 <= i < |fs| :: fs[i].tag != Number32(b) / 8
    ensures !AcceptSkip(Body(b), Number32(b) % 8) ==> !AcceptWalk(fs, b, dest)
    ensures AcceptSkip(Body(b), Number32(b) % 8) && FrontRecord(fs, b).Some? ==>
              PassedOne(fs, b, dest, b[FrontRecord(fs, b).value.size..], dest)
  {
    hide Accept32, FieldSize, AcceptSkip, FrontRecord, Number32, Body, SlotAfter, AcceptField, Walked, AcceptWalk;
    AcceptStep(fs, b, dest);
    if FrontRecord(fs, b).Some? {
      WalkStep(fs, b, dest);
    }
  }

  lemma {:induction false} PassKnown(fs: seq<Field>, b: Bytes, dest: Message, i: nat)
    requires b != [] && Accept32(b) && Number32(b) != 0 && DistinctTags(fs) && |fs| == |dest.slots|
    requires i < |fs| && fs[i].tag == Number32(b) / 8
    ensures !AcceptField(fs[i], Number32(b) % 8, Body(b), dest.slots[i]) ==> !AcceptWalk(fs, b, dest)
    ensures AcceptField(fs[i], Number32(b) % 8, Body(b), dest.slots[i]) && FrontRecord(fs, b).Some? ==>
              PassedOne(fs, b, dest, b[FrontRecord(fs, b).value.size..],
                        Message(dest.slots[i := SlotAfter(fs[i], Number32(b) % 8, Body(b), dest.slots[i])]))
  {
    hide Accept32, FieldSize, AcceptSkip, FrontRecord, Number32, Body, SlotAfter, AcceptField, Walked, AcceptWalk;
    AcceptStep(fs, b, dest);
    if FrontRecord(fs, b).Some? {
      WalkStep(fs, b, dest);
    }
    TagsTell(fs, i, IndexOf(fs, Number32(b) / 8));
  }

  ghost function After1(fs: seq<Field>, m: Message, u: Unit): Bytes {
    if u.i <= |fs| then After(fs, m, u.i, u.j) else []
  }

  lemma {:induction false} UnitParts(fs: seq<Field>, m: Message, dest: Message, rest: Bytes, u: Unit)
    requires NextUnit(fs, m, dest, rest, u) && WfDescriptor(fs)
    ensures u.field < |fs| == |dest.slots| && u.wire < 8 && u.i <= |fs|
    ensures rest == EncTag(u.wire, fs[u.field].tag) + (u.body + After1(fs, m, u))
    ensures FieldBody(fs[u.field], dest.slots[u.field], u.wire, u.body, u.after) && 0 < fs[u.field].tag < 0x2000_0000
  {
    hide After, EncTag;
    WfFieldAt(fs, |fs|, u.field);
  }

  lemma {:induction false} TagsTell(fs: seq<Field>, i: nat, j: nat)
    requires DistinctTags(fs) && i < |fs| && j < |fs| && fs[i].tag == fs[j].tag
    ensures i == j
  {
  }

  /** fields_seen[index >> 5] |= 1 << (index & 31), for the required fields it has bits for. */
  method SetBit(iter: FieldIter, words: seq<Word>) returns (r: seq<Word>)
    requires iter.Valid() && iter.pos < |iter.fields| && |words| == 2
    ensures |r| == 2 && r == Mark(iter.fields, words, iter.pos)
  {
    r := words;
    if iter.fields[iter.pos].rule.Required? && iter.requiredFieldIndex < MAX_REQUIRED {
      var index := iter.requiredFieldIndex;
      r := words[index / 32 := words[index / 32] + {index % 32}];
    }
  }

  /** The number of required fields, found by going on to the end of the descriptor. */
  method CountRequired(iter: FieldIter) returns (count: nat)
    requires iter.Valid()
    modifies iter
    ensures iter.Valid() && count == RequiredBefore(iter.fields, |iter.fields|)
  {
    if iter.fields == [] {
      return 0;
    }
    var last := iter.pos;
    count := iter.requiredFieldIndex;
    var more := iter.Next();
    while more
      invariant iter.Valid() && last < |iter.fields| && count == RequiredBefore(iter.fields, last)
      invariant if more then iter.pos == last + 1 else last + 1 == |iter.fields|
      decreases |iter.fields| - last
    {
      last, count := iter.pos, iter.requiredFieldIndex;
      more := iter.Next();
    }
    if iter.fields[last].rule.Required? {
      count := count + 1;
    }
  }

  lemma {:induction false} NothingSeen(fs: seq<Field>)
    ensures SeenBits(fs, {}, [{}, {}])
  {
    var words: seq<Word> := [{}, {}];
    forall w: nat, b: nat | w < 2 ensures BitRight(fs, {}, words[w], w, b) {
    }
  }

  /** pb_decode_noinit. Of the encoding of a message it makes that message; of any bytes, if it
      accepts them, a message that fits its descriptor, and then each of the first 64 required fields has its key there. */
  method DecodeNoInit(stream: IStream, fs: seq<Field>, dest: Message, ghost m: Message) returns (ok: bool, r: Message)
    requires stream.Valid() && WfDescriptor(fs) && WfMessage(fs, dest)
    modifies stream
    ensures stream.Valid() && stream.state + stream.bytesLeft <= old(stream.state) + old(stream.bytesLeft)
    ensures ok ==> stream.state + stream.bytesLeft == old(stream.state) + old(stream.bytesLeft)
    ensures ok ==> WfMessage(fs, r) && WholeRecords(fs, old(stream.Rest())) && RequiredPresent(fs, old(stream.Rest()))
    ensures Encoded(fs, dest, m, old(stream.Rest())) ==> ok && r == m && stream.bytesLeft == 0
    ensures ok <==> AcceptMessage(fs, old(stream.Rest()), dest)
    ensures ok ==> r == Walked(fs, old(stream.Rest()), dest)
    decreases stream.bytesLeft, 4
  {
    hide PassedOne, AcceptWalk, Walked, NothingMissed, FrontRecord, HasRecord, WholeRecords, EndsHere, Leads, AllRecorded, RequiredPresent, WfDescriptor, WfMessage, Encoded, Tracking, SeenBits, Mark, RequiredBefore, AllSeen, NextUnit, WordsFull, After;
    ghost var good := Encoded(fs, dest, m, stream.Rest());
    var iter := new FieldIter(fs);
    var fieldsSeen: seq<Word> := [{}, {}];
    ghost var rest0 := stream.Rest();
    ghost var seen: set<nat> := {};
    r := dest;
    ghost var i: nat, j: nat := 0, 0;
    ghost var ended := false;
    NothingSeen(fs);
    NothingWalked(fs, rest0);
    NothingPassed(fs, rest0, dest);
    if good {
      TrackingStarts(fs, dest, m, stream.Rest());
    }
    while stream.bytesLeft > 0
      invariant stream.Valid() && stream.state + stream.bytesLeft == old(stream.state) + old(stream.bytesLeft)
      invariant stream.bytesLeft <= old(stream.bytesLeft)
      invariant fresh(iter) && iter.Valid() && iter.fields == fs
      invariant WfMessage(fs, r) && SeenBits(fs, seen, fieldsSeen) && |fieldsSeen| == 2
      invariant !ended && AllRecorded(fs, seen, rest0) && Leads(fs, rest0, stream.Rest())
      invariant good ==> Tracking(fs, m, r, i, j, seen, stream.Rest())
      invariant PassedOne(fs, rest0, dest, stream.Rest(), r) && NothingMissed(fs, seen, rest0, stream.Rest())
      decreases stream.bytesLeft
    {
      ghost var u := Unit(0, 0, [], Off, 0, 0);
      if good {
        u := TrackNext(fs, m, r, i, j, seen, stream.Rest());
      }
      ghost var rest, was := stream.Rest(), r;
      var status;
      status, r := DecodeOne(stream, iter, r, m, u);
      if status == Failed {
        PassedFails(fs, rest0, dest, rest, was);
        return false, r;
      }
      if status == Ended {
        PassedEnds(fs, seen, rest0, dest, rest, r);
        LeadsToEnd(fs, rest0, rest);
        ended := true;
        break;
      }
      LeadsOn(fs, rest0, rest);
      PassedMore(fs, rest0, dest, rest, was, stream.Rest(), r);
      assert stream.Rest() == rest[|rest| - stream.bytesLeft..];
      if status == Decoded {
        SawOne(fs, seen, rest0, rest, iter.pos);
        MarkSeen(fs, seen, fieldsSeen, iter.pos);
        fieldsSeen := SetBit(iter, fieldsSeen);
        OneMoreRecord(fs, seen, iter.pos, rest0);
        seen := seen + {iter.pos};
        if good {
          i, j := u.i, u.j;
        }
      } else {
        SkippedOne(fs, seen, rest0, rest);
      }
    }
    if !ended {
      NothingMore();
      LeadsToEnd(fs, rest0, stream.Rest());
      AcceptEnd(fs, stream.Rest(), r);
      PassedEnds(fs, seen, rest0, dest, stream.Rest(), r);
    }
    var count := CountRequired(iter);
    WordsFullIff(fs, seen, fieldsSeen);
    ok := WordsFull(fieldsSeen, if count > MAX_REQUIRED then MAX_REQUIRED else count);
    if good {
      TrackingEnds(fs, m, r, i, j, seen, stream.Rest());
      AllSeenIs(fs, seen);
    }
    if ok {
      SeenIsPresent(fs, seen, rest0);
    }
    PresentIsSeen(fs, seen, rest0);
  }

  lemma {:induction false} NothingPassed(fs: seq<Field>, b: Bytes, dest: Message)
    ensures PassedOne(fs, b, dest, b, dest) && NothingMissed(fs, {}, b, b)
  {
  }

  lemma {:induction false} PassedMore(fs: seq<Field>, rest0: Bytes, dest: Message, rest: Bytes, r: Message, next: Bytes, n: Message)
    requires PassedOne(fs, rest0, dest, rest, r) && PassedOne(fs, rest, r, next, n)
    ensures PassedOne(fs, rest0, dest, next, n)
  {
    hide Walked, AcceptWalk;
  }

  lemma {:induction false} PassedFails(fs: seq<Field>, rest0: Bytes, dest: Message, rest: Bytes, r: Message)
    requires PassedOne(fs, rest0, dest, rest, r) && !AcceptWalk(fs, rest, r)
    ensures !AcceptMessage(fs, rest0, dest)
  {
    hide Walked, AcceptWalk, RequiredPresent;
  }

  lemma {:induction false} AcceptEnd(fs: seq<Field>, b: Bytes, dest: Message)
    requires b == []
    ensures AcceptWalk(fs, b, dest) && Walked(fs, b, dest) == dest
  {
  }

  /** At the end of the walk everything has been passed and nothing missed. */
  lemma {:induction false} PassedEnds(fs: seq<Field>, seen: set<nat>, rest0: Bytes, dest: Message, rest: Bytes, r: Message)
    requires PassedOne(fs, rest0, dest, rest, r) && AcceptWalk(fs, rest, r) && Walked(fs, rest, r) == r && EndsHere(rest)
    requires NothingMissed(fs, seen, rest0, rest)
    ensures Walked(fs, rest0, dest) == r && (AcceptMessage(fs, rest0, dest) <==> RequiredPresent(fs, rest0))
    ensures forall k: nat | k < |fs| :: HasRecord(fs, rest0, fs[k].tag) ==> k in seen
  {
    hide Walked, AcceptWalk, RequiredPresent;
    EndHasNone(fs, rest);
  }

  lemma {:induction false} EndHasNone(fs: seq<Field>, b: Bytes)
    requires EndsHere(b)
    ensures forall tag :: !HasRecord(fs, b, tag)
  {
    hide FieldSize;
    if b != [] {
      var size :| Reads32(b, 0, size);
    }
    assert FrontRecord(fs, b).None?;
  }

  /** Each field with a record in rest0 has been seen or has one in rest. */
  ghost predicate NothingMissed(fs: seq<Field>, seen: set<nat>, rest0: Bytes, rest: Bytes) {
    forall k: nat | k < |fs| && HasRecord(fs, rest0, fs[k].tag) :: k in seen || HasRecord(fs, rest, fs[k].tag)
  }

  lemma {:induction false} SawOne(fs: seq<Field>, seen: set<nat>, rest0: Bytes, rest: Bytes, i: nat)
    requires NothingMissed(fs, seen, rest0, rest) && FrontRecord(fs, rest).Some? && WfDescriptor(fs)
    requires i < |fs| && fs[i].tag == FrontRecord(fs, rest).value.tag
    ensures NothingMissed(fs, seen + {i}, rest0, rest[FrontRecord(fs, rest).value.size..])
  {
    hide FrontRecord;
    forall k: nat | k < |fs| && HasRecord(fs, rest0, fs[k].tag)
      ensures k in seen + {i} || HasRecord(fs, rest[FrontRecord(fs, rest).value.size..], fs[k].tag)
    {
      assert k in seen || HasRecord(fs, rest, fs[k].tag);
    }
  }

  lemma {:induction false} SkippedOne(fs: seq<Field>, seen: set<nat>, rest0: Bytes, rest: Bytes)
    requires NothingMissed(fs, seen, rest0, rest) && FrontRecord(fs, rest).Some?
    requires forall i | 0 <= i < |fs| :: fs[i].tag != FrontRecord(fs, rest).value.tag
    ensures NothingMissed(fs, seen, rest0, rest[FrontRecord(fs, rest).value.size..])
  {
    hide FrontRecord;
    forall k: nat | k < |fs| && HasRecord(fs, rest0, fs[k].tag)
      ensures k in seen || HasRecord(fs, rest[FrontRecord(fs, rest).value.size..], fs[k].tag)
    {
      assert k in seen || HasRecord(fs, rest, fs[k].tag);
    }
  }

  lemma {:induction false} PresentIsSeen(fs: seq<Field>, seen: set<nat>, b: Bytes)
    requires forall k: nat | k < |fs| :: HasRecord(fs, b, fs[k].tag) ==> k in seen
    ensures RequiredPresent(fs, b) ==> AllSeen(fs, seen)
  {
    hide HasRecord, RequiredBefore;
  }

  lemma {:induction false} AllSeenIs(fs: seq<Field>, seen: set<nat>)
    requires forall k: nat | k < |fs| && fs[k].rule.Required? :: k in seen
    ensures AllSeen(fs, seen)
  {
  }

  /** pb_decode. */
  method Decode(stream: IStream, fs: seq<Field>, ghost m: Message) returns (ok: bool, r: Message)
    requires stream.Valid() && WfDescriptor(fs)
    modifies stream
    ensures ok ==> WfMessage(fs, r) && WholeRecords(fs, old(stream.Rest())) && RequiredPresent(fs, old(stream.Rest()))
    ensures Encoded(fs, Fresh(fs), m, old(stream.Rest())) ==> ok && r == m
    ensures ok <==> AcceptMessage(fs, old(stream.Rest()), Fresh(fs))
    ensures ok ==> r == Walked(fs, old(stream.Rest()), Fresh(fs))
  {
    FreshWf(fs);
    ok, r := DecodeNoInit(stream, fs, Fresh(fs), m);
  }

  /** Decoding undoes encoding, for every descriptor and every message that fits it. */
  method RoundTrip(fs: seq<Field>, m: Message) returns (ok: bool, r: Message)
    requires WfDescriptor(fs) && WfMessage(fs, m) && |EncFields(fs, m, |fs|)| < TWO32
    ensures ok && r == m
  {
    hide WfMessage, WfDescriptor, EncFields;
    var data := EncodeMessage(fs, m);
    var stream := new IStream(data, 0, |data|);
    assert data[0..|data|] == data;
    ok, r := Decode(stream, fs, m);
  }
}
