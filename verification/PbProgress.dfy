/** How far a decoder has come in the encoding of a message. */
module PbProgress {
  import opened Basics
  import opened Varints
  import opened PbFormat

  /** An encoding continues behind any prefix of it with what the next part adds. */
  lemma {:induction false} PrefixSplits(e: Bytes, a: Bytes, u: Bytes)
    requires a + u <= e
    ensures e[|a|..] == u + e[|a + u|..]
  {
    assert e == (a + u) + e[|a + u|..];
  }

  lemma {:induction false} FieldsPrefix(fs: seq<Field>, m: Message, i: nat, n: nat)
    requires i <= n <= |fs|
    ensures EncFields(fs, m, i) <= EncFields(fs, m, n)
    decreases n
  {
    hide EncSlot;
    if i < n {
      FieldsPrefix(fs, m, i, n - 1);
    }
  }

  lemma {:induction false} TaggedPrefix(f: Field, vs: seq<Value>, j: nat)
    requires j <= |vs|
    ensures EncTagged(f, vs[..j]) <= EncTagged(f, vs)
    decreases |vs|
  {
    hide EncTag, EncValue;
    if j < |vs| {
      TaggedPrefix(f, vs[..|vs| - 1], j);
      assert vs[..|vs| - 1][..j] == vs[..j];
    } else {
      assert vs[..j] == vs;
    }
  }

  lemma {:induction false} TaggedStep(f: Field, vs: seq<Value>, j: nat)
    requires j < |vs|
    ensures EncTagged(f, vs[..j + 1]) == EncTagged(f, vs[..j]) + (EncTag(WireType(f.ltype), f.tag) + EncValue(f.ltype, vs[j]))
  {
    hide EncTag, EncValue;
    assert vs[..j + 1][..j] == vs[..j];
  }

  /** The repeated field that is written value by value, if field i is one. */
  function Items(fs: seq<Field>, m: Message, i: nat): seq<Value> {
    if i < |fs| && i < |m.slots| && m.slots[i].Many? && !Packable(fs[i].ltype) then m.slots[i].vs else []
  }

  /** Bytes of the fields before i and of the first j items of field i. */
  function Done(fs: seq<Field>, m: Message, i: nat, j: nat): Bytes
    requires i <= |fs|
  {
    EncFields(fs, m, i) + if i < |fs| && j <= |Items(fs, m, i)| then EncTagged(fs[i], Items(fs, m, i)[..j]) else []
  }

  predicate Place(fs: seq<Field>, m: Message, i: nat, j: nat) {
    |m.slots| == |fs| && i <= |fs| && (j > 0 ==> i < |fs| && j < |Items(fs, m, i)|)
  }

  lemma {:induction false} DonePrefix(fs: seq<Field>, m: Message, i: nat, j: nat)
    requires Place(fs, m, i, j)
    ensures Done(fs, m, i, j) <= EncFields(fs, m, |fs|)
    ensures j == 0 ==> Done(fs, m, i, j) == EncFields(fs, m, i)
  {
    hide EncFields, EncTagged;
    NoItems(fs, m, i);
    if j > 0 {
      ItemsBytes(fs, m, i);
      OneField(fs, m, i);
      TaggedPrefix(fs[i], Items(fs, m, i), j);
      FieldsPrefix(fs, m, i + 1, |fs|);
    } else {
      FieldsPrefix(fs, m, i, |fs|);
    }
  }

  lemma {:induction false} NoItems(fs: seq<Field>, m: Message, i: nat)
    ensures i < |fs| ==> EncTagged(fs[i], Items(fs, m, i)[..0]) == []
  {
  }

  lemma {:induction false} OneField(fs: seq<Field>, m: Message, i: nat)
    requires i < |fs| == |m.slots|
    ensures EncFields(fs, m, i + 1) == EncFields(fs, m, i) + EncSlot(fs[i], m.slots[i])
  {
    hide EncSlot;
  }

  lemma {:induction false} ItemsBytes(fs: seq<Field>, m: Message, i: nat)
    requires i < |fs| == |m.slots|
    ensures Items(fs, m, i) != [] ==> EncSlot(fs[i], m.slots[i]) == EncTagged(fs[i], Items(fs, m, i))
  {
    hide EncTagged;
  }

  /** The struct when that much has been decoded. */
  ghost predicate Filled(fs: seq<Field>, m: Message, dest: Message, i: nat, j: nat) {
    && |dest.slots| == |fs| == |m.slots|
    && forall k | 0 <= k < |fs| :: dest.slots[k] == FilledSlot(fs, m, i, j, k)
  }

  function FilledSlot(fs: seq<Field>, m: Message, i: nat, j: nat, k: nat): Slot
    requires k < |fs| && k < |m.slots|
  {
    if k < i then m.slots[k]
    else if k == i && 0 < j <= |Items(fs, m, i)| then Many(Items(fs, m, i)[..j])
    else DefaultSlot(fs[k])
  }

  /** What a field that writes nothing holds is its default. */
  lemma {:induction false} SilentIsDefault(f: Field, s: Slot)
    requires WfSlot(f, s) && EncSlot(f, s) == []
    ensures s == DefaultSlot(f)
  {
    hide EncAll;
    match s
    case Off =>
    case One(v) =>
      assert f.rule.Singular? && IsDefault(f.ltype, v);
      IsDefaultIsDefault(f.ltype, v);
    case Many(vs) =>
  }

  lemma {:induction false} RequiredSpeaks(f: Field, s: Slot)
    requires WfSlot(f, s) && f.rule.Required?
    ensures EncSlot(f, s) != []
  {
    assert EncTag(WireType(f.ltype), f.tag) != [];
  }

  /** Fields that write nothing are passed over. */
  lemma {:induction false} SkipSilent(fs: seq<Field>, m: Message, dest: Message, i: nat) returns (i1: nat)
    requires WfMessage(fs, m) && i <= |fs| && Filled(fs, m, dest, i, 0)
    ensures i <= i1 <= |fs| && Filled(fs, m, dest, i1, 0) && EncFields(fs, m, i1) == EncFields(fs, m, i)
    ensures i1 < |fs| ==> EncSlot(fs[i1], m.slots[i1]) != []
    ensures forall k | i <= k < i1 :: !fs[k].rule.Required?
    decreases |fs| - i
  {
    hide EncSlot, EncFields;
    i1 := i;
    if i < |fs| && EncSlot(fs[i], m.slots[i]) == [] {
      WfSlotAt(fs, m, |fs|, i);
      if fs[i].rule.Required? {
        RequiredSpeaks(fs[i], m.slots[i]);
      }
      SilentIsDefault(fs[i], m.slots[i]);
      OneField(fs, m, i);
      i1 := SkipSilent(fs, m, dest, i + 1);
    }
  }

  /** body is what one key of field f is followed by, and turns slot into after. */
  ghost predicate FieldBody(f: Field, slot: Slot, wire: nat, body: Bytes, after: Slot) {
    match f.rule
    case Repeated(max) =>
      && slot.Many? && after.Many? && |after.vs| <= max && slot.vs <= after.vs
      && var vs := after.vs[|slot.vs|..];
         if wire == WT_STRING && Packable(f.ltype) then vs != [] && body == PutSlice(EncAll(f.ltype, vs)) && WfAll(f.ltype, vs)
         else |vs| == 1 && body == EncValue(f.ltype, vs[0]) && WfValue(f.ltype, vs[0])
    case _ => after.One? && WfValue(f.ltype, after.v) && body == EncValue(f.ltype, after.v) && slot == DefaultSlot(f)
  }

  /** The bytes still to come. */
  function After(fs: seq<Field>, m: Message, i: nat, j: nat): Bytes
    requires i <= |fs|
  {
    var e, d := EncFields(fs, m, |fs|), Done(fs, m, i, j);
    if |d| <= |e| then e[|d|..] else []
  }

  datatype Unit = Unit(field: nat, wire: nat, body: Bytes, after: Slot, i: nat, j: nat)

  /** u comes next after `done` bytes of the encoding, and its effect on the struct is right. */
  ghost predicate NextUnit(fs: seq<Field>, m: Message, dest: Message, rest: Bytes, u: Unit) {
    && u.field < |fs| == |dest.slots| && u.wire < 8 && Place(fs, m, u.i, u.j)
    && (u.j == 0 || u.j <= |Items(fs, m, u.i)|)
    && rest == EncTag(u.wire, fs[u.field].tag) + (u.body + After(fs, m, u.i, u.j))
    && FieldBody(fs[u.field], dest.slots[u.field], u.wire, u.body, u.after)
    && Filled(fs, m, Message(dest.slots[u.field := u.after]), u.i, u.j)
  }

  lemma {:induction false} AfterSplits(fs: seq<Field>, m: Message, i: nat, j: nat, i1: nat, j1: nat, u: Bytes)
    requires Place(fs, m, i, j) && Place(fs, m, i1, j1) && Done(fs, m, i1, j1) == Done(fs, m, i, j) + u
    ensures After(fs, m, i, j) == u + After(fs, m, i1, j1)
  {
    hide Done, EncFields;
    DonePrefix(fs, m, i, j);
    DonePrefix(fs, m, i1, j1);
    PrefixSplits(EncFields(fs, m, |fs|), Done(fs, m, i, j), u);
  }

  lemma {:induction false} Regrouped(a: Bytes, b: Bytes, c: Bytes)
    ensures (a + b) + c == a + (b + c)
  {
  }

  /** A value behind its tag. */
  lemma {:induction false} ValueUnit(fs: seq<Field>, m: Message, dest: Message, i: nat) returns (u: Unit)
    ensures u.field == i && u.i <= i + 1
    requires WfMessage(fs, m) && i < |fs| && Filled(fs, m, dest, i, 0)
    requires m.slots[i].One? && EncSlot(fs[i], m.slots[i]) != []
    ensures NextUnit(fs, m, dest, After(fs, m, i, 0), u)
  {
    hide EncFields, EncTag, EncValue, After, Done, IsDefault;
    var f, s := fs[i], m.slots[i];
    WfSlotAt(fs, m, |fs|, i);
    u := Unit(i, WireType(f.ltype), EncValue(f.ltype, s.v), s, i + 1, 0);
    OneField(fs, m, i);
    DonePrefix(fs, m, i, 0);
    DonePrefix(fs, m, i + 1, 0);
    AfterSplits(fs, m, i, 0, i + 1, 0, EncTag(u.wire, f.tag) + u.body);
    Regrouped(EncTag(u.wire, f.tag), u.body, After(fs, m, i + 1, 0));
  }

  /** A packed array behind its tag. */
  lemma {:induction false} PackedUnit(fs: seq<Field>, m: Message, dest: Message, i: nat) returns (u: Unit)
    ensures u.field == i && u.i <= i + 1
    requires WfMessage(fs, m) && i < |fs| && Filled(fs, m, dest, i, 0)
    requires m.slots[i].Many? && m.slots[i].vs != [] && Packable(fs[i].ltype)
    ensures NextUnit(fs, m, dest, After(fs, m, i, 0), u)
  {
    hide EncFields, EncTag, EncAll, After, Done, WfAll, PutVarint;
    var f, s := fs[i], m.slots[i];
    WfSlotAt(fs, m, |fs|, i);
    assert dest.slots[i] == Many([]);
    assert s.vs[0..] == s.vs;
    u := Unit(i, WT_STRING, PutSlice(EncAll(f.ltype, s.vs)), s, i + 1, 0);
    OneField(fs, m, i);
    DonePrefix(fs, m, i, 0);
    DonePrefix(fs, m, i + 1, 0);
    AfterSplits(fs, m, i, 0, i + 1, 0, EncTag(u.wire, f.tag) + u.body);
    Regrouped(EncTag(u.wire, f.tag), u.body, After(fs, m, i + 1, 0));
  }

  /** The next item of a repeated field that is not packed. */
  lemma {:induction false} ItemUnit(fs: seq<Field>, m: Message, dest: Message, i: nat, j: nat) returns (u: Unit)
    ensures u.field == i && u.i <= i + 1
    requires WfMessage(fs, m) && i < |fs| && Filled(fs, m, dest, i, j) && j < |Items(fs, m, i)|
    ensures NextUnit(fs, m, dest, After(fs, m, i, j), u)
  {
    hide EncFields, EncTag, EncValue, After, WfAll, WfValue, EncTagged;
    var f, vs := fs[i], Items(fs, m, i);
    WfSlotAt(fs, m, |fs|, i);
    WfItem(f.ltype, vs, j);
    var last := j + 1 == |vs|;
    u := Unit(i, WireType(f.ltype), EncValue(f.ltype, vs[j]), Many(vs[..j + 1]), if last then i + 1 else i, if last then 0 else j + 1);
    assert vs[..j + 1][j..] == [vs[j]] && vs[..j + 1][..j] == vs[..j];
    assert vs[..|vs|] == vs;
    ItemBefore(fs, m, dest, i, j);
    ItemDone(fs, m, i, j);
    AfterSplits(fs, m, i, j, u.i, u.j, EncTag(u.wire, f.tag) + u.body);
    Regrouped(EncTag(u.wire, f.tag), u.body, After(fs, m, u.i, u.j));
    ItemFilled(fs, m, dest, i, j);
  }

  lemma {:induction false} WfItem(t: LType, vs: seq<Value>, j: nat)
    requires WfAll(t, vs) && j < |vs|
    ensures WfValue(t, vs[j])
  {
    hide WfValue;
    if j < |vs| - 1 {
      WfItem(t, vs[..|vs| - 1], j);
    }
  }

  lemma {:induction false} ItemBefore(fs: seq<Field>, m: Message, dest: Message, i: nat, j: nat)
    requires WfMessage(fs, m) && i < |fs| && Filled(fs, m, dest, i, j) && j < |Items(fs, m, i)|
    ensures fs[i].rule.Repeated? && dest.slots[i] == Many(Items(fs, m, i)[..j])
    ensures |Items(fs, m, i)| <= fs[i].rule.max
  {
    WfSlotAt(fs, m, |fs|, i);
  }

  lemma {:induction false} ItemDone(fs: seq<Field>, m: Message, i: nat, j: nat)
    requires i < |fs| == |m.slots| && j < |Items(fs, m, i)|
    ensures var f, vs := fs[i], Items(fs, m, i);
      var last := j + 1 == |vs|;
      Done(fs, m, if last then i + 1 else i, if last then 0 else j + 1)
        == Done(fs, m, i, j) + (EncTag(WireType(f.ltype), f.tag) + EncValue(f.ltype, vs[j]))
  {
    hide EncFields, EncTag, EncValue, EncTagged;
    var f, vs := fs[i], Items(fs, m, i);
    TaggedStep(f, vs, j);
    if j + 1 == |vs| {
      assert vs[..j + 1] == vs;
      ItemsBytes(fs, m, i);
      OneField(fs, m, i);
      DonePrefix(fs, m, i + 1, 0);
    }
    Regrouped(EncFields(fs, m, i), EncTagged(f, vs[..j]), EncTag(WireType(f.ltype), f.tag) + EncValue(f.ltype, vs[j]));
  }

  lemma {:induction false} ItemFilled(fs: seq<Field>, m: Message, dest: Message, i: nat, j: nat)
    requires |fs| == |m.slots| && i < |fs| && Filled(fs, m, dest, i, j) && j < |Items(fs, m, i)|
    ensures var vs := Items(fs, m, i);
      var last := j + 1 == |vs|;
      Filled(fs, m, Message(dest.slots[i := Many(vs[..j + 1])]), if last then i + 1 else i, if last then 0 else j + 1)
  {
    var vs := Items(fs, m, i);
    if j + 1 == |vs| {
      assert vs[..j + 1] == vs;
    }
  }

  /** While bytes are left there is a next unit. */
  lemma {:induction false} FindUnit(fs: seq<Field>, m: Message, dest: Message, i: nat, j: nat) returns (u: Unit)
    requires WfMessage(fs, m) && Place(fs, m, i, j) && Filled(fs, m, dest, i, j) && After(fs, m, i, j) != []
    ensures NextUnit(fs, m, dest, After(fs, m, i, j), u)
    ensures forall k | i <= k < u.i && k < |fs| :: k == u.field || !fs[k].rule.Required?
  {
    hide EncFields, Done, Filled, NextUnit, EncTagged;
    if j > 0 {
      u := ItemUnit(fs, m, dest, i, j);
    } else {
      var i1 := SkipSilent(fs, m, dest, i);
      DonePrefix(fs, m, i, 0);
      DonePrefix(fs, m, i1, 0);
      assert After(fs, m, i1, 0) == After(fs, m, i, 0);
      assert i1 < |fs|;
      u := FindUnit1(fs, m, dest, i1);
    }
  }

  lemma {:induction false} TagNotEmpty(wire: nat, tag: nat, more: Bytes)
    ensures EncTag(wire, tag) + more != []
  {
  }

  /** When nothing is left the struct holds the whole message. */
  lemma {:induction false} AllDecoded(fs: seq<Field>, m: Message, dest: Message, i: nat, j: nat)
    requires WfMessage(fs, m) && Place(fs, m, i, j) && Filled(fs, m, dest, i, j) && After(fs, m, i, j) == []
    ensures dest == m
    ensures forall k | i <= k < |fs| :: !fs[k].rule.Required?
  {
    hide EncFields, Done, EncTagged, After, EncTag;
    if j > 0 {
      var u := ItemUnit(fs, m, dest, i, j);
      TagNotEmpty(u.wire, fs[u.field].tag, u.body + After(fs, m, u.i, u.j));
    } else {
      var i1 := SkipSilent(fs, m, dest, i);
      SameAfter(fs, m, i, i1);
      if i1 < |fs| {
        var u := FindUnit1(fs, m, dest, i1);
        TagNotEmpty(u.wire, fs[u.field].tag, u.body + After(fs, m, u.i, u.j));
      }
      assert dest.slots == m.slots;
    }
  }

  lemma {:induction false} SameAfter(fs: seq<Field>, m: Message, i: nat, i1: nat)
    requires |m.slots| == |fs| && i <= |fs| && i1 <= |fs| && EncFields(fs, m, i1) == EncFields(fs, m, i)
    ensures After(fs, m, i1, 0) == After(fs, m, i, 0)
  {
    hide EncFields, Done;
    DonePrefix(fs, m, i, 0);
    DonePrefix(fs, m, i1, 0);
  }

  /** The next unit of a field that writes something. */
  lemma {:induction false} FindUnit1(fs: seq<Field>, m: Message, dest: Message, i: nat) returns (u: Unit)
    ensures u.field == i && u.i <= i + 1
    requires WfMessage(fs, m) && i < |fs| && Filled(fs, m, dest, i, 0) && EncSlot(fs[i], m.slots[i]) != []
    ensures NextUnit(fs, m, dest, After(fs, m, i, 0), u)
  {
    hide EncFields, Done, Filled, NextUnit, EncTagged, After;
    match m.slots[i]
    case Off =>
    case One(v) => u := ValueUnit(fs, m, dest, i);
    case Many(vs) =>
      if Packable(fs[i].ltype) {
        u := PackedUnit(fs, m, dest, i);
      } else {
        u := ItemUnit(fs, m, dest, i, 0);
      }
  }

  /** A decoder of the encoding of m that has come to (i, j), and what it has seen. */
  ghost predicate Tracking(fs: seq<Field>, m: Message, dest: Message, i: nat, j: nat, seen: set<nat>, rest: Bytes) {
    && WfMessage(fs, m) && Place(fs, m, i, j) && Filled(fs, m, dest, i, j)
    && rest == After(fs, m, i, j) && |rest| < TWO32
    && forall k: nat | k < i && k < |fs| && fs[k].rule.Required? :: k in seen
  }

  ghost predicate Encoded(fs: seq<Field>, dest: Message, m: Message, rest: Bytes) {
    WfMessage(fs, m) && dest == Fresh(fs) && rest == EncFields(fs, m, |fs|) && |rest| < TWO32
  }

  lemma {:induction false} TrackingStarts(fs: seq<Field>, dest: Message, m: Message, rest: Bytes)
    requires Encoded(fs, dest, m, rest)
    ensures Tracking(fs, m, dest, 0, 0, {}, rest)
  {
    hide WfSlots;
    DonePrefix(fs, m, 0, 0);
    forall k: nat | k < |fs| ensures dest.slots[k] == DefaultSlot(fs[k]) {
      DefaultsAt(fs, |fs|, k);
    }
  }

  lemma {:induction false} TrackNext(fs: seq<Field>, m: Message, dest: Message, i: nat, j: nat, seen: set<nat>, rest: Bytes) returns (u: Unit)
    requires Tracking(fs, m, dest, i, j, seen, rest) && rest != []
    ensures NextUnit(fs, m, dest, rest, u) && |rest| < TWO32
    ensures Tracking(fs, m, Message(dest.slots[u.field := u.after]), u.i, u.j, seen + {u.field}, After(fs, m, u.i, u.j))
  {
    hide After, Filled, WfMessage, FieldBody;
    u := FindUnit(fs, m, dest, i, j);
  }

  lemma {:induction false} TrackingEnds(fs: seq<Field>, m: Message, dest: Message, i: nat, j: nat, seen: set<nat>, rest: Bytes)
    requires Tracking(fs, m, dest, i, j, seen, rest) && rest == []
    ensures dest == m
    ensures forall k: nat | k < |fs| && fs[k].rule.Required? :: k in seen
  {
    hide After, Filled, WfMessage;
    AllDecoded(fs, m, dest, i, j);
  }
}
