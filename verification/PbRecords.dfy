/** The records of an encoded message as a decoder walks over them (pb_decode.c). */
module PbRecords {
  import opened Basics
  import opened Varints
  import opened PbFormat
  import opened PbIteration
  import opened PbReading

  /** The wire type that decides how much the decoder of a field reads: its own, but for a packed array. */
  function FieldWire(f: Field, wire: nat): nat {
    if f.rule.Repeated? && wire == WT_STRING && Packable(f.ltype) then WT_STRING else WireType(f.ltype)
  }

  /** The same for any tag; an unknown field is skipped by the wire type in its key. */
  function ValueWire(fs: seq<Field>, tag: nat, wire: nat): nat {
    if fs == [] then wire
    else if fs[0].tag == tag then FieldWire(fs[0], wire)
    else ValueWire(fs[1..], tag, wire)
  }

  /** The tag of a record and how many bytes it takes, key and value. */
  datatype Front = Front(tag: nat, size: nat)

  ghost function FrontRecord(fs: seq<Field>, b: Bytes): (r: Option<Front>)
    ensures r.Some? ==> 1 <= r.value.size <= |b|
  {
    match GetVarint(b, |b|)
    case None => None
    case Some(g) =>
      var key := g.value % TWO32;
      if key == 0 then None
      else
        match FieldSize(b[g.size..], ValueWire(fs, key / 8, key % 8))
        case None => None
        case Some(n) => Some(Front(key / 8, g.size + n))
  }

  /** One of the records of b, walked from its start, has this tag. */
  ghost predicate HasRecord(fs: seq<Field>, b: Bytes, tag: nat)
    decreases |b|
  {
    match FrontRecord(fs, b)
    case None => false
    case Some(f) => f.tag == tag || HasRecord(fs, b[f.size..], tag)
  }

  /** Nothing more to decode: the end of the input, or a key of zero. */
  ghost predicate EndsHere(b: Bytes) {
    b == [] || exists size :: Reads32(b, 0, size)
  }

  lemma {:induction false} NothingMore()
    ensures EndsHere([])
  {
  }

  /** b is whole records up to where decoding ends. */
  ghost predicate WholeRecords(fs: seq<Field>, b: Bytes)
    decreases |b|
  {
    EndsHere(b) || (FrontRecord(fs, b).Some? && WholeRecords(fs, b[FrontRecord(fs, b).value.size..]))
  }

  /** A walk over b comes to r. */
  ghost predicate Leads(fs: seq<Field>, b: Bytes, r: Bytes) {
    && (forall tag :: HasRecord(fs, r, tag) ==> HasRecord(fs, b, tag))
    && (WholeRecords(fs, r) ==> WholeRecords(fs, b))
  }

  /** Of the first 64 required fields, each has a record in b. */
  ghost predicate RequiredPresent(fs: seq<Field>, b: Bytes) {
    forall k: nat | k < |fs| && fs[k].rule.Required? && RequiredBefore(fs, k) < 64 :: HasRecord(fs, b, fs[k].tag)
  }

  /** Each field in seen has a record in b. */
  ghost predicate AllRecorded(fs: seq<Field>, seen: set<nat>, b: Bytes) {
    forall k | k in seen :: k < |fs| && HasRecord(fs, b, fs[k].tag)
  }

  lemma {:induction false} KnownWire(fs: seq<Field>, i: nat, wire: nat)
    requires DistinctTags(fs) && i < |fs|
    ensures ValueWire(fs, fs[i].tag, wire) == FieldWire(fs[i], wire)
  {
    if i > 0 {
      KnownWire(fs[1..], i - 1, wire);
    }
  }

  lemma {:induction false} UnknownWire(fs: seq<Field>, tag: nat, wire: nat)
    requires forall i | 0 <= i < |fs| :: fs[i].tag != tag
    ensures ValueWire(fs, tag, wire) == wire
  {
    if fs != [] {
      UnknownWire(fs[1..], tag, wire);
    }
  }

  lemma {:induction false} FrontIs(fs: seq<Field>, b: Bytes, wire: nat, tag: nat, k: nat, n: nat)
    requires KeyAt(b, wire, tag, k) && k <= |b| && Took(b[k..], ValueWire(fs, tag, wire), n)
    ensures FrontRecord(fs, b) == Some(Front(tag, k + n))
  {
  }

  /** Past one more record. */
  lemma {:induction false} LeadsOn(fs: seq<Field>, b: Bytes, r: Bytes)
    requires Leads(fs, b, r) && FrontRecord(fs, r).Some?
    ensures var f := FrontRecord(fs, r).value; Leads(fs, b, r[f.size..]) && HasRecord(fs, b, f.tag)
  {
    hide FrontRecord, EndsHere;
    var f := FrontRecord(fs, r).value;
    forall tag | HasRecord(fs, r[f.size..], tag) ensures HasRecord(fs, b, tag) {
      assert HasRecord(fs, r, tag);
    }
    assert HasRecord(fs, r, f.tag);
  }

  lemma {:induction false} LeadsToEnd(fs: seq<Field>, b: Bytes, r: Bytes)
    requires Leads(fs, b, r) && EndsHere(r)
    ensures WholeRecords(fs, b)
  {
    hide HasRecord, FrontRecord, EndsHere;
  }

  lemma {:induction false} OneMoreRecord(fs: seq<Field>, seen: set<nat>, k: nat, b: Bytes)
    requires AllRecorded(fs, seen, b) && k < |fs| && HasRecord(fs, b, fs[k].tag)
    ensures AllRecorded(fs, seen + {k}, b)
  {
    hide HasRecord;
  }

  lemma {:induction false} SeenIsPresent(fs: seq<Field>, seen: set<nat>, b: Bytes)
    requires AllSeen(fs, seen) && AllRecorded(fs, seen, b)
    ensures RequiredPresent(fs, b)
  {
    hide HasRecord, RequiredBefore;
  }

  lemma {:induction false} NothingWalked(fs: seq<Field>, b: Bytes)
    ensures Leads(fs, b, b) && AllRecorded(fs, {}, b)
  {
  }
}
