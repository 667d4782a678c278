/** Batches of updates as bytes (db/write_batch.cc). Keys are byte strings here. */
module WriteBatches {
  import opened Basics
  import opened Varints
  import InternalKeys

  /** An eight-byte sequence number and a four-byte count. */
  const HEADER: nat := 12

  datatype Record = Put(key: Bytes, value: Bytes) | Delete(key: Bytes)

  const TYPE_DELETION: nat := 0
  const TYPE_VALUE: nat := 1

  function PutRecord(r: Record): (b: Bytes)
    ensures b != []
  {
    match r
    case Put(key, value) => [TYPE_VALUE] + (PutSlice(key) + PutSlice(value))
    case Delete(key) => [TYPE_DELETION] + PutSlice(key)
  }

  function PutRecords(rs: seq<Record>): Bytes {
    if rs == [] then [] else PutRecord(rs[0]) + PutRecords(rs[1..])
  }

  function Header(sequence: nat, count: nat): (b: Bytes)
    ensures |b| == HEADER
  {
    LittleEndian(sequence, 8) + LittleEndian(count, 4)
  }

  predicate WfRecord(r: Record) {
    |r.key| < TWO32 && (r.Put? ==> |r.value| < TWO32)
  }

  predicate WfRecords(rs: seq<Record>) {
    forall i | 0 <= i < |rs| :: WfRecord(rs[i])
  }

  lemma {:induction false} PutRecordsAppend(a: seq<Record>, b: seq<Record>)
    ensures PutRecords(a + b) == PutRecords(a) + PutRecords(b)
  {
    hide PutRecord;
    if a == [] {
      assert a + b == b;
    } else {
      assert (a + b)[1..] == a[1..] + b;
      PutRecordsAppend(a[1..], b);
    }
  }

  lemma {:induction false} PutRecordsOne(r: Record)
    ensures PutRecords([r]) == PutRecord(r)
  {
    hide PutRecord;
    assert PutRecords([r][1..]) == [];
  }

  // ---- Reading ----

  datatype Status = Ok | TooSmall | BadPut | BadDelete | UnknownTag | WrongCount

  /** What the handler was told, and how the walk ended. */
  datatype Outcome = Outcome(calls: seq<Record>, status: Status)

  function GetPut(b: Bytes): (p: Option<Parsed<Record>>)
    ensures p.Some? ==> |p.value.rest| < |b|
  {
    match GetBytes(b)
    case None => None
    case Some(key) =>
      match GetBytes(key.rest)
      case None => None
      case Some(value) => Some(Parsed(Put(key.value, value.value), value.rest))
  }

  function GetDelete(b: Bytes): (p: Option<Parsed<Record>>)
    ensures p.Some? ==> |p.value.rest| < |b|
  {
    match GetBytes(b)
    case None => None
    case Some(key) => Some(Parsed(Delete(key.value), key.rest))
  }

  function GetRecord(b: Bytes): (p: Option<Parsed<Record>>)
    requires b != []
    ensures p.Some? ==> |p.value.rest| < |b|
  {
    if b[0] == TYPE_VALUE then GetPut(b[1..])
    else if b[0] == TYPE_DELETION then GetDelete(b[1..])
    else None
  }

  function BadRecord(tag: nat): Status {
    if tag == TYPE_VALUE then BadPut else if tag == TYPE_DELETION then BadDelete else UnknownTag
  }

  /** The records of an input, one after another. */
  function Walk(b: Bytes): Outcome {
    if b == [] then Outcome([], Ok)
    else
      match GetRecord(b)
      case None => Outcome([], BadRecord(b[0]))
      case Some(p) =>
        var o := Walk(p.rest);
        Outcome([p.value] + o.calls, o.status)
  }

  function Contents(rep: Bytes): Outcome {
    if |rep| < HEADER then Outcome([], TooSmall)
    else
      var o := Walk(rep[HEADER..]);
      if o.status != Ok then o
      else Outcome(o.calls, if |o.calls| == FromLittleEndian(rep[8..12]) then Ok else WrongCount)
  }

  lemma {:induction false} HeaderFields(sequence: nat, count: nat, body: Bytes)
    requires sequence < TWO64 && count < TWO32
    ensures var rep := Header(sequence, count) + body;
      FromLittleEndian(rep[..8]) == sequence && FromLittleEndian(rep[8..12]) == count && rep[HEADER..] == body
  {
    var rep := Header(sequence, count) + body;
    Widths();
    hide Pow256, LittleEndian, FromLittleEndian;
    LittleEndianRoundTrip(sequence, 8);
    LittleEndianRoundTrip(count, 4);
    assert rep[..8] == LittleEndian(sequence, 8);
    assert rep[8..12] == LittleEndian(count, 4);
  }

  lemma {:induction false} HeaderReplaced(sequence: nat, count: nat, n: nat, body: Bytes)
    ensures var rep := Header(sequence, count) + body;
      rep[..8] + LittleEndian(n, 4) + rep[HEADER..] == Header(sequence, n) + body
  {
    hide LittleEndian;
  }

  lemma {:induction false} SequenceReplaced(sequence: nat, s: nat, count: nat, body: Bytes)
    ensures LittleEndian(s, 8) + (Header(sequence, count) + body)[8..] == Header(s, count) + body
  {
    hide LittleEndian;
  }

  lemma {:induction false} CountSum(a: nat, b: nat, n: nat)
    requires n % TWO32 == b % TWO32
    ensures (a % TWO32 + n) % TWO32 == (a + b) % TWO32
  {
  }

  lemma {:induction false} RecordRoundTrip(r: Record, rest: Bytes)
    requires WfRecord(r)
    ensures GetRecord(PutRecord(r) + rest) == Some(Parsed(r, rest))
  {
    hide PutSlice, GetBytes;
    var b := PutRecord(r) + rest;
    match r
    case Put(key, value) =>
      assert b[1..] == PutSlice(key) + (PutSlice(value) + rest);
      RoundBytes(key, PutSlice(value) + rest);
      RoundBytes(value, rest);
    case Delete(key) =>
      assert b[1..] == PutSlice(key) + rest;
      RoundBytes(key, rest);
  }

  lemma {:induction false} WalkRecords(rs: seq<Record>)
    requires WfRecords(rs)
    ensures Walk(PutRecords(rs)) == Outcome(rs, Ok)
  {
    hide PutRecord, GetRecord;
    if rs != [] {
      RecordRoundTrip(rs[0], PutRecords(rs[1..]));
      WalkRecords(rs[1..]);
      assert rs == [rs[0]] + rs[1..];
    }
  }

  lemma {:induction false} WalkBehind(rs: seq<Record>, rest: Bytes)
    requires WfRecords(rs)
    ensures Walk(PutRecords(rs) + rest) == Outcome(rs + Walk(rest).calls, Walk(rest).status)
  {
    hide PutRecord, GetRecord;
    if rs == [] {
      assert PutRecords(rs) + rest == rest && rs + Walk(rest).calls == Walk(rest).calls;
    } else {
      var tail := PutRecords(rs[1..]) + rest;
      assert PutRecords(rs) + rest == PutRecord(rs[0]) + tail;
      RecordRoundTrip(rs[0], tail);
      WalkBehind(rs[1..], rest);
      assert rs + Walk(rest).calls == [rs[0]] + (rs[1..] + Walk(rest).calls);
    }
  }

  /** A tag that is neither 0 nor 1 ends the walk; the records before it have been handed out. */
  lemma {:induction false} UnknownTagStops(sequence: nat, count: nat, rs: seq<Record>, tag: byte, rest: Bytes)
    requires sequence < TWO64 && count < TWO32 && WfRecords(rs) && tag > 1
    ensures Contents(Header(sequence, count) + (PutRecords(rs) + ([tag] + rest))) == Outcome(rs, UnknownTag)
  {
    hide Header, Walk, PutRecords;
    HeaderFields(sequence, count, PutRecords(rs) + ([tag] + rest));
    WalkBehind(rs, [tag] + rest);
    WalkUnknown([tag] + rest);
  }

  lemma {:induction false} WalkUnknown(b: Bytes)
    requires b != [] && b[0] > 1
    ensures Walk(b) == Outcome([], UnknownTag)
  {
  }

  /** A whole batch is accepted if and only if its header counts its records. */
  lemma {:induction false} CountDecides(sequence: nat, count: nat, rs: seq<Record>)
    requires sequence < TWO64 && count < TWO32 && WfRecords(rs)
    ensures Contents(Header(sequence, count) + PutRecords(rs)) == Outcome(rs, if count == |rs| then Ok else WrongCount)
  {
    hide Header, Walk, PutRecords;
    HeaderFields(sequence, count, PutRecords(rs));
    WalkRecords(rs);
  }

  // ---- Torn batches ----

  lemma {:induction false} TornVarint(v: nat, n: nat, limit: nat)
    requires n < |PutVarint(v)|
    ensures GetVarint(PutVarint(v)[..n], limit).None?
  {
    if n > 0 && limit > 0 {
      var b := PutVarint(v);
      assert b[1..] == PutVarint(v / 128) && b[..n][1..] == b[1..][..n - 1];
      TornVarint(v / 128, n - 1, limit - 1);
    }
  }

  lemma {:induction false} TornSlice(s: Bytes, n: nat)
    requires |s| < TWO32 && n < |PutSlice(s)|
    ensures GetBytes(PutSlice(s)[..n]).None?
  {
    hide PutVarint, GetVarint;
    var size := |PutVarint(|s|)|;
    var torn := PutSlice(s)[..n];
    if n < size {
      assert torn == PutVarint(|s|)[..n];
      TornVarint(|s|, n, 5);
    } else {
      assert torn == PutVarint(|s|) + s[..n - size];
      RoundTrip32(|s|, s[..n - size]);
    }
  }

  lemma {:induction false} TornPut(key: Bytes, value: Bytes, n: nat)
    requires |key| < TWO32 && |value| < TWO32 && n < |PutSlice(key) + PutSlice(value)|
    ensures GetPut((PutSlice(key) + PutSlice(value))[..n]).None?
  {
    hide PutSlice, GetBytes;
    var size := |PutSlice(key)|;
    var torn := (PutSlice(key) + PutSlice(value))[..n];
    if n < size {
      assert torn == PutSlice(key)[..n];
      TornSlice(key, n);
    } else {
      assert torn == PutSlice(key) + PutSlice(value)[..n - size];
      RoundBytes(key, PutSlice(value)[..n - size]);
      TornSlice(value, n - size);
    }
  }

  lemma {:induction false} TornRecord(r: Record, n: nat)
    requires WfRecord(r) && 0 < n < |PutRecord(r)|
    ensures GetRecord(PutRecord(r)[..n]).None?
  {
    hide PutSlice, GetBytes, GetPut;
    var torn := PutRecord(r)[..n];
    match r
    case Put(key, value) =>
      assert torn[1..] == (PutSlice(key) + PutSlice(value))[..n - 1];
      TornPut(key, value, n - 1);
    case Delete(key) =>
      assert torn[1..] == PutSlice(key)[..n - 1];
      TornSlice(key, n - 1);
  }

  /** A walk over torn records reports records of the batch only, and never all of them. */
  lemma {:induction false} TornWalk(rs: seq<Record>, n: nat)
    requires WfRecords(rs) && n < |PutRecords(rs)|
    ensures var o := Walk(PutRecords(rs)[..n]); |o.calls| < |rs| && o.calls <= rs
  {
    hide PutRecord, GetRecord;
    var head, tail := PutRecord(rs[0]), PutRecords(rs[1..]);
    var torn := PutRecords(rs)[..n];
    if 0 < n < |head| {
      assert torn == head[..n];
      TornRecord(rs[0], n);
    } else if n >= |head| {
      assert torn == head + tail[..n - |head|];
      RecordRoundTrip(rs[0], tail[..n - |head|]);
      TornWalk(rs[1..], n - |head|);
      assert rs == [rs[0]] + rs[1..];
    }
  }

  /** What is written is read back; `found` is an int, so 2^31 records are too many. */
  lemma {:induction false} BatchRoundTrip(sequence: nat, rs: seq<Record>)
    requires sequence < TWO64 && WfRecords(rs) && |rs| < 0x8000_0000
    ensures Contents(Header(sequence, |rs|) + PutRecords(rs)) == Outcome(rs, Ok)
  {
    hide Header, Walk, PutRecords;
    HeaderFields(sequence, |rs|, PutRecords(rs));
    WalkRecords(rs);
  }

  /** A batch cut anywhere, even between two records, is refused; what was handed out is a prefix of it. */
  lemma {:induction false} TornBatchRefused(sequence: nat, rs: seq<Record>, n: nat)
    requires sequence < TWO64 && WfRecords(rs) && |rs| < 0x8000_0000
    requires n < |Header(sequence, |rs|) + PutRecords(rs)|
    ensures var o := Contents((Header(sequence, |rs|) + PutRecords(rs))[..n]); o.status != Ok && o.calls <= rs
  {
    hide Header, Walk, PutRecords;
    if n >= HEADER {
      var body := PutRecords(rs)[..n - HEADER];
      assert (Header(sequence, |rs|) + PutRecords(rs))[..n] == Header(sequence, |rs|) + body;
      HeaderFields(sequence, |rs|, body);
      TornWalk(rs, n - HEADER);
    }
  }

  // ---- Inserting ----

  /** One call of MemTable::Add. */
  datatype Added = Added(sequence: nat, kind: nat, key: Bytes, value: Bytes)

  function AddOf(sequence: nat, r: Record): Added {
    match r
    case Put(key, value) => Added(sequence, TYPE_VALUE, key, value)
    case Delete(key) => Added(sequence, TYPE_DELETION, key, [])
  }

  /** Records numbered one after another. */
  function Numbered(rs: seq<Record>, sequence: nat): seq<Added> {
    if rs == [] then [] else [AddOf(sequence, rs[0])] + Numbered(rs[1..], sequence + 1)
  }

  /** A group's batches take disjoint, consecutive ranges. */
  lemma {:induction false} NumberedAppend(a: seq<Record>, b: seq<Record>, sequence: nat)
    ensures Numbered(a + b, sequence) == Numbered(a, sequence) + Numbered(b, sequence + |a|)
  {
    if a == [] {
      assert a + b == b;
    } else {
      assert (a + b)[1..] == a[1..] + b;
      NumberedAppend(a[1..], b, sequence + 1);
    }
  }

  lemma {:induction false} NumberedLength(rs: seq<Record>, sequence: nat)
    ensures |Numbered(rs, sequence)| == |rs|
  {
    if rs != [] {
      NumberedLength(rs[1..], sequence + 1);
    }
  }

  lemma {:induction false} NumberedAt(rs: seq<Record>, sequence: nat, i: nat)
    requires i < |rs|
    ensures |Numbered(rs, sequence)| == |rs| && Numbered(rs, sequence)[i] == AddOf(sequence + i, rs[i])
  {
    if |rs| > 1 {
      NumberedAt(rs[1..], sequence + 1, if i == 0 then 0 else i - 1);
    }
  }

  /** a inserts r with this sequence number: kind 1 and the value for a Put, kind 0 for a Delete. */
  predicate Inserts(a: Added, sequence: nat, r: Record) {
    a.sequence == sequence && a.key == r.key && if r.Put? then a.kind == 1 && a.value == r.value else a.kind == 0 && a.value == []
  }

  lemma {:induction false} NumberedInserts(rs: seq<Record>, sequence: nat)
    ensures |Numbered(rs, sequence)| == |rs|
    ensures forall i | 0 <= i < |rs| :: Inserts(Numbered(rs, sequence)[i], sequence + i, rs[i])
  {
    hide Numbered;
    NumberedLength(rs, sequence);
    forall i: nat | i < |rs|
      ensures Inserts(Numbered(rs, sequence)[i], sequence + i, rs[i])
    {
      NumberedAt(rs, sequence, i);
    }
  }

  // ---- What a reader of the inserted entries sees ----

  ghost predicate NewestRead(added: seq<Added>, key: Bytes, s: int, a: Added) {
    && a in added && a.key == key && a.sequence <= s
    && forall x | x in added && x.key == key && x.sequence <= s :: x.sequence <= a.sequence
  }

  /** p is what a lookup of key at sequence number s reports: the newest entry that is not newer than s. */
  ghost predicate Reads(added: seq<Added>, key: Bytes, s: int, p: InternalKeys.Probe) {
    if p.Absent? then forall a | a in added && a.key == key :: a.sequence > s
    else exists a :: NewestRead(added, key, s, a) && if a.kind == 1 then p == InternalKeys.Found(a.value) else a.kind == 0 && p.Deleted?
  }

  ghost predicate LastFor(rs: seq<Record>, key: Bytes, i: int) {
    0 <= i < |rs| && rs[i].key == key && forall j | i < j < |rs| :: rs[j].key != key
  }

  /** The last of the records for key decides. */
  ghost predicate LastWrite(rs: seq<Record>, key: Bytes, p: InternalKeys.Probe) {
    if p.Absent? then forall r | r in rs :: r.key != key
    else exists i :: LastFor(rs, key, i) && if rs[i].Put? then p == InternalKeys.Found(rs[i].value) else p.Deleted?
  }

  lemma {:induction false} LastOrNone(rs: seq<Record>, key: Bytes) returns (i: int)
    ensures -1 <= i < |rs| && (i >= 0 ==> rs[i].key == key) && forall j | i < j < |rs| :: rs[j].key != key
  {
    i := |rs| - 1;
    while i >= 0 && rs[i].key != key
      invariant -1 <= i < |rs| && forall j | i < j < |rs| :: rs[j].key != key
    {
      i := i - 1;
    }
  }

  /** A reader who sees the first n entries of a batch sees for every key the last of the first n records. */
  lemma {:induction false} ReadsLastWrite(added: seq<Added>, sequence: nat, rs: seq<Record>, n: nat, key: Bytes, p: InternalKeys.Probe)
    requires n <= |rs| == |added| && forall i | 0 <= i < |rs| :: Inserts(added[i], sequence + i, rs[i])
    ensures Reads(added, key, sequence + n - 1, p) <==> LastWrite(rs[..n], key, p)
  {
    var i := LastOrNone(rs[..n], key);
    var s := sequence + n - 1;
    forall j | 0 <= j < |rs|
      ensures added[j].sequence == sequence + j && (added[j].sequence <= s <==> j < n)
      ensures added[j].key == key && added[j].sequence <= s ==> j <= i
    {
      assert j < n ==> rs[..n][j] == rs[j];
    }
    if i < 0 {
      NothingRead(added, key, s, p);
      NothingWritten(rs[..n], key, p);
    } else {
      OneRead(added, key, s, p, i);
      OneWritten(rs[..n], key, p, i);
    }
  }

  lemma {:induction false} NothingRead(added: seq<Added>, key: Bytes, s: int, p: InternalKeys.Probe)
    requires forall j | 0 <= j < |added| && added[j].key == key :: added[j].sequence > s
    ensures Reads(added, key, s, p) <==> p.Absent?
  {
    forall a | a in added && a.key == key
      ensures a.sequence > s
    {
      var j :| 0 <= j < |added| && added[j] == a;
    }
  }

  lemma {:induction false} NothingWritten(rs: seq<Record>, key: Bytes, p: InternalKeys.Probe)
    requires forall j | 0 <= j < |rs| :: rs[j].key != key
    ensures LastWrite(rs, key, p) <==> p.Absent?
  {
  }

  lemma {:induction false} OneRead(added: seq<Added>, key: Bytes, s: int, p: InternalKeys.Probe, i: nat)
    requires i < |added| && added[i].key == key && added[i].sequence <= s
    requires forall j | 0 <= j < |added| && added[j].key == key && added[j].sequence <= s :: j <= i
    requires forall j | 0 <= j < i :: added[j].sequence < added[i].sequence
    ensures Reads(added, key, s, p) <==>
            if added[i].kind == 1 then p == InternalKeys.Found(added[i].value) else added[i].kind == 0 && p.Deleted?
  {
    assert added[i] in added;
    forall x | x in added && x.key == key && x.sequence <= s
      ensures x == added[i] || x.sequence < added[i].sequence
    {
      var j :| 0 <= j < |added| && added[j] == x;
    }
    assert NewestRead(added, key, s, added[i]);
  }

  lemma {:induction false} OneWritten(rs: seq<Record>, key: Bytes, p: InternalKeys.Probe, i: nat)
    requires LastFor(rs, key, i)
    ensures LastWrite(rs, key, p) <==> if rs[i].Put? then p == InternalKeys.Found(rs[i].value) else p.Deleted?
  {
    assert forall k :: LastFor(rs, key, k) ==> k == i;
  }

  class MemTableInserter {
    var sequence: nat
    var added: seq<Added>

    constructor (sequence: nat)
      ensures this.sequence == sequence && added == []
    {
      this.sequence, added := sequence, [];
    }

    /** Put and Delete of the handler. */
    method Handle(r: Record)
      modifies this
      ensures sequence == old(sequence) + 1 && added == old(added) + [AddOf(old(sequence), r)]
      ensures Inserts(added[|added| - 1], old(sequence), r)
    {
      match r {
        case Put(key, value) => added := added + [Added(sequence, TYPE_VALUE, key, value)];
        case Delete(key) => added := added + [Added(sequence, TYPE_DELETION, key, [])];
      }
      sequence := sequence + 1;
    }
  }

  class WriteBatch {
    var rep: Bytes
    ghost var records: seq<Record>

    ghost predicate Valid()
      reads this
    {
      |rep| >= HEADER && rep == Header(Sequence(), |records| % TWO32) + PutRecords(records) && Sequence() < TWO64
    }

    function Sequence(): nat
      requires |rep| >= HEADER
      reads this
    {
      FromLittleEndian(rep[..8])
    }

    function Count(): nat
      requires |rep| >= HEADER
      reads this
    {
      FromLittleEndian(rep[8..12])
    }

    constructor ()
      ensures Valid() && records == [] && Sequence() == 0
    {
      rep, records := Header(0, 0), [];
      new;
      HeaderFields(0, 0, []);
      assert rep == Header(0, 0) + [];
    }

    method SetCount(n: nat)
      requires |rep| >= HEADER
      modifies this`rep
      ensures |rep| >= HEADER && rep == old(rep)[..8] + LittleEndian(n % TWO32, 4) + old(rep)[HEADER..]
    {
      rep := rep[..8] + LittleEndian(n % TWO32, 4) + rep[HEADER..];
    }

    method SetSequence(s: nat)
      requires Valid() && s < TWO64
      modifies this`rep
      ensures Valid() && Sequence() == s
    {
      hide PutRecords, FromLittleEndian, LittleEndian, Header;
      ghost var count, body := |records| % TWO32, PutRecords(records);
      SequenceReplaced(Sequence(), s, count, body);
      HeaderFields(s, count, body);
      rep := LittleEndian(s, 8) + rep[8..];
    }

    /** n more records behind those of the batch. */
    method Extend(n: nat, bytes: Bytes, ghost more: seq<Record>)
      requires Valid() && n % TWO32 == |more| % TWO32 && bytes == PutRecords(more)
      modifies this
      ensures Valid() && records == old(records) + more && Sequence() == old(Sequence())
    {
      hide PutRecords, FromLittleEndian, LittleEndian;
      ghost var s, was, count := Sequence(), PutRecords(records), |records| % TWO32;
      HeaderFields(s, count, was);
      PutRecordsAppend(records, more);
      CountSum(|records|, |more|, n);
      SetCount(Count() + n);
      rep := rep + bytes;
      records := records + more;
      HeaderReplaced(s, count, |records| % TWO32, was);
      assert rep == Header(s, |records| % TWO32) + (was + bytes);
      HeaderFields(s, |records| % TWO32, was + bytes);
    }

    method Put(key: Bytes, value: Bytes)
      requires Valid()
      modifies this
      ensures Valid() && records == old(records) + [Record.Put(key, value)] && Sequence() == old(Sequence())
    {
      PutRecordsOne(Record.Put(key, value));
      Extend(1, [TYPE_VALUE] + (PutSlice(key) + PutSlice(value)), [Record.Put(key, value)]);
    }

    method Delete(key: Bytes)
      requires Valid()
      modifies this
      ensures Valid() && records == old(records) + [Record.Delete(key)] && Sequence() == old(Sequence())
    {
      PutRecordsOne(Record.Delete(key));
      Extend(1, [TYPE_DELETION] + PutSlice(key), [Record.Delete(key)]);
    }

    /** Append; a batch may be appended to itself. */
    method Append(source: WriteBatch)
      requires Valid() && source.Valid()
      modifies this
      ensures Valid() && records == old(records) + old(source.records) && Sequence() == old(Sequence())
    {
      hide PutRecords;
      HeaderFields(source.Sequence(), |source.records| % TWO32, PutRecords(source.records));
      Extend(source.Count(), source.rep[HEADER..], source.records);
    }

    /** Iterate, of any contents. */
    method Iterate(handler: MemTableInserter) returns (status: Status)
      modifies handler
      ensures var o := Contents(rep);
        && status == o.status && handler.sequence == old(handler.sequence) + |o.calls|
        && handler.added == old(handler.added) + Numbered(o.calls, old(handler.sequence))
      ensures var calls, n := Contents(rep).calls, |old(handler.added)|;
        && |handler.added| == n + |calls| && handler.added[..n] == old(handler.added)
        && forall i | 0 <= i < |calls| :: Inserts(handler.added[n..][i], old(handler.sequence) + i, calls[i])
    {
      hide Contents, Numbered, Inserts;
      status := Walks(handler);
      NumberedInserts(Contents(rep).calls, old(handler.sequence));
      assert handler.added[|old(handler.added)|..] == Numbered(Contents(rep).calls, old(handler.sequence));
    }

    /** The walk of Iterate. */
    method Walks(handler: MemTableInserter) returns (status: Status)
      modifies handler
      ensures var o := Contents(rep);
        && status == o.status && handler.sequence == old(handler.sequence) + |o.calls|
        && handler.added == old(handler.added) + Numbered(o.calls, old(handler.sequence))
    {
      hide GetRecord, Walk, Numbered;
      NumberedNone(handler.sequence);
      if |rep| < HEADER {
        return TooSmall;
      }
      var input, found := rep[HEADER..], 0;
      ghost var calls: seq<Record> := [];
      while input != []
        invariant found == |calls| && handler.sequence == old(handler.sequence) + found
        invariant handler.added == old(handler.added) + Numbered(calls, old(handler.sequence))
        invariant Walk(rep[HEADER..]) == Outcome(calls + Walk(input).calls, Walk(input).status)
        decreases |input|
      {
        WalkStep(calls, input);
        var p := GetRecord(input);
        if p.None? {
          return BadRecord(input[0]);
        }
        handler.Handle(p.value.value);
        NumberedAppend(calls, [p.value.value], old(handler.sequence));
        NumberedOne(p.value.value, old(handler.sequence) + |calls|);
        found, calls, input := found + 1, calls + [p.value.value], p.value.rest;
      }
      WalkEnd(calls);
      status := if found != Count() then WrongCount else Ok;
    }

    /** InsertInto: a well-formed batch is inserted whole, numbered from its sequence number on. A reader at
        the sequence number of any of its records sees, for every key, the last record so far. */
    method InsertInto() returns (status: Status, handler: MemTableInserter)
      requires |rep| >= HEADER
      ensures fresh(handler)
      ensures status == Contents(rep).status && handler.added == Numbered(Contents(rep).calls, Sequence())
      ensures Valid() && WfRecords(records) && |records| < 0x8000_0000 ==>
                status == Ok && |handler.added| == |records|
                && forall i | 0 <= i < |records| :: Inserts(handler.added[i], Sequence() + i, records[i])
      ensures Valid() && WfRecords(records) && |records| < 0x8000_0000 ==>
                forall n: nat, key, p | n <= |records| ::
                  Reads(handler.added, key, Sequence() + n - 1, p) <==> LastWrite(records[..n], key, p)
    {
      hide Contents, Header, PutRecords, Numbered, Inserts, Reads, LastWrite;
      handler := new MemTableInserter(Sequence());
      status := Iterate(handler);
      if Valid() && WfRecords(records) && |records| < 0x8000_0000 {
        BatchRoundTrip(Sequence(), records);
        NumberedInserts(records, Sequence());
        forall n: nat, key, p | n <= |records|
          ensures Reads(handler.added, key, Sequence() + n - 1, p) <==> LastWrite(records[..n], key, p)
        {
          ReadsLastWrite(handler.added, Sequence(), records, n, key, p);
        }
      }
    }
  }

  lemma {:induction false} WalkStep(calls: seq<Record>, input: Bytes)
    requires input != []
    ensures var p := GetRecord(input);
      Outcome(calls + Walk(input).calls, Walk(input).status)
        == if p.None? then Outcome(calls, BadRecord(input[0]))
           else Outcome(calls + [p.value.value] + Walk(p.value.rest).calls, Walk(p.value.rest).status)
  {
    hide GetRecord, BadRecord;
    assert calls + [] == calls;
  }

  lemma {:induction false} WalkEnd(calls: seq<Record>)
    ensures Outcome(calls + Walk([]).calls, Walk([]).status) == Outcome(calls, Ok)
  {
    assert calls + [] == calls;
  }

  lemma {:induction false} NumberedNone(sequence: nat)
    ensures Numbered([], sequence) == []
  {
  }

  lemma {:induction false} NumberedOne(r: Record, sequence: nat)
    ensures Numbered([r], sequence) == [AddOf(sequence, r)]
  {
    assert Numbered([r][1..], sequence + 1) == [];
  }
}
