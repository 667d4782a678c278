/** Version edits as bytes in the manifest (db/version_edit.cc). Internal keys are byte strings here. */
module VersionEdits {
  import opened Basics
  import opened Varints

  datatype FileMeta = FileMeta(number: nat, fileSize: nat, smallest: Bytes, largest: Bytes)

  datatype Record =
    | Comparator(name: Bytes)
    | LogNumber(n: nat) | PrevLogNumber(n: nat) | NextFileNumber(n: nat) | LastSequence(n: nat)
    | CompactPointer(level: nat, key: Bytes)
    | DeletedFile(level: nat, number: nat)
    | NewFile(level: nat, file: FileMeta)

  const COMPARATOR: nat := 1
  const LOG_NUMBER: nat := 2
  const NEXT_FILE_NUMBER: nat := 3
  const LAST_SEQUENCE: nat := 4
  const COMPACT_POINTER: nat := 5
  const DELETED_FILE: nat := 6
  const NEW_FILE: nat := 7
  const PREV_LOG_NUMBER: nat := 9

  function PutRecord(r: Record): Bytes {
    match r
    case Comparator(name) => PutVarint(COMPARATOR) + PutSlice(name)
    case LogNumber(n) => PutVarint(LOG_NUMBER) + PutVarint(n)
    case PrevLogNumber(n) => PutVarint(PREV_LOG_NUMBER) + PutVarint(n)
    case NextFileNumber(n) => PutVarint(NEXT_FILE_NUMBER) + PutVarint(n)
    case LastSequence(n) => PutVarint(LAST_SEQUENCE) + PutVarint(n)
    case CompactPointer(level, key) => PutVarint(COMPACT_POINTER) + (PutVarint(level) + PutSlice(key))
    case DeletedFile(level, number) => PutVarint(DELETED_FILE) + (PutVarint(level) + PutVarint(number))
    case NewFile(level, f) =>
      PutVarint(NEW_FILE) + (PutVarint(level) + (PutVarint(f.number) + (PutVarint(f.fileSize) + (PutSlice(f.smallest) + PutSlice(f.largest)))))
  }

  function Get64(b: Bytes): (p: Option<Parsed<nat>>)
    ensures p.Some? ==> |p.value.rest| < |b|
  {
    match GetVarint64(b)
    case None => None
    case Some(g) => Some(Parsed(g.value, b[g.size..]))
  }

  function Get32(b: Bytes): (p: Option<Parsed<nat>>)
    ensures p.Some? ==> |p.value.rest| < |b|
  {
    match GetVarint32(b)
    case None => None
    case Some(g) => Some(Parsed(g.value, b[g.size..]))
  }

  function GetLevel(b: Bytes): (p: Option<Parsed<nat>>)
    ensures p.Some? ==> |p.value.rest| < |b| && p.value.value < NUM_LEVELS
  {
    match Get32(b)
    case None => None
    case Some(p) => if p.value < NUM_LEVELS then Some(p) else None
  }

  function GetNumbered(b: Bytes, make: nat -> Record): (p: Option<Parsed<Record>>)
    ensures p.Some? ==> |p.value.rest| < |b|
  {
    match Get64(b)
    case None => None
    case Some(p) => Some(Parsed(make(p.value), p.rest))
  }

  function GetFile(b: Bytes): (p: Option<Parsed<FileMeta>>)
    ensures p.Some? ==> |p.value.rest| < |b|
  {
    match Get64(b)
    case None => None
    case Some(number) =>
      match Get64(number.rest)
      case None => None
      case Some(size) =>
        match GetBytes(size.rest)
        case None => None
        case Some(smallest) =>
          match GetBytes(smallest.rest)
          case None => None
          case Some(largest) =>
            Some(Parsed(FileMeta(number.value, size.value, smallest.value, largest.value), largest.rest))
  }

  /** The switch of DecodeFrom, behind the tag. */
  function GetBody(tag: nat, b: Bytes): (p: Option<Parsed<Record>>)
    ensures p.Some? ==> |p.value.rest| < |b|
  {
    if tag == COMPARATOR then
      match GetBytes(b)
      case None => None
      case Some(p) => Some(Parsed(Comparator(p.value), p.rest))
    else if tag == LOG_NUMBER then GetNumbered(b, (n: nat) => LogNumber(n))
    else if tag == PREV_LOG_NUMBER then GetNumbered(b, (n: nat) => PrevLogNumber(n))
    else if tag == NEXT_FILE_NUMBER then GetNumbered(b, (n: nat) => NextFileNumber(n))
    else if tag == LAST_SEQUENCE then GetNumbered(b, (n: nat) => LastSequence(n))
    else if tag == COMPACT_POINTER then
      match GetLevel(b)
      case None => None
      case Some(level) =>
        match GetBytes(level.rest)
        case None => None
        case Some(key) => Some(Parsed(CompactPointer(level.value, key.value), key.rest))
    else if tag == DELETED_FILE then
      match GetLevel(b)
      case None => None
      case Some(level) =>
        match Get64(level.rest)
        case None => None
        case Some(number) => Some(Parsed(DeletedFile(level.value, number.value), number.rest))
    else if tag == NEW_FILE then
      match GetLevel(b)
      case None => None
      case Some(level) =>
        match GetFile(level.rest)
        case None => None
        case Some(f) => Some(Parsed(NewFile(level.value, f.value), f.rest))
    else None
  }

  function GetRecord(b: Bytes): (p: Option<Parsed<Record>>)
    ensures p.Some? ==> |p.value.rest| < |b|
  {
    match Get32(b)
    case None => None
    case Some(tag) => GetBody(tag.value, tag.rest)
  }

  predicate WfFile(f: FileMeta) {
    f.number < TWO64 && f.fileSize < TWO64 && |f.smallest| < TWO32 && |f.largest| < TWO32
  }

  predicate WfRecord(r: Record) {
    match r
    case Comparator(name) => |name| < TWO32
    case LogNumber(n) => n < TWO64
    case PrevLogNumber(n) => n < TWO64
    case NextFileNumber(n) => n < TWO64
    case LastSequence(n) => n < TWO64
    case CompactPointer(level, key) => level < NUM_LEVELS && |key| < TWO32
    case DeletedFile(level, number) => level < NUM_LEVELS && number < TWO64
    case NewFile(level, f) => level < NUM_LEVELS && WfFile(f)
  }

  lemma {:induction false} Round64(n: nat, rest: Bytes)
    requires n < TWO64
    ensures Get64(PutVarint(n) + rest) == Some(Parsed(n, rest))
  {
    RoundTrip64(n, rest);
  }

  lemma {:induction false} Round32(n: nat, rest: Bytes)
    requires n < TWO32
    ensures Get32(PutVarint(n) + rest) == Some(Parsed(n, rest))
  {
    RoundTrip32(n, rest);
  }

  lemma {:induction false} RoundFile(f: FileMeta, rest: Bytes)
    requires WfFile(f)
    ensures GetFile(PutVarint(f.number) + (PutVarint(f.fileSize) + (PutSlice(f.smallest) + PutSlice(f.largest))) + rest)
        == Some(Parsed(f, rest))
  {
    hide PutVarint, PutSlice, Get64, GetBytes;
    var l := PutSlice(f.largest) + rest;
    var s := PutSlice(f.smallest) + l;
    var z := PutVarint(f.fileSize) + s;
    assert PutVarint(f.number) + (PutVarint(f.fileSize) + (PutSlice(f.smallest) + PutSlice(f.largest))) + rest == PutVarint(f.number) + z;
    Round64(f.number, z);
    Round64(f.fileSize, s);
    RoundBytes(f.smallest, l);
    RoundBytes(f.largest, rest);
  }

  /** A record is read back as it was written. */
  lemma {:induction false} RecordRoundTrip(r: Record, rest: Bytes)
    requires WfRecord(r)
    ensures GetRecord(PutRecord(r) + rest) == Some(Parsed(r, rest))
  {
    hide PutVarint, PutSlice, Get64, Get32, GetBytes, GetFile;
    match r
    case Comparator(name) =>
      Tagged(COMPARATOR, PutSlice(name), rest);
      RoundBytes(name, rest);
    case LogNumber(n) =>
      Tagged(LOG_NUMBER, PutVarint(n), rest);
      Round64(n, rest);
    case PrevLogNumber(n) =>
      Tagged(PREV_LOG_NUMBER, PutVarint(n), rest);
      Round64(n, rest);
    case NextFileNumber(n) =>
      Tagged(NEXT_FILE_NUMBER, PutVarint(n), rest);
      Round64(n, rest);
    case LastSequence(n) =>
      Tagged(LAST_SEQUENCE, PutVarint(n), rest);
      Round64(n, rest);
    case CompactPointer(level, key) =>
      Tagged(COMPACT_POINTER, PutVarint(level) + PutSlice(key), rest);
      Leveled(level, PutSlice(key), rest);
      RoundBytes(key, rest);
    case DeletedFile(level, number) =>
      Tagged(DELETED_FILE, PutVarint(level) + PutVarint(number), rest);
      Leveled(level, PutVarint(number), rest);
      Round64(number, rest);
    case NewFile(level, f) =>
      var body := PutVarint(f.number) + (PutVarint(f.fileSize) + (PutSlice(f.smallest) + PutSlice(f.largest)));
      Tagged(NEW_FILE, PutVarint(level) + body, rest);
      Leveled(level, body, rest);
      RoundFile(f, rest);
  }

  lemma {:induction false} Tagged(tag: nat, body: Bytes, rest: Bytes)
    requires tag < TWO32
    ensures GetRecord((PutVarint(tag) + body) + rest) == GetBody(tag, body + rest)
  {
    hide PutVarint, Get32, GetBody;
    assert (PutVarint(tag) + body) + rest == PutVarint(tag) + (body + rest);
    Round32(tag, body + rest);
  }

  lemma {:induction false} Leveled(level: nat, body: Bytes, rest: Bytes)
    requires level < NUM_LEVELS
    ensures GetLevel((PutVarint(level) + body) + rest) == Some(Parsed(level, body + rest))
  {
    hide PutVarint, Get32;
    assert (PutVarint(level) + body) + rest == PutVarint(level) + (body + rest);
    Round32(level, body + rest);
  }

  datatype Level = Level(level: nat, number: nat)

  predicate LevelLess(a: Level, b: Level) {
    a.level < b.level || (a.level == b.level && a.number < b.number)
  }

  /** std::set of pairs, as its sorted list. */
  predicate SortedSet(s: seq<Level>) {
    forall i, j | 0 <= i < j < |s| :: LevelLess(s[i], s[j])
  }

  function Insert(s: seq<Level>, x: Level): seq<Level> {
    if s == [] || LevelLess(s[|s| - 1], x) then s + [x]
    else if s[|s| - 1] == x then s
    else Insert(s[..|s| - 1], x) + [s[|s| - 1]]
  }

  lemma {:induction false} InsertSorted(s: seq<Level>, x: Level)
    requires SortedSet(s)
    ensures SortedSet(Insert(s, x))
    ensures forall y :: y in Insert(s, x) <==> y in s || y == x
  {
    if s != [] && !LevelLess(s[|s| - 1], x) && s[|s| - 1] != x {
      var init, last := s[..|s| - 1], s[|s| - 1];
      InsertSorted(init, x);
      assert s == init + [last];
      var r := Insert(init, x);
      forall i | 0 <= i < |r| ensures LevelLess(r[i], last) {
        assert r[i] in r;
      }
    }
  }

  /** The fields of a VersionEdit; an absent number is a has_ flag that is off. */
  datatype Fields = Fields(
    comparator: Option<Bytes>, logNumber: Option<nat>, prevLogNumber: Option<nat>,
    nextFileNumber: Option<nat>, lastSequence: Option<nat>,
    compactPointers: seq<(nat, Bytes)>, deletedFiles: seq<Level>, newFiles: seq<(nat, FileMeta)>)

  const EMPTY: Fields := Fields(None, None, None, None, None, [], [], [])

  /** What one decoded record does to the edit. */
  function Applied(e: Fields, r: Record): Fields {
    match r
    case Comparator(name) => e.(comparator := Some(name))
    case LogNumber(n) => e.(logNumber := Some(n))
    case PrevLogNumber(n) => e.(prevLogNumber := Some(n))
    case NextFileNumber(n) => e.(nextFileNumber := Some(n))
    case LastSequence(n) => e.(lastSequence := Some(n))
    case CompactPointer(level, key) => e.(compactPointers := e.compactPointers + [(level, key)])
    case DeletedFile(level, number) => e.(deletedFiles := Insert(e.deletedFiles, Level(level, number)))
    case NewFile(level, f) => e.(newFiles := e.newFiles + [(level, f)])
  }

  /** The meaning of a byte string as an edit: its records applied in order, or nothing. */
  function Decoded(b: Bytes, e: Fields): Option<Fields>
    decreases |b|
  {
    if Get32(b).None? then if b == [] then Some(e) else None
    else
      match GetRecord(b)
      case None => None
      case Some(p) => Decoded(p.rest, Applied(e, p.value))
  }

  function PutRecords(rs: seq<Record>): Bytes {
    if rs == [] then [] else PutRecord(rs[0]) + PutRecords(rs[1..])
  }

  function ApplyAll(e: Fields, rs: seq<Record>): Fields
    decreases |rs|
  {
    if rs == [] then e else ApplyAll(Applied(e, rs[0]), rs[1..])
  }

  predicate WfRecords(rs: seq<Record>) {
    forall i | 0 <= i < |rs| :: WfRecord(rs[i])
  }

  lemma {:induction false} DecodedRecords(rs: seq<Record>, e: Fields)
    requires WfRecords(rs)
    ensures Decoded(PutRecords(rs), e) == Some(ApplyAll(e, rs))
    decreases |rs|
  {
    hide GetRecord, PutRecord, Applied;
    if rs != [] {
      RecordRoundTrip(rs[0], PutRecords(rs[1..]));
      HasTag(PutRecords(rs));
      DecodedRecords(rs[1..], Applied(e, rs[0]));
    }
  }

  lemma {:induction false} DecodedBehind(rs: seq<Record>, rest: Bytes, e: Fields)
    requires WfRecords(rs)
    ensures Decoded(PutRecords(rs) + rest, e) == Decoded(rest, ApplyAll(e, rs))
    decreases |rs|
  {
    hide GetRecord, PutRecord, Applied;
    if rs == [] {
      assert PutRecords(rs) + rest == rest;
    } else {
      var tail := PutRecords(rs[1..]) + rest;
      assert PutRecords(rs) + rest == PutRecord(rs[0]) + tail;
      RecordRoundTrip(rs[0], tail);
      HasTag(PutRecord(rs[0]) + tail);
      DecodedBehind(rs[1..], rest, Applied(e, rs[0]));
    }
  }

  /** An edit with a tag that is not one of the eight is refused, whatever stands in front of it or behind it. */
  lemma {:induction false} UnknownTagRefused(rs: seq<Record>, tag: nat, rest: Bytes, e: Fields)
    requires WfRecords(rs) && tag < 0x1_0000_0000 && tag !in {1, 2, 3, 4, 5, 6, 7, 9}
    ensures Decoded(PutRecords(rs) + (PutVarint(tag) + rest), e) == None
  {
    hide PutRecords, PutVarint, GetVarint, Applied;
    DecodedBehind(rs, PutVarint(tag) + rest, e);
    RoundTrip32(tag, rest);
  }

  /** So is a file at a level that there is not. */
  lemma {:induction false} BadLevelRefused(rs: seq<Record>, tag: nat, level: nat, rest: Bytes, e: Fields)
    requires WfRecords(rs) && tag in {5, 6, 7} && 7 <= level < 0x1_0000_0000
    ensures Decoded(PutRecords(rs) + (PutVarint(tag) + (PutVarint(level) + rest)), e) == None
  {
    hide PutRecords, PutVarint, GetVarint, Applied;
    var b := PutVarint(tag) + (PutVarint(level) + rest);
    DecodedBehind(rs, b, e);
    RoundTrip32(tag, PutVarint(level) + rest);
    RoundTrip32(level, rest);
    assert GetLevel(PutVarint(level) + rest) == None;
  }

  lemma {:induction false} HasTag(b: Bytes)
    ensures GetRecord(b).Some? ==> Get32(b).Some?
  {
  }

  lemma {:induction false} PutRecordsAppend(a: seq<Record>, b: seq<Record>)
    ensures PutRecords(a + b) == PutRecords(a) + PutRecords(b)
  {
    hide PutRecord;
    if a == [] {
      assert a + b == b;
    } else {
      assert (a + b)[1..] == a[1..] + b;
      PutRecordsAppend(a[1..], b);
    }
  }

  lemma {:induction false} ApplyAllAppend(e: Fields, a: seq<Record>, b: seq<Record>)
    ensures ApplyAll(e, a + b) == ApplyAll(ApplyAll(e, a), b)
    decreases |a|
  {
    hide Applied;
    if a == [] {
      assert a + b == b;
    } else {
      assert (a + b)[1..] == a[1..] + b;
      ApplyAllAppend(Applied(e, a[0]), a[1..], b);
    }
  }

  function Optional<T>(o: Option<T>, make: T -> Record): (rs: seq<Record>)
    ensures |rs| <= 1
  {
    if o.Some? then [make(o.value)] else []
  }

  function Header(e: Fields): seq<Record> {
    Optional(e.comparator, (s: Bytes) => Comparator(s)) + Optional(e.logNumber, (n: nat) => LogNumber(n))
      + Optional(e.prevLogNumber, (n: nat) => PrevLogNumber(n)) + Optional(e.nextFileNumber, (n: nat) => NextFileNumber(n))
      + Optional(e.lastSequence, (n: nat) => LastSequence(n))
  }

  function Pointers(ps: seq<(nat, Bytes)>): seq<Record> {
    seq(|ps|, i requires 0 <= i < |ps| => CompactPointer(ps[i].0, ps[i].1))
  }

  function Deletions(ds: seq<Level>): seq<Record> {
    seq(|ds|, i requires 0 <= i < |ds| => DeletedFile(ds[i].level, ds[i].number))
  }

  function Additions(fs: seq<(nat, FileMeta)>): seq<Record> {
    seq(|fs|, i requires 0 <= i < |fs| => NewFile(fs[i].0, fs[i].1))
  }

  /** The records of an edit in the order in which EncodeTo writes them. */
  function Records(e: Fields): seq<Record> {
    Header(e) + Pointers(e.compactPointers) + Deletions(e.deletedFiles) + Additions(e.newFiles)
  }

  predicate WfEdit(e: Fields) {
    WfRecords(Records(e)) && SortedSet(e.deletedFiles)
  }

  lemma {:induction false} HeaderApplied(e: Fields)
    ensures ApplyAll(EMPTY, Header(e)) == e.(compactPointers := [], deletedFiles := [], newFiles := [])
  {
    var a := Optional(e.comparator, (s: Bytes) => Comparator(s));
    var b := Optional(e.logNumber, (n: nat) => LogNumber(n));
    var c := Optional(e.prevLogNumber, (n: nat) => PrevLogNumber(n));
    var d := Optional(e.nextFileNumber, (n: nat) => NextFileNumber(n));
    var f := Optional(e.lastSequence, (n: nat) => LastSequence(n));
    ApplyAllAppend(EMPTY, a + b + c + d, f);
    ApplyAllAppend(EMPTY, a + b + c, d);
    ApplyAllAppend(EMPTY, a + b, c);
    ApplyAllAppend(EMPTY, a, b);
    var e1 := ApplyAll(EMPTY, a);
    AppliedOne(EMPTY, a);
    AppliedOne(e1, b);
    AppliedOne(ApplyAll(e1, b), c);
    AppliedOne(ApplyAll(ApplyAll(e1, b), c), d);
    AppliedOne(ApplyAll(ApplyAll(ApplyAll(e1, b), c), d), f);
  }

  lemma {:induction false} AppliedOne(e: Fields, rs: seq<Record>)
    requires |rs| <= 1
    ensures ApplyAll(e, rs) == if rs == [] then e else Applied(e, rs[0])
  {
    hide Applied;
    if |rs| == 1 {
      assert rs[1..] == [];
    }
  }

  lemma {:induction false} PointersApplied(e: Fields, ps: seq<(nat, Bytes)>)
    ensures ApplyAll(e, Pointers(ps)) == e.(compactPointers := e.compactPointers + ps)
    decreases |ps|
  {
    if ps == [] {
      assert e.compactPointers + ps == e.compactPointers;
    } else {
      assert Pointers(ps)[1..] == Pointers(ps[1..]);
      PointersApplied(e.(compactPointers := e.compactPointers + [ps[0]]), ps[1..]);
      assert e.compactPointers + [ps[0]] + ps[1..] == e.compactPointers + ps;
    }
  }

  lemma {:induction false} AdditionsApplied(e: Fields, fs: seq<(nat, FileMeta)>)
    ensures ApplyAll(e, Additions(fs)) == e.(newFiles := e.newFiles + fs)
    decreases |fs|
  {
    if fs == [] {
      assert e.newFiles + fs == e.newFiles;
    } else {
      assert Additions(fs)[1..] == Additions(fs[1..]);
      AdditionsApplied(e.(newFiles := e.newFiles + [fs[0]]), fs[1..]);
      assert e.newFiles + [fs[0]] + fs[1..] == e.newFiles + fs;
    }
  }

  /** Inserting the elements of a set in order rebuilds its list. */
  lemma {:induction false} DeletionsApplied(e: Fields, ds: seq<Level>)
    requires SortedSet(e.deletedFiles + ds)
    ensures ApplyAll(e, Deletions(ds)) == e.(deletedFiles := e.deletedFiles + ds)
    decreases |ds|
  {
    hide SortedSet;
    if ds == [] {
      assert e.deletedFiles + ds == e.deletedFiles;
    } else {
      assert Deletions(ds)[1..] == Deletions(ds[1..]);
      InOrder(e.deletedFiles, ds);
      assert e.deletedFiles + [ds[0]] + ds[1..] == e.deletedFiles + ds;
      DeletionsApplied(e.(deletedFiles := e.deletedFiles + [ds[0]]), ds[1..]);
    }
  }

  lemma {:induction false} InOrder(s: seq<Level>, ds: seq<Level>)
    requires SortedSet(s + ds) && ds != []
    ensures Insert(s, ds[0]) == s + [ds[0]]
  {
    if s != [] {
      assert (s + ds)[|s| - 1] == s[|s| - 1] && (s + ds)[|s|] == ds[0];
    }
  }

  /** The records of an edit make that edit. */
  lemma {:induction false} RecordsApplied(e: Fields)
    requires SortedSet(e.deletedFiles)
    ensures ApplyAll(EMPTY, Records(e)) == e
  {
    hide ApplyAll, SortedSet, Header, Pointers, Deletions, Additions;
    var h, p, d, a := Header(e), Pointers(e.compactPointers), Deletions(e.deletedFiles), Additions(e.newFiles);
    ApplyAllAppend(EMPTY, h + p + d, a);
    ApplyAllAppend(EMPTY, h + p, d);
    ApplyAllAppend(EMPTY, h, p);
    HeaderApplied(e);
    var e1 := e.(compactPointers := [], deletedFiles := [], newFiles := []);
    PointersApplied(e1, e.compactPointers);
    assert [] + e.compactPointers == e.compactPointers;
    assert [] + e.deletedFiles == e.deletedFiles;
    DeletionsApplied(e1.(compactPointers := e.compactPointers), e.deletedFiles);
    AdditionsApplied(e1.(compactPointers := e.compactPointers, deletedFiles := e.deletedFiles), e.newFiles);
    assert [] + e.newFiles == e.newFiles;
  }

  /** Decoding an encoded edit gives it back. */
  lemma {:induction false} EditRoundTrip(e: Fields)
    requires WfEdit(e)
    ensures Decoded(PutRecords(Records(e)), EMPTY) == Some(e)
  {
    hide Decoded, PutRecords, Records, SortedSet;
    DecodedRecords(Records(e), EMPTY);
    RecordsApplied(e);
  }

  class VersionEdit {
    var fields: Fields

    constructor ()
      ensures fields == EMPTY
    {
      fields := EMPTY;
    }

    /** Clear leaves the compaction pointers. */
    method Clear()
      modifies this
      ensures fields == EMPTY.(compactPointers := old(fields.compactPointers))
    {
      fields := EMPTY.(compactPointers := fields.compactPointers);
    }

    /** The numbers and the name, as far as they are set. */
    method EncodeHeader() returns (dst: Bytes)
      ensures dst == PutRecords(Header(fields))
    {
      hide PutRecord, PutRecords, Optional;
      NoRecords();
      var e := fields;
      var a := Optional(e.comparator, (s: Bytes) => Comparator(s));
      var b := Optional(e.logNumber, (n: nat) => LogNumber(n));
      var c := Optional(e.prevLogNumber, (n: nat) => PrevLogNumber(n));
      var d := Optional(e.nextFileNumber, (n: nat) => NextFileNumber(n));
      var f := Optional(e.lastSequence, (n: nat) => LastSequence(n));
      dst := EmitIfSet([], a, []);
      assert [] + a == a;
      dst := EmitIfSet(dst, b, a);
      dst := EmitIfSet(dst, c, a + b);
      dst := EmitIfSet(dst, d, a + b + c);
      dst := EmitIfSet(dst, f, a + b + c + d);
    }

    /** One optional field. */
    static method EmitIfSet(dst: Bytes, record: seq<Record>, ghost written: seq<Record>) returns (out: Bytes)
      requires dst == PutRecords(written) && |record| <= 1
      ensures out == PutRecords(written + record)
    {
      OneRecord(written, record);
      out := dst;
      if |record| == 1 {
        out := out + PutRecord(record[0]);
      }
    }

    method EncodeTo() returns (dst: Bytes)
      ensures dst == PutRecords(Records(fields))
    {
      hide PutRecord, PutRecords, Header;
      var e := fields;
      ghost var h, p, d := Header(e), Pointers(e.compactPointers), Deletions(e.deletedFiles);
      dst := EncodeHeader();
      assert h + p[..0] == h;
      for i := 0 to |e.compactPointers|
        invariant dst == PutRecords(h + p[..i])
      {
        OneRecord(h + p[..i], [p[i]]);
        assert h + p[..i] + [p[i]] == h + p[..i + 1];
        dst := dst + PutRecord(CompactPointer(e.compactPointers[i].0, e.compactPointers[i].1));
      }
      assert h + p[..|p|] == h + p == h + p + d[..0];
      for i := 0 to |e.deletedFiles|
        invariant dst == PutRecords(h + p + d[..i])
      {
        OneRecord(h + p + d[..i], [d[i]]);
        assert h + p + d[..i] + [d[i]] == h + p + d[..i + 1];
        dst := dst + PutRecord(DeletedFile(e.deletedFiles[i].level, e.deletedFiles[i].number));
      }
      ghost var a := Additions(e.newFiles);
      assert h + p + d[..|d|] == h + p + d == h + p + d + a[..0];
      for i := 0 to |e.newFiles|
        invariant dst == PutRecords(h + p + d + a[..i])
      {
        OneRecord(h + p + d + a[..i], [a[i]]);
        assert h + p + d + a[..i] + [a[i]] == h + p + d + a[..i + 1];
        dst := dst + PutRecord(NewFile(e.newFiles[i].0, e.newFiles[i].1));
      }
      assert a[..|a|] == a;
    }

    /** DecodeFrom: true, and the edit, if the bytes are records to the end. Compaction pointers that the
        object holds stay in front of those decoded. */
    method DecodeFrom(src: Bytes) returns (ok: bool)
      modifies this
      ensures var start := EMPTY.(compactPointers := old(fields.compactPointers));
        && (ok <==> Decoded(src, start).Some?)
        && (ok ==> fields == Decoded(src, start).value)
    {
      hide GetBody, Applied;
      Clear();
      ghost var start := fields;
      var input := src;
      while true
        invariant Decoded(src, start) == Decoded(input, fields)
        decreases |input|
      {
        var tag := Get32(input);
        if tag.None? {
          break;
        }
        var p := GetBody(tag.value.value, tag.value.rest);
        if p.None? {
          return false;
        }
        fields := Applied(fields, p.value.value);
        input := p.value.rest;
      }
      ok := input == [];
    }
  }

  lemma {:induction false} NoRecords()
    ensures PutRecords([]) == []
  {
  }

  lemma {:induction false} OneRecord(rs: seq<Record>, more: seq<Record>)
    requires |more| <= 1
    ensures PutRecords(rs + more) == PutRecords(rs) + if more == [] then [] else PutRecord(more[0])
  {
    hide PutRecord;
    PutRecordsAppend(rs, more);
    if |more| == 1 {
      assert more[1..] == [];
      assert PutRecords(more) == PutRecord(more[0]) + [];
    }
  }

  /** An edit survives the manifest. */
  method WriteThenRead(e: VersionEdit) returns (copy: VersionEdit, ok: bool)
    requires WfEdit(e.fields)
    ensures ok && copy.fields == e.fields
  {
    hide Decoded, PutRecords, Records, WfEdit;
    var dst := e.EncodeTo();
    EditRoundTrip(e.fields);
    copy := new VersionEdit();
    ok := copy.DecodeFrom(dst);
  }
}
