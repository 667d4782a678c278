/** Reading records back (db/log_reader.cc), from the start of the file and with checksums on. */
module LogReading {
  import opened Basics
  import opened LogFormat
  import opened LogWriting
  import opened Varints

  /** What ReadPhysicalRecord reports: a fragment with its type byte, kEof or kBadRecord. */
  datatype Fragment = Fragment(t: byte, payload: Bytes) | Eof | BadRecord

  datatype Result = Record(bytes: Bytes) | End

  /** A fragment and where its header stands in the file. */
  datatype Part = Part(pos: nat, t: byte, payload: Bytes) {
    function End(): nat {
      pos + 7 + |payload|
    }
  }

  /** The file holds this fragment: its checksum, its length, its type and its payload. */
  ghost predicate Sound(sum: Sum, file: Bytes, p: Part) {
    && p.End() <= |file|
    && sum.unmask(FromLittleEndian(file[p.pos..p.pos + 4])) == sum.value([p.t] + p.payload)
    && file[p.pos + 4] as int + 256 * (file[p.pos + 5] as int) == |p.payload| && file[p.pos + 6] == p.t
    && file[p.pos + 7..p.End()] == p.payload
  }

  /** From position `from` on the next header stands at pos: right there, or at the start of the next block if
      that is less than a header away. */
  predicate NextHeader(from: int, pos: int) {
    pos == from || (pos % 32768 == 0 && from < pos < from + 7)
  }

  function Joined(parts: seq<Part>): Bytes {
    if parts == [] then [] else Joined(parts[..|parts| - 1]) + parts[|parts| - 1].payload
  }

  /** The beginning of a fragmented record: a fragment of type 2 and others of type 3, one behind the other. */
  ghost predicate Begun(sum: Sum, file: Bytes, parts: seq<Part>) {
    && parts != [] && (forall i | 0 <= i < |parts| :: Sound(sum, file, parts[i]) && parts[i].t == if i == 0 then 2 else 3)
    && forall i | 0 < i < |parts| :: NextHeader(parts[i - 1].End(), parts[i].pos)
  }

  /** A whole record: one fragment of type 1, or one that has been begun and one of type 4 behind it. */
  ghost predicate Whole(sum: Sum, file: Bytes, parts: seq<Part>) {
    && parts != [] && var init, last := parts[..|parts| - 1], parts[|parts| - 1];
       && Sound(sum, file, last)
       && if init == [] then last.t == 1
          else last.t == 4 && Begun(sum, file, init) && NextHeader(init[|init| - 1].End(), last.pos)
  }

  lemma {:induction false} BeginRecord(sum: Sum, file: Bytes, p: Part)
    requires Sound(sum, file, p)
    ensures p.t == 2 ==> Begun(sum, file, [p])
    ensures p.t == 1 ==> Whole(sum, file, [p])
    ensures Joined([p]) == p.payload
  {
    hide Sound;
    assert [p][..0] == [] && Joined([]) == [];
  }

  lemma {:induction false} NotNothing(sum: Sum, file: Bytes, parts: seq<Part>)
    requires Begun(sum, file, parts)
    ensures parts != []
  {
  }

  lemma {:induction false} MoreOfRecord(sum: Sum, file: Bytes, parts: seq<Part>, p: Part)
    requires Begun(sum, file, parts) && Sound(sum, file, p) && NextHeader(parts[|parts| - 1].End(), p.pos)
    ensures p.t == 3 ==> Begun(sum, file, parts + [p])
    ensures p.t == 4 ==> Whole(sum, file, parts + [p])
    ensures Joined(parts + [p]) == Joined(parts) + p.payload
  {
    hide Sound, NextHeader;
    assert (parts + [p])[..|parts|] == parts;
  }

  class Reader {
    const sum: Sum
    const file: Bytes
    var filePos: nat
    var buffer: Bytes
    var eof: bool
    var corruptions: nat
    /** where the block in the buffer starts */
    ghost var blockStart: nat

    /** How much of the file has been consumed. */
    ghost function Pos(): int
      reads this`filePos, this`buffer
    {
      filePos - |buffer|
    }

    /** The buffer is the unread part of one block; a short block is the last one. */
    ghost predicate Valid()
      reads this
    {
      && filePos <= |file| && |buffer| <= filePos
      && buffer == file[filePos - |buffer|..filePos]
      && blockStart % BLOCK_SIZE == 0 && blockStart <= filePos - |buffer|
      && (eof ==> filePos == |file| && filePos < blockStart + BLOCK_SIZE)
      && (!eof ==> filePos == blockStart + BLOCK_SIZE || filePos == blockStart)
    }

    constructor (sum: Sum, file: Bytes)
      ensures Valid() && Pos() == 0 && corruptions == 0 && this.sum == sum && this.file == file
    {
      this.sum, this.file := sum, file;
      filePos, buffer, eof, corruptions := 0, [], false, 0;
      blockStart := 0;
    }

    /** From position p on, as far as the file goes, it holds a physical record written at block
        offset o and then rest. */
    ghost predicate Ahead(p: int, o: nat, t: byte, payload: Bytes, rest: Bytes) {
      && 0 <= p <= |file| && o <= BLOCK_SIZE && SamePlace(p, o)
      && t != ZERO && HeaderAt(o) + HEADER_SIZE + |payload| <= BLOCK_SIZE
      && file[p..] <= Zeros(Skip(o)) + (Physical(sum, t, payload) + rest)
    }

    /** The same once the trailer is skipped: the record starts in the buffer. */
    ghost predicate Parsable(t: byte, payload: Bytes, rest: Bytes)
      reads this
    {
      && |buffer| >= HEADER_SIZE && t != ZERO
      && HEADER_SIZE + |payload| <= BLOCK_SIZE
      && (!eof ==> HEADER_SIZE + |payload| <= |buffer|)
      && buffer <= Physical(sum, t, payload) + rest
    }

    method ReadBlock()
      requires Valid() && !eof && |buffer| < HEADER_SIZE
      modifies this`filePos, this`buffer, this`eof, this`blockStart
      ensures Valid() && blockStart == old(filePos) && Pos() == old(filePos)
      ensures eof <==> filePos == |file| && filePos < blockStart + BLOCK_SIZE
      ensures eof || |buffer| == BLOCK_SIZE
    {
      blockStart := filePos;
      var n := if |file| - filePos < BLOCK_SIZE then |file| - filePos else BLOCK_SIZE;
      buffer := file[filePos..filePos + n];
      filePos := filePos + n;
      if |buffer| < BLOCK_SIZE {
        eof := true;
      }
    }

    /** Makes a whole header available, reading the next block if there is one, or reports the end
        of the file. */
    method FillHeader() returns (more: bool)
      requires Valid()
      modifies this`filePos, this`buffer, this`eof, this`blockStart
      ensures Valid() && Pos() >= old(Pos())
      ensures more ==> |buffer| >= HEADER_SIZE
      ensures more ==> Pos() == (if |old(buffer)| >= HEADER_SIZE then old(Pos()) else old(filePos))
      ensures |old(buffer)| >= HEADER_SIZE ==> more && eof == old(eof) && blockStart == old(blockStart)
      ensures |old(buffer)| < HEADER_SIZE ==> (more <==> !old(eof) && |file| - old(filePos) >= HEADER_SIZE)
      ensures |old(buffer)| < HEADER_SIZE && more ==> blockStart == old(filePos)
    {
      if |buffer| < HEADER_SIZE {
        if !eof {
          ReadBlock();
        }
        if |buffer| < HEADER_SIZE {
          buffer := [];
          return false;
        }
      }
      more := true;
    }

    /** Takes one physical record out of the buffer. */
    method ParseRecord(ghost t0: byte, ghost payload: Bytes, ghost rest: Bytes) returns (r: Fragment)
      requires Valid() && |buffer| >= HEADER_SIZE
      modifies this`buffer, this`corruptions
      ensures Valid() && Pos() >= old(Pos())
      ensures !r.Eof? ==> Pos() > old(Pos())
      ensures corruptions >= old(corruptions)
      ensures r.BadRecord? || corruptions == old(corruptions)
      ensures r.Fragment? ==> Pos() == old(Pos()) + 7 + |r.payload| && Sound(sum, file, Part(old(Pos()), r.t, r.payload))
      ensures old(Parsable(t0, payload, rest)) ==>
          corruptions == old(corruptions)
          && if HEADER_SIZE + |payload| <= |old(buffer)|
             then r == Fragment.Fragment(t0, payload) && Pos() == old(Pos()) + HEADER_SIZE + |payload|
             else r == Eof
    {
      hide Physical;
      if Parsable(t0, payload, rest) {
        HeaderParses(sum, t0, payload, rest, buffer);
      }
      var length, t := HeaderLength(buffer), buffer[6];
      if HEADER_SIZE + length > |buffer| {
        buffer := [];
        if !eof {
          corruptions := corruptions + 1;
          return BadRecord;
        }
        return Eof;
      }
      if t == ZERO && length == 0 {
        buffer := [];
        return BadRecord;
      }
      var expected := sum.unmask(DecodeFixed32(buffer));
      var actual := sum.value(buffer[6..7 + length]);
      if actual != expected {
        buffer := [];
        corruptions := corruptions + 1;
        return BadRecord;
      }
      SoundHere(length, t);
      r := Fragment.Fragment(t, buffer[7..7 + length]);
      buffer := buffer[7 + length..];
    }

    lemma {:induction false} SoundHere(length: nat, t: byte)
      requires Valid() && HEADER_SIZE + length <= |buffer| && length == HeaderLength(buffer) && t == buffer[6]
      requires sum.unmask(DecodeFixed32(buffer)) == sum.value(buffer[6..7 + length])
      ensures Sound(sum, file, Part(Pos(), t, buffer[7..7 + length]))
    {
      hide FromLittleEndian;
      var p := Pos();
      assert forall i | 0 <= i < |buffer| :: buffer[i] == file[p + i];
      assert buffer[..4] == file[p..p + 4];
      assert buffer[6..7 + length] == [t] + buffer[7..7 + length];
      assert buffer[7..7 + length] == file[p + 7..p + 7 + length];
    }

    /** The next physical record: whole if the file holds all of it, the end of the file if not. What is returned,
        of whatever file, stands in it with the right checksum. */
    method ReadPhysicalRecord(ghost o: nat, ghost t: byte, ghost payload: Bytes, ghost rest: Bytes)
      returns (r: Fragment)
      requires Valid()
      modifies this
      ensures Valid() && Pos() >= old(Pos())
      ensures !r.Eof? ==> Pos() > old(Pos())
      ensures corruptions >= old(corruptions)
      ensures r.BadRecord? || corruptions == old(corruptions)
      ensures old(Pos()) == |file| ==> r == Eof
      ensures r.Fragment? ==> var at := Pos() - 7 - |r.payload|;
        0 <= at && NextHeader(old(Pos()), at) && Sound(sum, file, Part(at, r.t, r.payload))
      ensures Ahead(old(Pos()), o, t, payload, rest) ==>
          corruptions == old(corruptions)
          && if old(Pos()) + Skip(o) + HEADER_SIZE + |payload| <= |file|
             then r == Fragment.Fragment(t, payload) && Pos() == old(Pos()) + Skip(o) + HEADER_SIZE + |payload|
             else r == Eof
    {
      hide Physical, Zeros, Sound;
      ghost var p0, b0, s0 := Pos(), |buffer|, blockStart;
      if Ahead(Pos(), o, t, payload, rest) {
        TrailerIsRestOfBlock(o);
      }
      var more := FillHeader();
      if !more {
        return Eof;
      }
      if Ahead(p0, o, t, payload, rest) {
        assert Pos() == p0 + Skip(o);
        AfterTrailer(file, p0, Skip(o), Physical(sum, t, payload) + rest, Pos(), filePos);
        assert SamePlace(Pos(), HeaderAt(o));
        RoomInBlock(Pos(), HeaderAt(o), blockStart);
      }
      r := ParseRecord(t, payload, rest);
    }

    /** From position p on, as far as the file goes, it holds what is left of a record, then tail. */
    ghost predicate Coming(p: int, rec: Bytes, o: nat, begin: bool, tail: Bytes)
      requires o <= BLOCK_SIZE
    {
      && 0 <= p <= |file| && SamePlace(p, o)
      && file[p..] <= Fragments(sum, rec, o, begin) + tail
    }

    method ReportCorruption()
      requires Valid()
      modifies this`corruptions
      ensures Valid() && corruptions == old(corruptions) + 1
    {
      corruptions := corruptions + 1;
    }

    /** The switch on the type of a fragment: it begins, continues or completes a record, or counts as
        a corruption. */
    method Assemble(f: Fragment, scratch: Bytes, inFragmentedRecord: bool)
      returns (r: Option<Result>, scratch1: Bytes, inFragmented1: bool)
      requires Valid()
      modifies this`corruptions
      ensures Valid()
      ensures r == Some(End) <==> f.Eof?
      ensures f.Fragment? && f.t == 1 ==> r == Some(Record(f.payload))
      ensures f.Fragment? && f.t == 2 ==> r == None && scratch1 == f.payload && inFragmented1
      ensures f.Fragment? && f.t == 3 && inFragmentedRecord ==> r == None && scratch1 == scratch + f.payload && inFragmented1
      ensures f.Fragment? && f.t == 4 && inFragmentedRecord ==> r == Some(Record(scratch + f.payload))
      ensures f.BadRecord? || (f.Fragment? && f.t !in {1, 2, 3, 4}) || (f.Fragment? && f.t in {3, 4} && !inFragmentedRecord) ==>
        r == None && !inFragmented1
      ensures corruptions == old(corruptions) + match f
                                                case Eof => 0
                                                case BadRecord => if inFragmentedRecord then 1 else 0
                                                case Fragment(t, _) =>
                                                  if t == 1 || t == 2 then if inFragmentedRecord && scratch != [] then 1 else 0
                                                  else if t == 3 || t == 4 then if inFragmentedRecord then 0 else 1
                                                  else 1
    {
      hide Valid;
      r, scratch1, inFragmented1 := None, scratch, inFragmentedRecord;
      match f
      case Eof => r := Some(End);
      case BadRecord =>
        if inFragmentedRecord {
          ReportCorruption();
          inFragmented1, scratch1 := false, [];
        }
      case Fragment(kind, payload) =>
        if kind == FULL {
          if inFragmentedRecord && scratch != [] {
            ReportCorruption();
          }
          r := Some(Record(payload));
        } else if kind == FIRST {
          if inFragmentedRecord && scratch != [] {
            ReportCorruption();
          }
          scratch1, inFragmented1 := payload, true;
        } else if kind == MIDDLE {
          if inFragmentedRecord {
            scratch1 := scratch + payload;
          } else {
            ReportCorruption();
          }
        } else if kind == LAST {
          if inFragmentedRecord {
            r := Some(Record(scratch + payload));
          } else {
            ReportCorruption();
          }
        } else {
          ReportCorruption();
          inFragmented1, scratch1 := false, [];
        }
    }

    /** The next whole record. A record the file does not hold to its end is the end of the log; it
        is not reported as a corruption. A record returned, of whatever file, is made of fragments that stand
        in it one behind the other with the right checksums, the first of them where the search began or later. */
    method ReadRecord(ghost rec: Bytes, ghost o: nat, ghost tail: Bytes) returns (r: Result, ghost parts: seq<Part>)
      requires Valid() && o <= BLOCK_SIZE
      modifies this
      ensures Valid() && Pos() >= old(Pos())
      ensures r.Record? ==> Pos() > old(Pos())
      ensures r.Record? ==> Whole(sum, file, parts) && r.bytes == Joined(parts)
      ensures r.Record? ==> parts != [] && parts[0].pos >= old(Pos()) && parts[|parts| - 1].End() == Pos()
      ensures corruptions >= old(corruptions)
      ensures old(Pos()) == |file| ==> r == End && corruptions == old(corruptions)
      ensures Coming(old(Pos()), rec, o, true, tail) ==>
          corruptions == old(corruptions)
          && if old(Pos()) + |Fragments(sum, rec, o, true)| <= |file|
             then r == Record(rec) && Pos() == old(Pos()) + |Fragments(sum, rec, o, true)|
             else r == End
    {
      hide Coming, Ahead, Fragments, Fits, HeaderAt, Skip, Valid, SamePlace, Sound, NextHeader, Joined, Begun, Whole;
      parts := [];
      var scratch: Bytes, inFragmentedRecord := [], false;
      ghost var good, p0, c0 := Coming(Pos(), rec, o, true, tail), Pos(), corruptions;
      ghost var left, at: nat, begin := rec, o, true;
      while true
        invariant Valid() && at <= BLOCK_SIZE && Pos() >= p0 && corruptions >= c0
        invariant p0 == |file| ==> Pos() == p0 && corruptions == c0
        invariant good ==> corruptions == c0 && inFragmentedRecord == !begin && scratch + left == rec
        invariant good && begin ==> scratch == []
        invariant inFragmentedRecord ==> PartsSoFar(parts, scratch, p0)
        invariant good ==> Coming(Pos(), left, at, begin, tail)
        invariant good ==> Pos() + |Fragments(sum, left, at, begin)| == p0 + |Fragments(sum, rec, o, true)|
        decreases |file| - Pos()
      {
        PosInFile();
        ghost var n: nat, p: nat := Fits(left, at), Pos();
        ghost var t := TypeOf(begin, n == |left|);
        if good {
          ComingStep(p, left, at, begin, tail);
        }
        var f := ReadPhysicalRecord(at, t, left[..n], After(left, at, tail));
        PosInFile();
        if good {
          assert f == Fragment.Fragment(t, left[..n]) || f == Eof;
          assert left[..n] + left[n..] == left;
          assert scratch + left == scratch + left[..n] + left[n..];
        }
        if f.Fragment? {
          parts := NextPart(parts, scratch, inFragmentedRecord, p0, p, f.t, f.payload);
        }
        var r0: Option<Result>;
        r0, scratch, inFragmentedRecord := Assemble(f, scratch, inFragmentedRecord);
        if r0.Some? {
          return r0.value, parts;
        }
        left, at, begin := left[n..], HeaderAt(at) + HEADER_SIZE + n, false;
      }
    }

    /** The fragments in scratch, the last of which has just been read. */
    ghost predicate PartsSoFar(parts: seq<Part>, scratch: Bytes, from: int)
      reads this`filePos, this`buffer
    {
      && Begun(sum, file, parts) && Joined(parts) == scratch
      && parts[0].pos >= from && parts[|parts| - 1].End() == Pos()
    }

    /** The fragments of the record with one more. */
    ghost method NextPart(parts: seq<Part>, scratch: Bytes, inFragmentedRecord: bool, from: int, before: int, t: byte, payload: Bytes)
      returns (r: seq<Part>)
      requires var at := Pos() - 7 - |payload|; 0 <= at && NextHeader(before, at) && Sound(sum, file, Part(at, t, payload))
      requires from <= before
      requires inFragmentedRecord ==> Begun(sum, file, parts) && Joined(parts) == scratch && parts[0].pos >= from && parts[|parts| - 1].End() == before
      ensures t == 2 ==> PartsSoFar(r, payload, from)
      ensures t == 3 && inFragmentedRecord ==> PartsSoFar(r, scratch + payload, from)
      ensures t == 1 ==> Whole(sum, file, r) && Joined(r) == payload
      ensures t == 4 && inFragmentedRecord ==> Whole(sum, file, r) && Joined(r) == scratch + payload
      ensures r != [] && r[|r| - 1].End() == Pos()
      ensures t == 1 || (t == 4 && inFragmentedRecord) ==> r[0].pos >= from
    {
      hide Sound, Joined, Begun, Whole;
      var p := Part(Pos() - 7 - |payload|, t, payload);
      if inFragmentedRecord && t != 1 && t != 2 {
        NotNothing(sum, file, parts);
        MoreOfRecord(sum, file, parts, p);
        r := parts + [p];
      } else {
        BeginRecord(sum, file, p);
        r := [p];
      }
    }

    /** What follows the next physical record of a record being written at o. */
    ghost function After(rec: Bytes, o: nat, tail: Bytes): Bytes
      requires o <= BLOCK_SIZE
    {
      var n := Fits(rec, o);
      (if n == |rec| then [] else Fragments(sum, rec[n..], HeaderAt(o) + HEADER_SIZE + n, false)) + tail
    }

    lemma {:induction false} PosInFile()
      requires Valid()
      ensures 0 <= Pos() <= |file|
    {
    }

    lemma {:induction false} FragmentsUnfold(rec: Bytes, o: nat, begin: bool, tail: Bytes)
      requires o <= BLOCK_SIZE
      ensures var n := Fits(rec, o);
        var head := Zeros(Skip(o)) + Physical(sum, TypeOf(begin, n == |rec|), rec[..n]);
        && Fragments(sum, rec, o, begin) + tail == head + After(rec, o, tail)
        && |Fragments(sum, rec, o, begin)| == |head|
             + if n == |rec| then 0 else |Fragments(sum, rec[n..], HeaderAt(o) + HEADER_SIZE + n, false)|
    {
      hide Physical, Zeros, Fits, Skip, HeaderAt, TypeOf;
    }

    lemma {:induction false} SamePlaceStep(p: nat, o: nat, n: nat)
      requires o <= BLOCK_SIZE && SamePlace(p, o)
      ensures SamePlace(p + Skip(o) + HEADER_SIZE + n, HeaderAt(o) + HEADER_SIZE + n)
    {
    }

    /** One physical record of a record on its way. */
    lemma {:induction false} ComingStep(p: nat, rec: Bytes, o: nat, begin: bool, tail: Bytes)
      requires o <= BLOCK_SIZE && Coming(p, rec, o, begin, tail)
      ensures var n := Fits(rec, o);
        var p1, o1, all := p + Skip(o) + HEADER_SIZE + n, HeaderAt(o) + HEADER_SIZE + n, p + |Fragments(sum, rec, o, begin)|;
        && Ahead(p, o, TypeOf(begin, n == |rec|), rec[..n], After(rec, o, tail))
        && p1 <= all && (n == |rec| ==> p1 == all)
        && (n < |rec| && p1 <= |file| ==>
              Coming(p1, rec[n..], o1, false, tail) && all == p1 + |Fragments(sum, rec[n..], o1, false)|)
    {
      hide Physical, Zeros, Fragments, Fits, SamePlace, Skip, HeaderAt;
      var n := Fits(rec, o);
      var z, ph := Zeros(Skip(o)), Physical(sum, TypeOf(begin, n == |rec|), rec[..n]);
      var p1 := p + Skip(o) + HEADER_SIZE + n;
      FragmentsUnfold(rec, o, begin, tail);
      assert z + ph + After(rec, o, tail) == z + (ph + After(rec, o, tail));
      if n < |rec| && p1 <= |file| {
        SamePlaceStep(p, o, n);
        PrefixOfSum(file[p..], z + ph, After(rec, o, tail), []);
        assert file[p..][p1 - p..] == file[p1..];
      }
    }

    /** Once the record is whole in the file, what follows it is what was written next. */
    lemma {:induction false} ComingDone(p: nat, rec: Bytes, o: nat, tail: Bytes)
      requires o <= BLOCK_SIZE && Coming(p, rec, o, true, tail)
      requires p + |Fragments(sum, rec, o, true)| <= |file|
      ensures var p1 := p + |Fragments(sum, rec, o, true)|;
        file[p1..] <= tail && SamePlace(p1, OffsetAfter(rec, o))
    {
      hide Fragments, OffsetAfter;
      var f := Fragments(sum, rec, o, true);
      PrefixOfSum(file[p..], f, tail, []);
      assert file[p..][|f|..] == file[p + |f|..];
      OffsetTracksLength(sum, rec, o, true, p);
    }

    /** A trailer to skip is exactly what the buffer still holds. */
    lemma {:induction false} TrailerIsRestOfBlock(o: nat)
      requires Valid() && o <= BLOCK_SIZE && SamePlace(Pos(), o)
      ensures !eof ==> (if |buffer| >= HEADER_SIZE then Skip(o) == 0 else |buffer| == Skip(o))
      ensures eof && |buffer| >= HEADER_SIZE ==> Skip(o) == 0
    {
    }
  }

  /** The length field: two bytes, the low one first. */
  function HeaderLength(buf: Bytes): nat
    requires |buf| >= HEADER_SIZE
  {
    var a: nat, b: nat := buf[4], buf[5];
    a + 256 * b
  }

  /** The header fields of a physical record parse to what was written. */
  lemma {:induction false} HeaderParses(c: Sum, t: byte, payload: Bytes, rest: Bytes, buf: Bytes)
    requires |payload| <= 0xffff && HEADER_SIZE <= |buf|
    requires buf <= Physical(c, t, payload) + rest
    ensures HeaderLength(buf) == |payload| && buf[6] == t
    ensures c.unmask(DecodeFixed32(buf)) == c.value([t] + payload)
    ensures HEADER_SIZE + |payload| <= |buf| ==>
        buf[6..7 + |payload|] == [t] + payload && buf[7..7 + |payload|] == payload
  {
    hide Fixed32, DecodeFixed32;
    var w := c.mask(c.value([t] + payload));
    var f := Fixed32(w);
    var tail := [|payload| % 256, |payload| / 256] + ([t] + payload);
    assert Physical(c, t, payload) == f + tail;
    PrefixOfSum(buf, f, tail, rest);
    Fixed32RoundTrip(w, buf[4..]);
    assert buf[6..] <= [t] + payload + rest by {
      PrefixOfSum(buf[4..], [|payload| % 256, |payload| / 256], [t] + payload, rest);
    }
    assert buf[4] == buf[4..][0] && buf[5] == buf[4..][1];
    if HEADER_SIZE + |payload| <= |buf| {
      assert buf[6..7 + |payload|] == buf[6..][..1 + |payload|] == [t] + payload;
      assert buf[7..7 + |payload|] == buf[6..7 + |payload|][1..];
    }
  }

  /** A prefix that covers the first part is that part and a prefix of what follows. */
  lemma {:induction false} PrefixOfSum(s: Bytes, a: Bytes, b: Bytes, rest: Bytes)
    requires s <= a + b + rest && |a| <= |s|
    ensures s == a + s[|a|..] && s[|a|..] <= b + rest
  {
    assert a + b + rest == a + (b + rest);
    assert s == (a + (b + rest))[..|s|];
    assert s[..|a|] == a;
    assert s[|a|..] == (b + rest)[..|s| - |a|];
  }

  lemma {:induction false} AfterTrailer(file: Bytes, p: nat, skip: nat, s: Bytes, from: nat, to: nat)
    requires p <= |file| && from == p + skip && from <= to <= |file|
    requires file[p..] <= Zeros(skip) + s
    ensures file[from..to] <= s
  {
    hide Zeros;
    var z := Zeros(skip) + s;
    assert forall i | from <= i < to :: file[i] == file[p..][i - p] == z[i - p] == s[i - from];
  }

  lemma {:induction false} RoomInBlock(p: nat, h: nat, start: nat)
    requires SamePlace(p, h) && h < BLOCK_SIZE
    requires start % BLOCK_SIZE == 0 && start <= p < start + BLOCK_SIZE
    ensures p == start + h
  {
  }

  /** The records of rs that are wholly inside the first len bytes of its log. */
  function Complete(c: Sum, rs: seq<Bytes>, o: nat, len: nat): seq<Bytes>
    requires o <= BLOCK_SIZE
  {
    if rs == [] then []
    else
      var n := |Fragments(c, rs[0], o, true)|;
      if n > len then [] else [rs[0]] + Complete(c, rs[1..], OffsetAfter(rs[0], o), len - n)
  }

  /** That is the longest prefix of rs whose log fits. */
  lemma {:induction false} CompleteIsLongest(c: Sum, rs: seq<Bytes>, o: nat, len: nat)
    requires o <= BLOCK_SIZE
    ensures var k := |Complete(c, rs, o, len)|;
      && k <= |rs| && Complete(c, rs, o, len) == rs[..k] && |LogFrom(c, rs[..k], o)| <= len
      && (k < |rs| ==> |LogFrom(c, rs[..k + 1], o)| > len)
  {
    hide Fragments, OffsetAfter;
    if rs != [] && |Fragments(c, rs[0], o, true)| <= len {
      var o1, len1 := OffsetAfter(rs[0], o), len - |Fragments(c, rs[0], o, true)|;
      CompleteIsLongest(c, rs[1..], o1, len1);
      var k := |Complete(c, rs[1..], o1, len1)|;
      assert rs[..k + 1][1..] == rs[1..][..k];
      assert rs[..k + 1] == [rs[0]] + rs[1..][..k];
      if k + 1 < |rs| {
        assert rs[..k + 2][1..] == rs[1..][..k + 1];
      }
    } else if rs != [] {
      assert rs[..1][1..] == [];
      assert LogFrom(c, rs[..1], o) == Fragments(c, rs[0], o, true) + [];
    }
  }

  /** Nothing is lost of a complete log. */
  lemma {:induction false} CompleteAll(c: Sum, rs: seq<Bytes>, o: nat)
    requires o <= BLOCK_SIZE
    ensures Complete(c, rs, o, |LogFrom(c, rs, o)|) == rs
  {
    hide Fragments, OffsetAfter;
    if rs != [] {
      CompleteAll(c, rs[1..], OffsetAfter(rs[0], o));
    }
  }

  /** Where the first fragment of a record stands, and where the last one ends. */
  function StartOf(parts: seq<Part>): nat {
    if parts == [] then 0 else parts[0].pos
  }

  function EndOf(parts: seq<Part>): nat {
    if parts == [] then 0 else parts[|parts| - 1].End()
  }

  /** Each record is made of fragments that stand in the file with the right checksums, record behind record, the
      last of them ending at `to` or before. */
  ghost predicate Found(sum: Sum, file: Bytes, records: seq<Bytes>, parts: seq<seq<Part>>, to: int) {
    && |parts| == |records|
    && (forall i | 0 <= i < |records| :: Whole(sum, file, parts[i]) && records[i] == Joined(parts[i]))
    && (forall i, j | 0 <= i < j < |parts| :: EndOf(parts[i]) <= StartOf(parts[j]))
    && (forall i | 0 <= i < |parts| :: EndOf(parts[i]) <= to)
  }

  lemma {:induction false} NothingFound(sum: Sum, file: Bytes)
    ensures Found(sum, file, [], [], 0)
  {
  }

  lemma {:induction false} FoundOneMore(sum: Sum, file: Bytes, records: seq<Bytes>, parts: seq<seq<Part>>, from: int,
                                        record: Bytes, found: seq<Part>, to: int)
    requires Found(sum, file, records, parts, from) && Whole(sum, file, found) && record == Joined(found)
    requires StartOf(found) >= from && EndOf(found) == to && from <= to
    ensures Found(sum, file, records + [record], parts + [found], to)
  {
    hide Whole, Joined, StartOf, EndOf;
  }

  lemma {:induction false} Ends(parts: seq<Part>)
    requires parts != []
    ensures StartOf(parts) == parts[0].pos && EndOf(parts) == parts[|parts| - 1].End()
  {
  }

  lemma {:induction false} LogAhead(c: Sum, rs: seq<Bytes>, o: nat, len: nat)
    requires o <= BLOCK_SIZE
    ensures rs == [] ==> LogFrom(c, rs, o) == [] && Complete(c, rs, o, len) == []
    ensures rs != [] ==>
      var n := |Fragments(c, rs[0], o, true)|;
      && LogFrom(c, rs, o) == Fragments(c, rs[0], o, true) + LogFrom(c, rs[1..], OffsetAfter(rs[0], o))
      && Complete(c, rs, o, len) == if n > len then [] else [rs[0]] + Complete(c, rs[1..], OffsetAfter(rs[0], o), len - n)
  {
    hide Fragments, OffsetAfter;
  }

  lemma {:induction false} FoundUpTo(sum: Sum, file: Bytes, records: seq<Bytes>, parts: seq<seq<Part>>, from: int, to: int)
    requires Found(sum, file, records, parts, from) && from <= to
    ensures Found(sum, file, records, parts, to)
  {
    hide Whole, Joined, StartOf, EndOf;
  }

  /** Reads a log to its end. On any byte prefix of a written log this gives exactly the records that
      are wholly in it, and no corruption is reported. */
  method ReadLog(sum: Sum, file: Bytes, ghost rs: seq<Bytes>) returns (records: seq<Bytes>, corruptions: nat, ghost parts: seq<seq<Part>>)
    ensures file <= LogFrom(sum, rs, 0) ==> records == Complete(sum, rs, 0, |file|) && corruptions == 0
    ensures Found(sum, file, records, parts, |file|)
  {
    hide Fragments, OffsetAfter, Whole, Joined, Found, Reader.Valid, LogFrom, Complete, StartOf, EndOf;
    var reader := new Reader(sum, file);
    records, parts := [], [];
    NothingFound(sum, file);
    reader.PosInFile();
    ghost var good := file <= LogFrom(sum, rs, 0);
    ghost var left, o: nat := rs, 0;
    while true
      invariant fresh(reader) && reader.Valid() && reader.file == file && reader.sum == sum && o <= BLOCK_SIZE
      invariant 0 <= reader.Pos() <= |file| && Found(sum, file, records, parts, reader.Pos())
      invariant good ==> reader.corruptions == 0 && SamePlace(reader.Pos(), o)
      invariant good ==> file[reader.Pos()..] <= LogFrom(sum, left, o)
      invariant good ==> records + Complete(sum, left, o, |file| - reader.Pos()) == Complete(sum, rs, 0, |file|)
      decreases |file| - reader.Pos()
    {
      ghost var p := reader.Pos();
      LogAhead(sum, left, o, |file| - p);
      ghost var rec := if left == [] then [] else left[0];
      ghost var tail := if left == [] then [] else LogFrom(sum, left[1..], OffsetAfter(left[0], o));
      var r;
      ghost var found;
      r, found := reader.ReadRecord(rec, o, tail);
      reader.PosInFile();
      if r == End {
        FoundUpTo(sum, file, records, parts, p, reader.Pos());
        break;
      }
      if good {
        reader.ComingDone(p, rec, o, tail);
      }
      Ends(found);
      FoundOneMore(sum, file, records, parts, p, r.bytes, found, reader.Pos());
      records, parts := records + [r.bytes], parts + [found];
      left, o := if left == [] then [] else left[1..], OffsetAfter(rec, o);
    }
    FoundUpTo(sum, file, records, parts, reader.Pos(), |file|);
    corruptions := reader.corruptions;
  }

  /** What the writer adds, the reader returns. */
  method WriteThenRead(sum: Sum, rs: seq<Bytes>) returns (records: seq<Bytes>, corruptions: nat)
    ensures records == rs && corruptions == 0
  {
    var w := new Writer(sum, []);
    AddRecords(w, rs);
    ghost var parts;
    records, corruptions, parts := ReadLog(sum, w.dest, rs);
    CompleteAll(sum, rs, 0);
  }
}
