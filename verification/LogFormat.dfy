/** The write-ahead log format (db/log_format.h, db/log_writer.cc): what a record becomes. */
module LogFormat {
  import opened Basics
  import opened Varints

  const BLOCK_SIZE: nat := 32768
  const HEADER_SIZE: nat := 7

  const ZERO: byte := 0
  const FULL: byte := 1
  const FIRST: byte := 2
  const MIDDLE: byte := 3
  const LAST: byte := 4

  /** crc32c::Value with the masking used for stored checksums; nothing else about them matters. */
  datatype Checksum = Checksum(value: Bytes -> nat, mask: nat -> nat, unmask: nat -> nat) {
    ghost predicate Ok() {
      && (forall b :: value(b) < TWO32)
      && (forall w: nat | w < TWO32 :: mask(w) < TWO32 && unmask(mask(w)) == w)
    }
  }

  type Sum = c: Checksum | c.Ok() witness Checksum((b: Bytes) => 0, (w: nat) => w, (w: nat) => w)

  /** EncodeFixed32: little endian. */
  function Fixed32(w: nat): (b: Bytes)
    requires w < TWO32
    ensures |b| == 4
  {
    LittleEndian(w, 4)
  }

  function DecodeFixed32(b: Bytes): nat
    requires |b| >= 4
  {
    FromLittleEndian(b[..4])
  }

  lemma {:induction false} Fixed32RoundTrip(w: nat, rest: Bytes)
    requires w < TWO32
    ensures DecodeFixed32(Fixed32(w) + rest) == w
  {
    Widths();
    LittleEndianRoundTrip(w, 4);
    assert (Fixed32(w) + rest)[..4] == Fixed32(w);
  }

  /** EmitPhysicalRecord: masked checksum of type and payload, length, type, payload. */
  function Physical(c: Sum, t: byte, payload: Bytes): (r: Bytes)
    requires |payload| <= 0xffff
    ensures |r| == HEADER_SIZE + |payload|
  {
    Fixed32(c.mask(c.value([t] + payload))) + [|payload| % 256, |payload| / 256] + [t] + payload
  }

  function Zeros(n: nat): (z: Bytes)
    ensures |z| == n
  {
    if n == 0 then [] else Zeros(n - 1) + [0]
  }

  /** Where the next header goes: a tail too short for one is filled with zeros. */
  function Skip(o: nat): (z: nat)
    requires o <= BLOCK_SIZE
    ensures z < HEADER_SIZE
  {
    if BLOCK_SIZE - o < HEADER_SIZE then BLOCK_SIZE - o else 0
  }

  function HeaderAt(o: nat): (o1: nat)
    requires o <= BLOCK_SIZE
    ensures o1 + HEADER_SIZE <= BLOCK_SIZE
  {
    if BLOCK_SIZE - o < HEADER_SIZE then 0 else o
  }

  /** How much of rec fits behind the header. */
  function Fits(rec: Bytes, o: nat): (n: nat)
    requires o <= BLOCK_SIZE
    ensures n <= |rec| && HeaderAt(o) + HEADER_SIZE + n <= BLOCK_SIZE
  {
    var avail := BLOCK_SIZE - HeaderAt(o) - HEADER_SIZE;
    if |rec| < avail then |rec| else avail
  }

  function TypeOf(begin: bool, end: bool): byte {
    if begin && end then FULL else if begin then FIRST else if end then LAST else MIDDLE
  }

  /** The bytes of one record (or of what is left of it) written at block offset o. */
  function Fragments(c: Sum, rec: Bytes, o: nat, begin: bool): Bytes
    requires o <= BLOCK_SIZE
    decreases |rec|, if HeaderAt(o) + HEADER_SIZE == BLOCK_SIZE then 1 else 0
  {
    var n := Fits(rec, o);
    var end := n == |rec|;
    Zeros(Skip(o)) + Physical(c, TypeOf(begin, end), rec[..n])
      + if end then [] else Fragments(c, rec[n..], HeaderAt(o) + HEADER_SIZE + n, false)
  }

  /** The block offset afterwards. */
  function OffsetAfter(rec: Bytes, o: nat): (o1: nat)
    requires o <= BLOCK_SIZE
    ensures o1 <= BLOCK_SIZE
    decreases |rec|, if HeaderAt(o) + HEADER_SIZE == BLOCK_SIZE then 1 else 0
  {
    var n := Fits(rec, o);
    if n == |rec| then HeaderAt(o) + HEADER_SIZE + n else OffsetAfter(rec[n..], HeaderAt(o) + HEADER_SIZE + n)
  }

  /** The bytes of a list of records, starting at block offset o. */
  function LogFrom(c: Sum, rs: seq<Bytes>, o: nat): Bytes
    requires o <= BLOCK_SIZE
  {
    if rs == [] then [] else Fragments(c, rs[0], o, true) + LogFrom(c, rs[1..], OffsetAfter(rs[0], o))
  }

  /** Two offsets name the same place in the block grid. */
  predicate SamePlace(p: nat, o: nat) {
    p % BLOCK_SIZE == o % BLOCK_SIZE
  }

  /** The tracked offset stays in step with the file position. */
  lemma {:induction false} OffsetTracksLength(c: Sum, rec: Bytes, o: nat, begin: bool, p: nat)
    requires o <= BLOCK_SIZE && SamePlace(p, o)
    ensures SamePlace(p + |Fragments(c, rec, o, begin)|, OffsetAfter(rec, o))
    decreases |rec|, if HeaderAt(o) + HEADER_SIZE == BLOCK_SIZE then 1 else 0
  {
    var n := Fits(rec, o);
    var p1 := p + Skip(o) + HEADER_SIZE + n;
    assert SamePlace(p1, HeaderAt(o) + HEADER_SIZE + n);
    if n < |rec| {
      OffsetTracksLength(c, rec[n..], HeaderAt(o) + HEADER_SIZE + n, false, p1);
    }
  }

  /** A full block and the start of the next one are the same offset. */
  lemma {:induction false} FullBlockIsStart(c: Sum, rec: Bytes, begin: bool)
    ensures Fragments(c, rec, BLOCK_SIZE, begin) == Fragments(c, rec, 0, begin)
    ensures OffsetAfter(rec, BLOCK_SIZE) == OffsetAfter(rec, 0)
  {
    assert Zeros(0) == [];
  }

  function OffsetAfterAll(rs: seq<Bytes>, o: nat): (o1: nat)
    requires o <= BLOCK_SIZE
    ensures o1 <= BLOCK_SIZE
  {
    if rs == [] then o else OffsetAfterAll(rs[1..], OffsetAfter(rs[0], o))
  }

  /** A list written in two parts. */
  lemma {:induction false} LogFromSplit(c: Sum, rs: seq<Bytes>, ss: seq<Bytes>, o: nat)
    requires o <= BLOCK_SIZE
    ensures LogFrom(c, rs + ss, o) == LogFrom(c, rs, o) + LogFrom(c, ss, OffsetAfterAll(rs, o))
  {
    if rs == [] {
      assert rs + ss == ss;
    } else {
      assert (rs + ss)[1..] == rs[1..] + ss;
      LogFromSplit(c, rs[1..], ss, OffsetAfter(rs[0], o));
    }
  }

  lemma {:induction false} OffsetTracksLog(c: Sum, rs: seq<Bytes>, o: nat, p: nat)
    requires o <= BLOCK_SIZE && SamePlace(p, o)
    ensures SamePlace(p + |LogFrom(c, rs, o)|, OffsetAfterAll(rs, o))
  {
    if rs != [] {
      OffsetTracksLength(c, rs[0], o, true, p);
      OffsetTracksLog(c, rs[1..], OffsetAfter(rs[0], o), p + |Fragments(c, rs[0], o, true)|);
    }
  }

  /** Offsets that name the same place lead to the same bytes. */
  lemma {:induction false} SamePlaceSameLog(c: Sum, rs: seq<Bytes>, o1: nat, o2: nat)
    requires o1 <= BLOCK_SIZE && o2 <= BLOCK_SIZE && SamePlace(o1, o2)
    ensures LogFrom(c, rs, o1) == LogFrom(c, rs, o2)
  {
    hide Fragments, OffsetAfter;
    if rs != [] && o1 != o2 {
      assert (o1 == 0 && o2 == BLOCK_SIZE) || (o1 == BLOCK_SIZE && o2 == 0);
      FullBlockIsStart(c, rs[0], true);
    }
  }
}
