/** Writing records (db/log_writer.cc). */
module LogWriting {
  import opened Basics
  import opened LogFormat

  class Writer {
    const sum: Sum
    var dest: Bytes
    var blockOffset: nat

    /** The offset in the block agrees with the length of the file. */
    ghost predicate Valid()
      reads this
    {
      blockOffset <= BLOCK_SIZE && SamePlace(|dest|, blockOffset)
    }

    /** A writer on an existing file of any length. */
    constructor (sum: Sum, existing: Bytes)
      ensures Valid() && dest == existing && this.sum == sum
      ensures blockOffset == |existing| % BLOCK_SIZE
    {
      this.sum := sum;
      dest := existing;
      blockOffset := |existing| % BLOCK_SIZE;
    }

    /** One round of the loop: the trailer if no header fits, then one physical record. */
    method EmitFragment(left: Bytes, begin: bool) returns (fragmentLength: nat)
      requires blockOffset <= BLOCK_SIZE
      modifies this
      ensures blockOffset <= BLOCK_SIZE && fragmentLength == Fits(left, old(blockOffset))
      ensures blockOffset == HeaderAt(old(blockOffset)) + HEADER_SIZE + fragmentLength
      ensures dest == old(dest) + (Zeros(Skip(old(blockOffset)))
                                   + Physical(sum, TypeOf(begin, fragmentLength == |left|), left[..fragmentLength]))
    {
      hide Physical;
      var leftover := BLOCK_SIZE - blockOffset;
      if leftover < HEADER_SIZE {
        dest := dest + Zeros(leftover);
        blockOffset := 0;
      } else {
        assert Zeros(0) == [];
      }
      var avail := BLOCK_SIZE - blockOffset - HEADER_SIZE;
      fragmentLength := if |left| < avail then |left| else avail;
      dest := dest + Physical(sum, TypeOf(begin, |left| == fragmentLength), left[..fragmentLength]);
      blockOffset := blockOffset + HEADER_SIZE + fragmentLength;
    }

    /** AddRecord: fragments the record over the blocks; an empty record still gets a header. */
    method AddRecord(slice: Bytes)
      requires Valid()
      modifies this
      ensures Valid()
      ensures dest == old(dest) + Fragments(sum, slice, old(blockOffset), true)
      ensures blockOffset == OffsetAfter(slice, old(blockOffset))
    {
      hide Physical, Zeros, Fragments, OffsetAfter, SamePlace;
      var left := slice;
      var begin := true;
      ghost var start, o := dest, blockOffset;
      OffsetTracksLength(sum, slice, blockOffset, true, |dest|);
      while true
        invariant blockOffset <= BLOCK_SIZE
        invariant dest + Fragments(sum, left, blockOffset, begin) == start + Fragments(sum, slice, o, true)
        invariant OffsetAfter(left, blockOffset) == OffsetAfter(slice, o)
        decreases |left|, if HeaderAt(blockOffset) + HEADER_SIZE == BLOCK_SIZE then 1 else 0
      {
        FragmentsStep(sum, left, blockOffset, begin, dest);
        var n := EmitFragment(left, begin);
        if n == |left| {
          break;
        }
        left, begin := left[n..], false;
      }
    }
  }

  /** What one round leaves for the next. */
  lemma {:induction false} FragmentsStep(c: Sum, rec: Bytes, o: nat, begin: bool, before: Bytes)
    requires o <= BLOCK_SIZE
    ensures var n := Fits(rec, o);
      var o1 := HeaderAt(o) + HEADER_SIZE + n;
      var head := Zeros(Skip(o)) + Physical(c, TypeOf(begin, n == |rec|), rec[..n]);
      && before + Fragments(c, rec, o, begin) == (before + head) + (if n == |rec| then [] else Fragments(c, rec[n..], o1, false))
      && OffsetAfter(rec, o) == if n == |rec| then o1 else OffsetAfter(rec[n..], o1)
  {
    hide Physical, Zeros;
  }

  /** Records added one after another, wherever the writer starts. */
  method AddRecords(w: Writer, rs: seq<Bytes>)
    requires w.Valid()
    modifies w
    ensures w.Valid()
    ensures w.dest == old(w.dest) + LogFrom(w.sum, rs, old(w.blockOffset))
  {
    hide Fragments, OffsetAfter;
    ghost var start, o := w.dest, w.blockOffset;
    assert rs[0..] == rs;
    for i := 0 to |rs|
      invariant w.Valid()
      invariant w.dest + LogFrom(w.sum, rs[i..], w.blockOffset) == start + LogFrom(w.sum, rs, o)
    {
      assert rs[i..][0] == rs[i] && rs[i..][1..] == rs[i + 1..];
      w.AddRecord(rs[i]);
    }
  }

  /** Closing the file and reopening a writer at its length changes nothing in what follows. */
  method ReopenedWriterContinues(sum: Sum, rs: seq<Bytes>, ss: seq<Bytes>) returns (once: Bytes, reopened: Bytes)
    ensures once == reopened == LogFrom(sum, rs + ss, 0)
  {
    hide LogFrom, OffsetAfterAll;
    var w := new Writer(sum, []);
    AddRecords(w, rs + ss);
    once := w.dest;
    var w1 := new Writer(sum, []);
    AddRecords(w1, rs);
    var w2 := new Writer(sum, w1.dest);
    AddRecords(w2, ss);
    reopened := w2.dest;
    assert once == LogFrom(sum, rs + ss, 0);
    assert w1.dest == LogFrom(sum, rs, 0);
    LogFromSplit(sum, rs, ss, 0);
    OffsetTracksLog(sum, rs, 0, 0);
    SamePlaceSameLog(sum, ss, OffsetAfterAll(rs, 0), |LogFrom(sum, rs, 0)| % BLOCK_SIZE);
  }
}
