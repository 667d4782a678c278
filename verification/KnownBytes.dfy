/**
 * Encodings whose bytes are known from the formats themselves. A writer and a reader that agreed with each other
 * on other tags, type codes, widths or byte orders would still undo one another; these lemmas tell them apart.
 */
module KnownBytes {
  import opened Basics
  import opened Varints
  import LogFormat
  import BlockFormat
  import FilterBlocks
  import TableFormat
  import VersionEdits
  import WriteBatches
  import opened PbFormat
  import PbScalars
  import PbReading
  import PbRecords
  import PbMeaning

  // ---- Integers ----

  lemma {:induction false} VarintBytes()
    ensures PutVarint(0) == [0] && PutVarint(1) == [1] && PutVarint(127) == [127] && PutVarint(128) == [128, 1]
    ensures PutVarint(150) == [150, 1] && PutVarint(300) == [172, 2] && PutVarint(16384) == [128, 128, 1]
    ensures GetVarint32([172, 2]) == Some(Got(300, 2)) && GetVarint64([150, 1]) == Some(Got(150, 2))
  {
    assert PutVarint(2) == [2];
    assert GetVarint([2], 4) == Some(Got(2, 1));
    assert GetVarint([1], 9) == Some(Got(1, 1));
    assert [172, 2][1..] == [2] && [150, 1][1..] == [1];
  }

  lemma {:induction false} FixedBytes()
    ensures LittleEndian(0x0102_0304, 4) == [4, 3, 2, 1]
    ensures LittleEndian(7, 8) == [7, 0, 0, 0, 0, 0, 0, 0]
  {
    hide LittleEndian;
    LowByte(0x0102_0304, 4);
    LowByte(0x01_0203, 3);
    LowByte(0x0102, 2);
    LowByte(1, 1);
    LowByte(7, 8);
    ZeroBytes();
    assert [3] + [2, 1] == [3, 2, 1] && [4] + [3, 2, 1] == [4, 3, 2, 1];
  }

  lemma {:induction false} LowByte(n: nat, size: nat)
    requires size > 0
    ensures LittleEndian(n, size) == [n % 256] + LittleEndian(n / 256, size - 1) && LittleEndian(0, 0) == []
  {
  }

  lemma {:induction false} ZeroBytes()
    ensures LittleEndian(0, 0) == [] && LittleEndian(0, 3) == [0, 0, 0] && LittleEndian(0, 4) == [0, 0, 0, 0]
    ensures LittleEndian(0, 7) == [0, 0, 0, 0, 0, 0, 0]
  {
    hide LittleEndian;
    LowByte(0, 1);
    LowByte(0, 2);
    LowByte(0, 3);
    LowByte(0, 4);
    LowByte(0, 5);
    LowByte(0, 6);
    LowByte(0, 7);
    assert LittleEndian(0, 3) == [0, 0, 0];
    assert LittleEndian(0, 5) == [0, 0, 0, 0, 0];
  }

  lemma {:induction false} ZigZagNumbers()
    ensures ZigZag(0) == 0 && ZigZag(-1) == 1 && ZigZag(1) == 2 && ZigZag(-2) == 3
    ensures ZigZag(2147483647) == 4294967294 && ZigZag(-2147483648) == 4294967295
  {
  }

  // ---- leveldb ----

  lemma {:induction false} BatchBytes()
    ensures WriteBatches.Header(7, 2) == [7, 0, 0, 0, 0, 0, 0, 0, 2, 0, 0, 0]
    ensures WriteBatches.PutRecord(WriteBatches.Put([97], [98])) == [1, 1, 97, 1, 98]
    ensures WriteBatches.PutRecord(WriteBatches.Delete([97])) == [0, 1, 97]
  {
    hide LittleEndian, PutVarint;
    FixedBytes();
    ZeroBytes();
    LowByte(2, 4);
    SmallVarints();
  }

  /** A record that fits into what is left of its block is one fragment of type 1. */
  lemma {:induction false} WholeFragment(c: LogFormat.Sum, rec: Bytes, o: nat)
    requires o + 7 + |rec| <= 32768
    ensures LogFormat.Fragments(c, rec, o, true)
         == LogFormat.Fixed32(c.mask(c.value([1] + rec))) + [|rec| % 256, |rec| / 256, 1] + rec
  {
    hide LogFormat.Fixed32;
    assert rec[..|rec|] == rec;
    assert LogFormat.Zeros(0) == [];
    var crc := LogFormat.Fixed32(c.mask(c.value([1] + rec)));
    assert LogFormat.Physical(c, 1, rec) == crc + [|rec| % 256, |rec| / 256, 1] + rec;
  }

  /** A record that needs two blocks is a fragment of type 2 up to the end of the first, and one of type 4. */
  lemma {:induction false} TwoFragments(c: LogFormat.Sum, rec: Bytes, o: nat)
    requires o + 7 <= 32768 && 32761 - o < |rec| <= 32761 - o + 32761
    ensures LogFormat.Fragments(c, rec, o, true)
         == LogFormat.Physical(c, 2, rec[..32761 - o]) + LogFormat.Physical(c, 4, rec[32761 - o..])
  {
    hide LogFormat.Physical;
    var rest := rec[32761 - o..];
    assert rest[..|rest|] == rest;
    assert LogFormat.Zeros(0) == [];
    assert LogFormat.Fragments(c, rest, 32768, false) == LogFormat.Physical(c, 4, rest);
  }

  /** A fragment in the middle has type 3. */
  lemma {:induction false} MiddleFragment(c: LogFormat.Sum, rec: Bytes)
    requires |rec| > 32761
    ensures LogFormat.Fragments(c, rec, 0, false)
         == LogFormat.Physical(c, 3, rec[..32761]) + LogFormat.Fragments(c, rec[32761..], 32768, false)
  {
    hide LogFormat.Physical;
    assert LogFormat.Zeros(0) == [];
  }

  /** A tail of a block too short for a header is filled with zeros. */
  lemma {:induction false} ShortTail(c: LogFormat.Sum, rec: Bytes, o: nat)
    requires 32768 - 7 < o <= 32768
    ensures LogFormat.Fragments(c, rec, o, true) == LogFormat.Zeros(32768 - o) + LogFormat.Fragments(c, rec, 0, true)
  {
    hide LogFormat.Fragments, LogFormat.Zeros, LogFormat.Physical, LogFormat.TypeOf;
    var n := LogFormat.Fits(rec, o);
    assert n == LogFormat.Fits(rec, 0) && LogFormat.Skip(o) == 32768 - o && LogFormat.Skip(0) == 0;
    var part := LogFormat.Physical(c, LogFormat.TypeOf(true, n == |rec|), rec[..n]);
    var rest := if n == |rec| then [] else LogFormat.Fragments(c, rec[n..], 7 + n, false);
    FirstFragment(c, rec, o);
    FirstFragment(c, rec, 0);
    NoZeros();
    Regroup(LogFormat.Zeros(32768 - o), part, rest);
  }

  lemma {:induction false} NoZeros()
    ensures LogFormat.Zeros(0) == []
  {
  }

  lemma {:induction false} Regroup(z: Bytes, part: Bytes, rest: Bytes)
    ensures z + part + rest == z + ([] + part + rest)
  {
  }

  lemma {:induction false} FirstFragment(c: LogFormat.Sum, rec: Bytes, o: nat)
    requires o <= 32768
    ensures var n := LogFormat.Fits(rec, o);
      LogFormat.Fragments(c, rec, o, true)
        == LogFormat.Zeros(LogFormat.Skip(o)) + LogFormat.Physical(c, LogFormat.TypeOf(true, n == |rec|), rec[..n])
           + if n == |rec| then [] else LogFormat.Fragments(c, rec[n..], LogFormat.HeaderAt(o) + 7 + n, false)
  {
    hide LogFormat.Physical, LogFormat.Zeros, LogFormat.TypeOf;
  }

  lemma {:induction false} EditBytes()
    ensures VersionEdits.PutRecord(VersionEdits.Comparator([97])) == [1, 1, 97]
    ensures VersionEdits.PutRecord(VersionEdits.LogNumber(5)) == [2, 5]
    ensures VersionEdits.PutRecord(VersionEdits.NextFileNumber(5)) == [3, 5]
    ensures VersionEdits.PutRecord(VersionEdits.LastSequence(5)) == [4, 5]
    ensures VersionEdits.PutRecord(VersionEdits.PrevLogNumber(5)) == [9, 5]
  {
    SmallVarints();
    hide PutVarint;
  }

  lemma {:induction false} FileEditBytes()
    ensures VersionEdits.PutRecord(VersionEdits.CompactPointer(1, [97])) == [5, 1, 1, 97]
    ensures VersionEdits.PutRecord(VersionEdits.DeletedFile(1, 4)) == [6, 1, 4]
    ensures VersionEdits.PutRecord(VersionEdits.NewFile(1, VersionEdits.FileMeta(4, 5, [97], [98]))) == [7, 1, 4, 5, 1, 97, 1, 98]
  {
    SmallVarints();
    hide PutVarint;
  }

  /** An edit is written in this order: comparator, log numbers, next file, last sequence, pointers, deletions, additions. */
  lemma {:induction false} EditOrder(e: VersionEdits.Fields)
    requires e.comparator.Some? && e.logNumber.Some? && e.prevLogNumber.Some? && e.nextFileNumber.Some? && e.lastSequence.Some?
    ensures VersionEdits.Records(e)
         == [VersionEdits.Comparator(e.comparator.value), VersionEdits.LogNumber(e.logNumber.value),
             VersionEdits.PrevLogNumber(e.prevLogNumber.value), VersionEdits.NextFileNumber(e.nextFileNumber.value),
             VersionEdits.LastSequence(e.lastSequence.value)]
            + VersionEdits.Pointers(e.compactPointers) + VersionEdits.Deletions(e.deletedFiles) + VersionEdits.Additions(e.newFiles)
  {
  }

  lemma {:induction false} SmallVarints()
    ensures forall n: nat | n < 128 :: PutVarint(n) == [n]
  {
  }

  lemma {:induction false} BlockOf(items: seq<BlockFormat.Pair>, interval: nat, data: Bytes, rs: seq<nat>)
    requires interval >= 1 && BlockFormat.Data(items, interval, |items|) == data && |data| < 1000 && |items| < 1000
    requires forall i | 0 <= i < |items| :: |items[i].key| < 1000 && |items[i].value| < 1000
    requires BlockFormat.RestartArray(items, interval, BlockFormat.Restarts(interval, |items|)) == rs && BlockFormat.All32(rs) && |rs| < 1000
    ensures BlockFormat.FitsIn32(items, interval)
    ensures BlockFormat.Block(items, interval) == data + BlockFormat.PutFixed32s(rs) + LogFormat.Fixed32(|rs|)
  {
    hide BlockFormat.Data, BlockFormat.RestartArray, BlockFormat.PutFixed32s, LogFormat.Fixed32;
  }

  lemma {:induction false} Words(a: nat, b: nat)
    requires a < 256 && b < 256
    ensures BlockFormat.All32([a]) && BlockFormat.PutFixed32s([a]) == [a, 0, 0, 0] && LogFormat.Fixed32(a) == [a, 0, 0, 0]
    ensures BlockFormat.All32([a, b]) && BlockFormat.PutFixed32s([a, b]) == [a, 0, 0, 0, b, 0, 0, 0]
  {
    hide LittleEndian;
    ZeroBytes();
    LowByte(a, 4);
    LowByte(b, 4);
    assert BlockFormat.PutFixed32s([]) == [];
    assert [a][..0] == [] && [a, b][..1] == [a];
    assert BlockFormat.PutFixed32s([a]) == [a, 0, 0, 0];
  }

  /** Two keys that share a letter, in one restart interval. */
  lemma {:induction false} BlockBytes()
    ensures var items := [BlockFormat.Pair([97, 98], [120]), BlockFormat.Pair([97, 99], [121])];
      BlockFormat.FitsIn32(items, 16)
      && BlockFormat.Block(items, 16) == [0, 2, 1, 97, 98, 120, 1, 1, 1, 99, 121, 0, 0, 0, 0, 1, 0, 0, 0]
  {
    hide BlockFormat.Data, BlockFormat.RestartArray, BlockFormat.PutFixed32s, LogFormat.Fixed32, BlockFormat.Block, BlockFormat.FitsIn32;
    var items := [BlockFormat.Pair([97, 98], [120]), BlockFormat.Pair([97, 99], [121])];
    BlockData(items);
    OneRestart(items);
    Words(0, 0);
    Words(1, 0);
    BlockOf(items, 16, [0, 2, 1, 97, 98, 120, 1, 1, 1, 99, 121], [0]);
  }

  lemma {:induction false} BlockData(items: seq<BlockFormat.Pair>)
    requires items == [BlockFormat.Pair([97, 98], [120]), BlockFormat.Pair([97, 99], [121])]
    ensures BlockFormat.Data(items, 16, 2) == [0, 2, 1, 97, 98, 120, 1, 1, 1, 99, 121]
  {
    hide PutVarint;
    SmallVarints();
    assert BlockFormat.CommonPrefix([98], [99]) == 0;
    assert [97, 98][1..] == [98] && [97, 99][1..] == [99];
    assert BlockFormat.CommonPrefix([97, 98], [97, 99]) == 1;
    assert BlockFormat.EntryAt(items, 16, 0) == [0, 2, 1, 97, 98, 120];
    assert BlockFormat.EntryAt(items, 16, 1) == [1, 1, 1, 99, 121];
    hide BlockFormat.EntryAt;
    assert BlockFormat.Data(items, 16, 0) == [];
    assert BlockFormat.Data(items, 16, 1) == [0, 2, 1, 97, 98, 120];
  }

  lemma {:induction false} OneRestart(items: seq<BlockFormat.Pair>)
    requires |items| == 2
    ensures BlockFormat.Restarts(16, 2) == 1 && BlockFormat.RestartArray(items, 16, 1) == [0]
  {
    assert BlockFormat.Data(items, 16, 0) == [];
    assert BlockFormat.RestartArray(items, 16, 0) == [];
  }

  /** The same two keys, each a restart point of its own. */
  lemma {:induction false} RestartBytes()
    ensures var items := [BlockFormat.Pair([97, 98], [120]), BlockFormat.Pair([97, 99], [121])];
      BlockFormat.FitsIn32(items, 1)
      && BlockFormat.Block(items, 1)
         == [0, 2, 1, 97, 98, 120, 0, 2, 1, 97, 99, 121, 0, 0, 0, 0, 6, 0, 0, 0, 2, 0, 0, 0]
  {
    hide BlockFormat.Data, BlockFormat.RestartArray, BlockFormat.PutFixed32s, LogFormat.Fixed32, BlockFormat.Block, BlockFormat.FitsIn32;
    var items := [BlockFormat.Pair([97, 98], [120]), BlockFormat.Pair([97, 99], [121])];
    RestartData(items);
    TwoRestarts(items);
    Words(0, 6);
    Words(2, 0);
    BlockOf(items, 1, [0, 2, 1, 97, 98, 120, 0, 2, 1, 97, 99, 121], [0, 6]);
  }

  lemma {:induction false} RestartData(items: seq<BlockFormat.Pair>)
    requires items == [BlockFormat.Pair([97, 98], [120]), BlockFormat.Pair([97, 99], [121])]
    ensures BlockFormat.Data(items, 1, 1) == [0, 2, 1, 97, 98, 120]
    ensures BlockFormat.Data(items, 1, 2) == [0, 2, 1, 97, 98, 120, 0, 2, 1, 97, 99, 121]
  {
    hide PutVarint;
    SmallVarints();
    assert BlockFormat.EntryAt(items, 1, 0) == [0, 2, 1, 97, 98, 120];
    assert BlockFormat.EntryAt(items, 1, 1) == [0, 2, 1, 97, 99, 121];
    hide BlockFormat.EntryAt;
    assert BlockFormat.Data(items, 1, 0) == [];
  }

  lemma {:induction false} TwoRestarts(items: seq<BlockFormat.Pair>)
    requires |items| == 2 && BlockFormat.Offset(items, 1, 1) == 6
    ensures BlockFormat.Restarts(1, 2) == 2 && BlockFormat.RestartArray(items, 1, 2) == [0, 6]
  {
    assert BlockFormat.Data(items, 1, 0) == [];
    hide BlockFormat.Data;
    assert BlockFormat.RestartArray(items, 1, 0) == [];
    assert BlockFormat.RestartArray(items, 1, 1) == [0];
  }

  /** The footer: the two handles, zeros up to the fortieth byte, and the magic number 0xdb4775248b80fb57. */
  lemma {:induction false} FooterBytes(f: TableFormat.Footer)
    requires TableFormat.HandleFits(f.metaindex) && TableFormat.HandleFits(f.index)
    ensures var b, handles := TableFormat.EncodeFooter(f),
                PutVarint(f.metaindex.offset) + PutVarint(f.metaindex.size) + PutVarint(f.index.offset) + PutVarint(f.index.size);
      && |b| == 48 && |handles| <= 40 && b[..|handles|] == handles
      && (forall i | |handles| <= i < 40 :: b[i] == 0)
      && b[40..] == [0x57, 0xfb, 0x80, 0x8b, 0x24, 0x75, 0x47, 0xdb]
  {
    hide PutVarint, LogFormat.Zeros, LogFormat.Fixed32;
    TableFormat.HandleSize(f.metaindex);
    TableFormat.HandleSize(f.index);
    var handles := PutVarint(f.metaindex.offset) + PutVarint(f.metaindex.size) + PutVarint(f.index.offset) + PutVarint(f.index.size);
    assert TableFormat.EncodeHandle(f.metaindex) + TableFormat.EncodeHandle(f.index) == handles;
    MagicBytes();
    AllZero(40 - |handles|);
    var b := TableFormat.EncodeFooter(f);
    assert b == handles + LogFormat.Zeros(40 - |handles|) + (LogFormat.Fixed32(0x8b80_fb57) + LogFormat.Fixed32(0xdb47_7524));
  }

  lemma {:induction false} MagicBytes()
    ensures LogFormat.Fixed32(0x8b80_fb57) == [0x57, 0xfb, 0x80, 0x8b] && LogFormat.Fixed32(0xdb47_7524) == [0x24, 0x75, 0x47, 0xdb]
  {
    hide LittleEndian;
    LowByte(0x8b80_fb57, 4);
    LowByte(0x8b_80fb, 3);
    LowByte(0x8b80, 2);
    LowByte(0x8b, 1);
    LowByte(0xdb47_7524, 4);
    LowByte(0xdb_4775, 3);
    LowByte(0xdb47, 2);
    LowByte(0xdb, 1);
  }

  lemma {:induction false} AllZero(n: nat)
    ensures forall i | 0 <= i < n :: LogFormat.Zeros(n)[i] == 0
  {
    if n > 0 {
      AllZero(n - 1);
    }
  }

  /** A stored block: its contents, a type of 0 for no compression, and the masked checksum of both. */
  lemma {:induction false} StoredBytes(sum: LogFormat.Sum, contents: Bytes)
    ensures TableFormat.StoredBlock(sum, contents) == contents + ([0] + LogFormat.Fixed32(sum.mask(sum.value(contents + [0]))))
  {
    hide LogFormat.Fixed32;
  }

  /** A filter block without filters, one with a filter for no key, and which filter a file offset belongs to. */
  lemma {:induction false} FilterBytes(p: FilterBlocks.Policy, offset: nat)
    ensures BlockFormat.All32([]) && FilterBlocks.Contents(p, []) == [0, 0, 0, 0, 11]
    ensures FilterBlocks.Written(p, [[]]) == [] && FilterBlocks.Offsets(p, [[]]) == [0]
    ensures FilterBlocks.Contents(p, [[]]) == [0, 0, 0, 0, 0, 0, 0, 0, 11]
    ensures FilterBlocks.Shift(offset, 11) == offset / 2048
  {
    hide LittleEndian;
    ZeroBytes();
    assert BlockFormat.PutFixed32s([]) == [];
    var one: seq<seq<real>> := [[]];
    assert one[..0] == [] && FilterBlocks.Written(p, []) == [] && FilterBlocks.Offsets(p, []) == [];
    assert [0][..0] == [] && BlockFormat.PutFixed32s([0]) == [0, 0, 0, 0];
    FilterBlocks.ShiftIsDivision(offset);
  }

  // ---- nanopb: the examples of the protocol buffer encoding ----

  /** The wire types, and the one-byte keys they make. */
  lemma {:induction false} KeyBytes(t: LType, tag: nat)
    requires 1 <= tag <= 15
    ensures EncTag(WireType(t), tag)
         == [8 * tag + match t
                       case BoolT => 0
                       case VarintT(_) => 0
                       case UvarintT(_) => 0
                       case SvarintT(_) => 0
                       case Fixed64T => 1
                       case BytesT(_) => 2
                       case StringT(_) => 2
                       case FixedBytesT(_) => 2
                       case SubT(_) => 2
                       case Fixed32T => 5]
  {
  }

  /** Field 1 holds 150; field 2 holds "testing". */
  lemma {:induction false} ScalarFieldBytes()
    ensures EncSlot(Field(1, Required, VarintT(32)), One(Num(150))) == [8, 150, 1]
    ensures EncSlot(Field(2, Required, StringT(8)), One(Data([116, 101, 115, 116, 105, 110, 103])))
         == [18, 7, 116, 101, 115, 116, 105, 110, 103]
    ensures EncSlot(Field(1, Required, SvarintT(32)), One(Num(-2))) == [8, 3]
  {
    hide PutVarint;
    VarintBytes();
    SmallVarints();
    assert PutVarint(8) == [8] && PutVarint(18) == [18] && PutVarint(7) == [7] && PutVarint(3) == [3];
  }

  /** A negative number takes ten bytes, and a proto3 field with its default none. Fields go out in their order. */
  lemma {:induction false} MoreFieldBytes()
    ensures EncSlot(Field(1, Required, VarintT(32)), One(Num(-1))) == [8, 255, 255, 255, 255, 255, 255, 255, 255, 255, 1]
    ensures EncSlot(Field(1, Singular, VarintT(32)), One(Num(0))) == [] && EncSlot(Field(1, Required, VarintT(32)), One(Num(0))) == [8, 0]
    ensures var fs := [Field(1, Required, UvarintT(32)), Field(2, Required, UvarintT(32))];
      EncFields(fs, Message([One(Num(5)), One(Num(6))]), 2) == [8, 5, 16, 6]
  {
    SmallVarints();
    TenBytes();
    hide PutVarint;
    var fs, m := [Field(1, Required, UvarintT(32)), Field(2, Required, UvarintT(32))], Message([One(Num(5)), One(Num(6))]);
    assert EncSlot(fs[0], m.slots[0]) == [8, 5] && EncSlot(fs[1], m.slots[1]) == [16, 6];
    assert EncFields(fs, m, 0) == [];
    assert EncFields(fs, m, 1) == [8, 5];
  }

  lemma {:induction false} TenBytes()
    ensures PutVarint(0xFFFF_FFFF_FFFF_FFFF) == [255, 255, 255, 255, 255, 255, 255, 255, 255, 1]
  {
    LastBytes();
    assert PutVarint(0x1FF_FFFF_FFFF_FFFF) == [255, 255, 255, 255, 255, 255, 255, 255, 1];
  }

  lemma {:induction false} LastBytes()
    ensures PutVarint(0x3_FFFF_FFFF_FFFF) == [255, 255, 255, 255, 255, 255, 255, 1]
  {
    assert PutVarint(0xFF) == [255, 1];
    assert PutVarint(0x7FFF) == [255, 255, 1];
    assert PutVarint(0x3F_FFFF) == [255, 255, 255, 1];
    assert PutVarint(0x1FFF_FFFF) == [255, 255, 255, 255, 1];
    assert PutVarint(0xF_FFFF_FFFF) == [255, 255, 255, 255, 255, 1];
    assert PutVarint(0x7FF_FFFF_FFFF) == [255, 255, 255, 255, 255, 255, 1];
  }

  lemma {:induction false} FixedFieldBytes()
    ensures EncSlot(Field(1, Required, Fixed32T), One(Num(0x0102_0304))) == [13, 4, 3, 2, 1]
    ensures EncSlot(Field(1, Required, Fixed64T), One(Num(7))) == [9, 7, 0, 0, 0, 0, 0, 0, 0]
  {
    FixedBytes();
    SmallVarints();
    hide PutVarint, LittleEndian;
    assert EncTag(5, 1) == [13] && EncTag(1, 1) == [9];
  }

  /** Field 3 holds a message whose field 1 holds 150. */
  lemma {:induction false} SubmessageBytes()
    ensures var inner := [Field(1, Required, VarintT(32))];
      EncSlot(Field(3, Required, SubT(inner)), One(Sub(Message([One(Num(150))])))) == [26, 3, 8, 150, 1]
  {
    var inner := [Field(1, Required, VarintT(32))];
    var m := Message([One(Num(150))]);
    ScalarFieldBytes();
    SmallVarints();
    hide PutVarint, EncSlot;
    assert EncFields(inner, m, 0) == [];
    assert EncFields(inner, m, 1) == [8, 150, 1];
    assert PutSlice([8, 150, 1]) == [3, 8, 150, 1];
    assert EncValue(SubT(inner), Sub(m)) == [3, 8, 150, 1];
    assert EncTag(2, 3) == [26];
    OneSlot(Field(3, Required, SubT(inner)), Sub(m));
  }

  lemma {:induction false} OneSlot(f: Field, v: Value)
    requires !f.rule.Singular?
    ensures EncSlot(f, One(v)) == EncTag(WireType(f.ltype), f.tag) + EncValue(f.ltype, v)
  {
  }

  /** Field 4 holds 3, 270 and 86942 as a packed array. */
  lemma {:induction false} PackedBytes()
    ensures EncSlot(Field(4, Repeated(3), UvarintT(32)), Many([Num(3), Num(270), Num(86942)]))
         == [34, 6, 3, 142, 2, 158, 167, 5]
  {
    hide PutVarint;
    var t := UvarintT(32);
    LongerVarints();
    var a, b, c: Value := Num(3), Num(270), Num(86942);
    assert EncAll(t, []) == [];
    assert [a][..0] == [] && [a, b][..1] == [a] && [a, b, c][..2] == [a, b];
    assert EncAll(t, [a]) == [3];
    assert EncAll(t, [a, b]) == [3, 142, 2];
    assert EncAll(t, [a, b, c]) == [3, 142, 2, 158, 167, 5];
    hide EncAll;
    assert EncTag(2, 4) == [34];
    assert PutSlice([3, 142, 2, 158, 167, 5]) == [6] + [3, 142, 2, 158, 167, 5];
  }

  lemma {:induction false} LongerVarints()
    ensures PutVarint(3) == [3] && PutVarint(6) == [6] && PutVarint(34) == [34]
    ensures PutVarint(270) == [142, 2] && PutVarint(86942) == [158, 167, 5]
  {
    assert PutVarint(679) == [167, 5];
  }

  /** Field 2 is unknown here; field 1 behind it is read. Then field 1 comes twice, and the second time counts. */
  lemma {:induction false} WalkedBytes()
    ensures var fs := [Field(1, Optional, UvarintT(32))];
      && PbMeaning.Walked(fs, [16, 9, 8, 5], Message([Off])) == Message([One(Num(5))])
      && PbMeaning.Walked(fs, [8, 9, 8, 5], Message([Off])) == Message([One(Num(5))])
  {
    var fs := [Field(1, Optional, UvarintT(32))];
    WalkedEnd(fs, Message([One(Num(5))]));
    OneUint(fs, 5, [], Off);
    OneUint(fs, 5, [], One(Num(9)));
    OneUint(fs, 9, [8, 5], Off);
    OneUnknown(fs, 9, [8, 5], Off);
    assert [8, 9] + [8, 5] == [8, 9, 8, 5] && [16, 9] + [8, 5] == [16, 9, 8, 5] && [8, 5] + [] == [8, 5];
    hide PbMeaning.Walked, PbRecords.FrontRecord, PbMeaning.RecordInto;
  }

  lemma {:induction false} WalkedEnd(fs: seq<Field>, m: Message)
    ensures PbMeaning.Walked(fs, [], m) == m
  {
  }

  lemma {:induction false} OneUint(fs: seq<Field>, v: byte, rest: Bytes, slot: Slot)
    requires fs == [Field(1, Optional, UvarintT(32))] && v < 128
    ensures PbMeaning.Walked(fs, [8, v] + rest, Message([slot])) == PbMeaning.Walked(fs, rest, Message([One(Num(v))]))
  {
    var b := [8, v] + rest;
    assert b[1..] == [v] + rest && b[2..] == rest;
    assert GetVarint(b, |b|) == Some(Got(8, 1));
    assert GetVarint(b[1..], |b| - 1) == Some(Got(v, 1)) && GetVarint64(b[1..]) == Some(Got(v, 1));
    hide GetVarint, GetVarint64;
    assert PbMeaning.Body(b) == b[1..] && PbReading.Number32(b) == 8;
    assert PbMeaning.IndexOf(fs, 1) == 0;
    assert PbRecords.FrontRecord(fs, b) == Some(PbRecords.Front(1, 2));
    assert PbScalars.ScalarOf(UvarintT(32), b[1..]) == Num(v);
    hide PbRecords.FrontRecord, PbScalars.ScalarOf, PbMeaning.Walked;
    assert PbMeaning.SlotAfter(fs[0], 0, b[1..], slot) == One(Num(v));
    hide PbMeaning.SlotAfter;
    assert Message([slot]).slots[0 := One(Num(v))] == [One(Num(v))];
    assert PbMeaning.RecordInto(fs, b, Message([slot])) == Message([One(Num(v))]);
    PbMeaning.WalkStep(fs, b, Message([slot]));
  }

  lemma {:induction false} OneUnknown(fs: seq<Field>, v: byte, rest: Bytes, slot: Slot)
    requires fs == [Field(1, Optional, UvarintT(32))] && v < 128
    ensures PbMeaning.Walked(fs, [16, v] + rest, Message([slot])) == PbMeaning.Walked(fs, rest, Message([slot]))
  {
    var b := [16, v] + rest;
    assert b[1..] == [v] + rest && b[2..] == rest;
    assert GetVarint(b, |b|) == Some(Got(16, 1));
    assert GetVarint(b[1..], |b| - 1) == Some(Got(v, 1));
    hide GetVarint;
    assert PbReading.Number32(b) == 16;
    assert fs[1..] == [];
    assert PbMeaning.IndexOf(fs, 2) == 1 && PbRecords.ValueWire([], 2, 0) == 0 && PbRecords.ValueWire(fs, 2, 0) == 0;
    assert b[1..] != [] && PbReading.FieldSize(b[1..], 0) == Some(1);
    assert PbRecords.FrontRecord(fs, b) == Some(PbRecords.Front(2, 2));
    hide PbRecords.FrontRecord, PbMeaning.Walked;
    PbMeaning.WalkStep(fs, b, Message([slot]));
  }
}
