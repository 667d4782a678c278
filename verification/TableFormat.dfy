/** Handles, stored blocks and the footer of a table file (table/format.cc). */
module TableFormat {
  import opened Basics
  import opened LogFormat
  import opened Varints

  datatype BlockHandle = BlockHandle(offset: nat, size: nat)

  predicate HandleFits(h: BlockHandle) {
    h.offset < TWO64 && h.size < TWO64
  }

  function EncodeHandle(h: BlockHandle): Bytes {
    PutVarint(h.offset) + PutVarint(h.size)
  }

  function DecodeHandle(b: Bytes): Option<Parsed<BlockHandle>> {
    match GetVarint64(b)
    case None => None
    case Some(offset) =>
      match GetVarint64(b[offset.size..])
      case None => None
      case Some(size) => Some(Parsed(BlockHandle(offset.value, size.value), b[offset.size..][size.size..]))
  }

  lemma {:induction false} HandleRoundTrip(h: BlockHandle, rest: Bytes)
    requires HandleFits(h)
    ensures DecodeHandle(EncodeHandle(h) + rest) == Some(Parsed(h, rest))
  {
    hide PutVarint, GetVarint64;
    assert EncodeHandle(h) + rest == PutVarint(h.offset) + (PutVarint(h.size) + rest);
    RoundTrip64(h.offset, PutVarint(h.size) + rest);
    RoundTrip64(h.size, rest);
  }

  const MAX_HANDLE: nat := 20
  const FOOTER_SIZE: nat := 48
  const BLOCK_TRAILER_SIZE: nat := 5
  const MAGIC_LOW: nat := 0x8b80_fb57
  const MAGIC_HIGH: nat := 0xdb47_7524
  const NO_COMPRESSION: byte := 0

  lemma {:induction false} HandleSize(h: BlockHandle)
    requires HandleFits(h)
    ensures |EncodeHandle(h)| <= MAX_HANDLE
  {
    Powers();
    SizeBound(h.offset, 10);
    SizeBound(h.size, 10);
  }

  datatype Footer = Footer(metaindex: BlockHandle, index: BlockHandle)

  function EncodeFooter(f: Footer): (b: Bytes)
    requires HandleFits(f.metaindex) && HandleFits(f.index)
    ensures |b| == FOOTER_SIZE
  {
    HandleSize(f.metaindex);
    HandleSize(f.index);
    var handles := EncodeHandle(f.metaindex) + EncodeHandle(f.index);
    handles + Zeros(2 * MAX_HANDLE - |handles|) + (Fixed32(MAGIC_LOW) + Fixed32(MAGIC_HIGH))
  }

  function DecodeFooter(b: Bytes): Option<Footer>
    requires |b| == FOOTER_SIZE
  {
    if DecodeFixed32(b[FOOTER_SIZE - 8..]) != MAGIC_LOW || DecodeFixed32(b[FOOTER_SIZE - 4..]) != MAGIC_HIGH then None
    else
      match DecodeHandle(b)
      case None => None
      case Some(metaindex) =>
        match DecodeHandle(metaindex.rest)
        case None => None
        case Some(index) => Some(Footer(metaindex.value, index.value))
  }

  lemma {:induction false} FooterRoundTrip(f: Footer)
    requires HandleFits(f.metaindex) && HandleFits(f.index)
    ensures DecodeFooter(EncodeFooter(f)) == Some(f)
  {
    hide EncodeHandle, DecodeHandle, Fixed32, DecodeFixed32, Zeros;
    HandleSize(f.metaindex);
    HandleSize(f.index);
    var a, c := EncodeHandle(f.metaindex), EncodeHandle(f.index);
    var z := Zeros(2 * MAX_HANDLE - |a + c|);
    var low, high := Fixed32(MAGIC_LOW), Fixed32(MAGIC_HIGH);
    var b := EncodeFooter(f);
    assert b == a + (c + (z + (low + high)));
    HandleRoundTrip(f.metaindex, c + (z + (low + high)));
    HandleRoundTrip(f.index, z + (low + high));
    Fixed32RoundTrip(MAGIC_LOW, high);
    Fixed32RoundTrip(MAGIC_HIGH, []);
    assert b[FOOTER_SIZE - 8..] == low + high;
    assert b[FOOTER_SIZE - 4..] == high + [];
  }

  /** WriteRawBlock: the contents, their type, and the masked checksum of both. */
  function StoredBlock(sum: Sum, contents: Bytes): (b: Bytes)
    ensures |b| == |contents| + BLOCK_TRAILER_SIZE
  {
    contents + [NO_COMPRESSION] + Fixed32(sum.mask(sum.value(contents + [NO_COMPRESSION])))
  }

  /** ReadBlock, with checksums. */
  function ReadBlock(sum: Sum, file: Bytes, h: BlockHandle): Option<Bytes> {
    var n := h.size;
    if h.offset + n + BLOCK_TRAILER_SIZE > |file| then None
    else
      var data := file[h.offset..h.offset + n + BLOCK_TRAILER_SIZE];
      if sum.unmask(DecodeFixed32(data[n + 1..])) != sum.value(data[..n + 1]) || data[n] != NO_COMPRESSION then None
      else Some(data[..n])
  }

  /** What ReadBlock returns stands in the file at the handle, as an uncompressed block with the right checksum. */
  lemma {:induction false} ReadIsSound(sum: Sum, file: Bytes, h: BlockHandle)
    requires ReadBlock(sum, file, h).Some?
    ensures var end := h.offset + h.size;
      && end + 5 <= |file| && ReadBlock(sum, file, h).value == file[h.offset..end] && file[end] == 0
      && sum.unmask(FromLittleEndian(file[end + 1..end + 5])) == sum.value(file[h.offset..end + 1])
  {
    hide FromLittleEndian;
    var n := h.size;
    var data := file[h.offset..h.offset + n + 5];
    assert data[n + 1..][..4] == file[h.offset + n + 1..h.offset + n + 5];
    assert data[..n + 1] == file[h.offset..h.offset + n + 1] && data[..n] == file[h.offset..h.offset + n];
  }

  /** A file that does not end with the magic number is no table. */
  lemma {:induction false} MagicNeeded(b: Bytes)
    requires |b| == 48 && DecodeFooter(b).Some?
    ensures FromLittleEndian(b[40..44]) == 0x8b80_fb57 && FromLittleEndian(b[44..]) == 0xdb47_7524
  {
    hide FromLittleEndian, DecodeHandle;
    assert b[40..][..4] == b[40..44] && b[44..][..4] == b[44..];
  }

  /** The file holds this block at this handle. */
  predicate HasBlock(sum: Sum, file: Bytes, h: BlockHandle, contents: Bytes) {
    && h.size == |contents| && h.offset + h.size + BLOCK_TRAILER_SIZE <= |file|
    && file[h.offset..h.offset + h.size + BLOCK_TRAILER_SIZE] == StoredBlock(sum, contents)
  }

  lemma {:induction false} StoredReads(sum: Sum, file: Bytes, h: BlockHandle, contents: Bytes)
    requires HasBlock(sum, file, h, contents)
    ensures ReadBlock(sum, file, h) == Some(contents)
  {
    hide Fixed32, DecodeFixed32;
    var data, n := StoredBlock(sum, contents), |contents|;
    var w := sum.mask(sum.value(contents + [NO_COMPRESSION]));
    assert data[..n + 1] == contents + [NO_COMPRESSION];
    assert data[n + 1..] == Fixed32(w) + [];
    Fixed32RoundTrip(w, []);
    assert data[..n] == contents;
  }

  /** Blocks stay where they are as the file grows. */
  lemma {:induction false} HasBlockGrows(sum: Sum, file: Bytes, more: Bytes, h: BlockHandle, contents: Bytes)
    requires HasBlock(sum, file, h, contents)
    ensures HasBlock(sum, file + more, h, contents)
  {
    hide StoredBlock;
  }

  lemma {:induction false} HasBlockAtEnd(sum: Sum, file: Bytes, contents: Bytes)
    ensures HasBlock(sum, file + StoredBlock(sum, contents), BlockHandle(|file|, |contents|), contents)
  {
    hide StoredBlock;
  }
}
