/** Table files as bytes: what a finished file holds, opening it, and looking a key up in it (table/table.cc). */
module TableReading {
  import opened Basics
  import opened InternalKeys
  import opened Cursors
  import opened TwoLevels
  import opened LogFormat
  import opened BlockFormat
  import opened BlockEntries
  import opened BlockReading
  import opened FilterBlocks
  import opened Tables
  import opened TableFormat

  /** How internal keys become bytes, and the comparator on those. */
  datatype KeyFormat = KeyFormat(encode: IKey -> Bytes, less: (Bytes, Bytes) -> bool)

  /** The comparator orders the encodings of these keys as internal keys are ordered. */
  ghost predicate Orders(f: KeyFormat, keys: set<IKey>) {
    Transitive(f.less) && forall a, b | a in keys && b in keys :: f.less(f.encode(a), f.encode(b)) <==> Before(a, b)
  }

  ghost function KeysOf<V>(items: seq<Item<V>>): set<IKey> {
    set x | x in items :: x.key
  }

  /** The entries of a data block. */
  ghost function Enc(f: KeyFormat, items: Items): (r: seq<Pair>)
    ensures |r| == |items|
  {
    seq(|items|, i requires 0 <= i < |items| => Pair(f.encode(items[i].key), items[i].value))
  }

  /** The entries of the index block. */
  ghost function EncIndex(f: KeyFormat, index: seq<Item<Handle>>, sizes: seq<nat>): (r: seq<Pair>)
    requires |sizes| == |index|
    ensures |r| == |index|
  {
    seq(|index|, i requires 0 <= i < |index| => Pair(f.encode(index[i].key), EncodeHandle(BlockHandle(index[i].value, sizes[i]))))
  }

  /** A seek among encoded keys is a seek among the keys. */
  lemma {:induction false} SeekIs<V>(f: KeyFormat, items: seq<Item<V>>, entries: seq<Pair>, k: IKey, pos: nat)
    requires Sorted(items) && |entries| == |items| && forall i | 0 <= i < |items| :: entries[i].key == f.encode(items[i].key)
    requires Orders(f, KeysOf(items) + {k}) && IsSeek(f.less, entries, f.encode(k), pos)
    ensures pos == FirstAtOrAfter(items, k)
  {
    hide Sorted, FirstAtOrAfter;
    forall i: nat | i < |items| ensures f.less(entries[i].key, f.encode(k)) <==> Before(items[i].key, k) {
      assert items[i] in items && items[i].key in KeysOf(items);
    }
    var p := FirstAtOrAfter(items, k);
    if pos < p {
      SeekSplits(items, k, pos);
    } else if p < pos {
      SeekSplits(items, k, p);
    }
  }

  lemma {:induction false} Ascends<V>(f: KeyFormat, items: seq<Item<V>>, entries: seq<Pair>, k: IKey)
    requires Sorted(items) && |entries| == |items| && forall i | 0 <= i < |items| :: entries[i].key == f.encode(items[i].key)
    requires Orders(f, KeysOf(items) + {k})
    ensures Ascending(f.less, entries)
  {
    forall i, j | 0 <= i < j < |entries| ensures f.less(entries[i].key, entries[j].key) {
      assert items[i] in items && items[j] in items;
      assert items[i].key in KeysOf(items) && items[j].key in KeysOf(items);
    }
  }

  /** Seek in an encoded block, and what the iterator then shows. */
  method SeekIn(less: (Bytes, Bytes) -> bool, block: Bytes, target: Bytes, ghost entries: seq<Pair>, ghost interval: nat)
    returns (r: Option<Pair>, ghost pos: nat)
    requires interval >= 1 && FitsIn32(entries, interval) && block == Block(entries, interval)
    requires Transitive(less) && Ascending(less, entries)
    ensures IsSeek(less, entries, target, pos) && r == if pos < |entries| then Some(entries[pos]) else None
  {
    hide Block, Transitive, Ascending, FitsIn32, IsSeek, OpenBlock, Offset, Restarts, RestartEntry, IsRestart, Iter.Encoded;
    OpenEncoded(entries, interval);
    var o := OpenBlock(block);
    var iter := new Iter(less, block, o.restarts, o.numRestarts, entries, interval);
    iter.Seek(target);
    iter.Shows();
    SeekInRange(less, entries, target, iter.pos);
    pos := iter.pos;
    r := if iter.Valid() then Some(Pair(iter.key, iter.data[iter.valueStart..iter.valueStart + iter.valueLength])) else None;
  }

  lemma {:induction false} SeekInRange(less: (Bytes, Bytes) -> bool, entries: seq<Pair>, target: Bytes, pos: nat)
    requires IsSeek(less, entries, target, pos)
    ensures pos <= |entries|
  {
  }

  // ---- The whole file ----

  /** Where things are in a table file. */
  datatype Layout = Layout(interval: nat, sizes: seq<nat>, filterBlock: Option<Bytes>, filterHandle: BlockHandle, footer: Footer)

  /** Every data block is stored at its handle. */
  ghost predicate InFile(sum: Sum, f: KeyFormat, file: Bytes, interval: nat, chunks: seq<Items>, handles: seq<Handle>, sizes: seq<nat>) {
    && interval >= 1 && |chunks| == |handles| == |sizes|
    && forall i | 0 <= i < |chunks| :: ChunkInFile(sum, f, file, interval, chunks[i], BlockHandle(handles[i], sizes[i]))
  }

  ghost predicate ChunkInFile(sum: Sum, f: KeyFormat, file: Bytes, interval: nat, chunk: Items, h: BlockHandle)
    requires interval >= 1
  {
    FitsIn32(Enc(f, chunk), interval) && HandleFits(h) && HasBlock(sum, file, h, Block(Enc(f, chunk), interval))
  }

  ghost function HandlesOf(index: seq<Item<Handle>>): (hs: seq<Handle>)
    ensures |hs| == |index| && forall i | 0 <= i < |index| :: hs[i] == index[i].value
  {
    seq(|index|, i requires 0 <= i < |index| => index[i].value)
  }

  /** The metaindex maps the name of the filter policy to the filter block. */
  function MetaItems(filterKey: Bytes, filter: Option<BlockHandle>): seq<Pair> {
    if filter.Some? then [Pair(filterKey, EncodeHandle(filter.value))] else []
  }

  function FilterHandle(l: Layout): Option<BlockHandle> {
    if l.filterBlock.Some? then Some(l.filterHandle) else None
  }

  /** The index block and, in front of the footer, everything else. */
  ghost predicate IndexInFile(sum: Sum, f: KeyFormat, file: Bytes, h: BlockHandle, index: seq<Item<Handle>>, sizes: seq<nat>)
    requires |sizes| == |index|
  {
    FitsIn32(EncIndex(f, index, sizes), 1) && HandleFits(h) && HasBlock(sum, file, h, Block(EncIndex(f, index, sizes), 1))
  }

  ghost predicate MetaInFile(sum: Sum, file: Bytes, filterKey: Bytes, l: Layout) {
    && l.interval >= 1 && HandleFits(l.footer.metaindex) && FitsIn32(MetaItems(filterKey, FilterHandle(l)), l.interval)
    && HasBlock(sum, file, l.footer.metaindex, Block(MetaItems(filterKey, FilterHandle(l)), l.interval))
    && (l.filterBlock.Some? ==> HandleFits(l.filterHandle) && HasBlock(sum, file, l.filterHandle, l.filterBlock.value))
  }

  ghost predicate FooterInFile(file: Bytes, footer: Footer) {
    && HandleFits(footer.metaindex) && HandleFits(footer.index)
    && |file| >= FOOTER_SIZE && file[|file| - FOOTER_SIZE..] == EncodeFooter(footer)
  }

  /** file is t, with these chunks as data blocks. */
  ghost predicate IsTableFile(sum: Sum, f: KeyFormat, filterKey: Bytes, file: Bytes, t: Table, chunks: seq<Items>, l: Layout) {
    && |l.sizes| == |t.index| && InFile(sum, f, file, l.interval, chunks, HandlesOf(t.index), l.sizes)
    && IndexInFile(sum, f, file, l.footer.index, t.index, l.sizes)
    && MetaInFile(sum, file, filterKey, l) && FooterInFile(file, l.footer)
    && t.filter == if l.filterBlock.Some? then Some(OpenFilter(l.filterBlock.value)) else None
  }

  // ---- Opening ----

  /** BytewiseComparator. */
  predicate BytesLess(a: Bytes, b: Bytes) {
    b != [] && (a == [] || a[0] < b[0] || (a[0] == b[0] && BytesLess(a[1..], b[1..])))
  }

  lemma {:induction false} BytesLessTransitive(a: Bytes, b: Bytes, c: Bytes)
    requires BytesLess(a, b) && BytesLess(b, c)
    ensures BytesLess(a, c)
  {
    if a != [] && a[0] == b[0] == c[0] {
      BytesLessTransitive(a[1..], b[1..], c[1..]);
    }
  }

  lemma {:induction false} BytesLessOrders()
    ensures Transitive(BytesLess)
  {
    forall a, b, c | BytesLess(a, b) && BytesLess(b, c) ensures BytesLess(a, c) {
      BytesLessTransitive(a, b, c);
    }
  }

  lemma {:induction false} BytesLessNotSelf(a: Bytes)
    ensures !BytesLess(a, a)
  {
    if a != [] {
      BytesLessNotSelf(a[1..]);
    }
  }

  /** An open table. */
  datatype OpenTable = OpenTable(file: Bytes, index: Bytes, filter: Option<Reader>)

  lemma {:induction false} MetaSeek(filterKey: Bytes, filter: Option<BlockHandle>, pos: nat)
    requires IsSeek(BytesLess, MetaItems(filterKey, filter), filterKey, pos)
    ensures pos == 0
  {
    BytesLessNotSelf(filterKey);
    var entries := MetaItems(filterKey, filter);
    assert filter.Some? ==> entries[0].key == filterKey;
  }

  /** ReadMeta and ReadFilter: without a filter of this name reads go on without one. */
  method ReadMeta(sum: Sum, filterKey: Bytes, file: Bytes, metaindex: BlockHandle, ghost l: Layout) returns (filter: Option<Reader>)
    requires metaindex == l.footer.metaindex && MetaInFile(sum, file, filterKey, l)
    ensures filter == if l.filterBlock.Some? then Some(OpenFilter(l.filterBlock.value)) else None
  {
    hide HasBlock, Block, FitsIn32, EncodeHandle, DecodeHandle, OpenFilter, Transitive, ReadBlock;
    ghost var entries := MetaItems(filterKey, FilterHandle(l));
    StoredReads(sum, file, metaindex, Block(entries, l.interval));
    var contents := ReadBlock(sum, file, metaindex).value;
    BytesLessOrders();
    ghost var pos;
    var entry;
    entry, pos := SeekIn(BytesLess, contents, filterKey, entries, l.interval);
    MetaSeek(filterKey, FilterHandle(l), pos);
    filter := None;
    if entry.Some? && entry.value.key == filterKey {
      HandleRoundTrip(l.filterHandle, []);
      assert EncodeHandle(l.filterHandle) + [] == EncodeHandle(l.filterHandle);
      StoredReads(sum, file, l.filterHandle, l.filterBlock.value);
      var handle := DecodeHandle(entry.value.value);
      var block := ReadBlock(sum, file, handle.value.value);
      filter := Some(OpenFilter(block.value));
    }
  }

  /** Open: footer, index block and, if a filter policy is in use, the filter. */
  method Open(sum: Sum, useFilter: bool, filterKey: Bytes, file: Bytes, ghost f: KeyFormat, ghost t: Table, ghost chunks: seq<Items>, ghost l: Layout)
    returns (r: Option<OpenTable>)
    requires IsTableFile(sum, f, filterKey, file, t, chunks, l)
    ensures r.Some? && r.value.file == file && r.value.index == Block(EncIndex(f, t.index, l.sizes), 1)
    ensures r.value.filter == if useFilter then t.filter else None
  {
    hide InFile, MetaInFile, HasBlock, Block, FitsIn32, EncIndex, EncodeFooter, DecodeFooter, ReadBlock, OpenFilter;
    FooterRoundTrip(l.footer);
    var footer := DecodeFooter(file[|file| - FOOTER_SIZE..]);
    StoredReads(sum, file, l.footer.index, Block(EncIndex(f, t.index, l.sizes), 1));
    var index := ReadBlock(sum, file, footer.value.index);
    var filter := None;
    if useFilter {
      filter := ReadMeta(sum, filterKey, file, footer.value.metaindex, l);
    }
    r := Some(OpenTable(file, index.value, filter));
  }

  // ---- Looking up ----

  /** o is t, read without its filter perhaps. */
  ghost predicate Opened(sum: Sum, f: KeyFormat, o: OpenTable, t: Table, chunks: seq<Items>, l: Layout) {
    && |l.sizes| == |t.index| && InFile(sum, f, o.file, l.interval, chunks, HandlesOf(t.index), l.sizes)
    && FitsIn32(EncIndex(f, t.index, l.sizes), 1) && o.index == Block(EncIndex(f, t.index, l.sizes), 1)
    && (o.filter.None? || o.filter == t.filter)
  }

  /** The index entry at or after k and the handle in it. */
  method SeekIndex(sum: Sum, f: KeyFormat, o: OpenTable, k: IKey, ghost t: Table, ghost chunks: seq<Items>, ghost l: Layout)
    returns (value: Option<Bytes>, ghost i: nat)
    requires Opened(sum, f, o, t, chunks, l) && Sorted(t.index) && Orders(f, KeysOf(t.index) + {k})
    ensures i == FirstAtOrAfter(t.index, k)
    ensures if i < |t.index| then i < |l.sizes| && value == Some(EncodeHandle(BlockHandle(t.index[i].value, l.sizes[i]))) else value == None
  {
    hide InFile, Block, FitsIn32, Sorted, Orders, FirstAtOrAfter, EncodeHandle, IsSeek, Ascending;
    ghost var entries := EncIndex(f, t.index, l.sizes);
    assert |entries| == |t.index| && forall j | 0 <= j < |entries| :: entries[j].key == f.encode(t.index[j].key);
    Ascends(f, t.index, entries, k);
    OrdersTransitive(f, KeysOf(t.index) + {k});
    var r;
    r, i := SeekIn(f.less, o.index, f.encode(k), entries, 1);
    SeekIs(f, t.index, entries, k, i);
    value := if r.Some? then Some(r.value.value) else None;
  }

  lemma {:induction false} OrdersTransitive(f: KeyFormat, keys: set<IKey>)
    requires Orders(f, keys)
    ensures Transitive(f.less)
  {
  }

  /** The entry of a data block at or after k. */
  method SeekBlock(sum: Sum, f: KeyFormat, o: OpenTable, handle: BlockHandle, k: IKey, ghost chunk: Items, ghost interval: nat) returns (r: Option<Pair>)
    requires interval >= 1 && ChunkInFile(sum, f, o.file, interval, chunk, handle) && Sorted(chunk) && Orders(f, KeysOf(chunk) + {k})
    ensures var j := FirstAtOrAfter(chunk, k);
      r == if j < |chunk| then Some(Pair(f.encode(chunk[j].key), chunk[j].value)) else None
  {
    hide Block, FitsIn32, Sorted, Orders, FirstAtOrAfter, IsSeek, Ascending, HasBlock, ReadBlock;
    ghost var entries := Enc(f, chunk);
    assert forall j | 0 <= j < |entries| :: entries[j].key == f.encode(chunk[j].key);
    StoredReads(sum, o.file, handle, Block(entries, interval));
    Ascends(f, chunk, entries, k);
    OrdersTransitive(f, KeysOf(chunk) + {k});
    var block := ReadBlock(sum, o.file, handle);
    ghost var j;
    r, j := SeekIn(f.less, block.value, f.encode(k), entries, interval);
    SeekIs(f, chunk, entries, k, j);
  }

  lemma {:induction false} OrdersFewer(f: KeyFormat, keys: set<IKey>, more: set<IKey>)
    requires Orders(f, more) && keys <= more
    ensures Orders(f, keys)
  {
    hide Transitive;
  }

  lemma {:induction false} ChunkKeys(items: Items, chunks: seq<Items>, i: nat)
    requires Flatten(chunks) == items && i < |chunks| && Sorted(items)
    ensures KeysOf(chunks[i]) <= KeysOf(items)
  {
    forall x | x in chunks[i] ensures x in items {
      FlattenMember(chunks, i, x);
    }
  }

  /** What a lookup of k in items must find: the first item at or after k, unless it is of another user key. */
  ghost predicate Finds(f: KeyFormat, items: Items, k: IKey, r: Option<Pair>) {
    var p := FirstAtOrAfter(items, k);
    if r.Some? then p < |items| && r.value == Pair(f.encode(items[p].key), items[p].value)
    else p < |items| ==> items[p].key.user != k.user
  }

  /** InternalGet: the index leads to a block; the filter may rule it out; the block is searched. */
  method InternalGet(sum: Sum, f: KeyFormat, policy: Policy, o: OpenTable, k: IKey,
                     ghost t: Table, ghost items: Items, ghost chunks: seq<Items>, ghost l: Layout)
    returns (r: Option<Pair>)
    requires Holds(t, items, chunks) && Opened(sum, f, o, t, chunks, l) && policy == t.policy
    requires Orders(f, KeysOf(items) + KeysOf(t.index) + {k})
    ensures Finds(f, items, k, r)
  {
    hide Opened, Holds, Orders, FirstAtOrAfter, EncodeHandle, DecodeHandle, KeyMayMatch, ChunkInFile;
    TableFacts(sum, f, o, t, items, chunks, l, k);
    ghost var i;
    var value;
    value, i := SeekIndex(sum, f, o, k, t, chunks, l);
    if value.None? {
      PastAll(t, items, chunks, k);
      return None;
    }
    ghost var h := BlockHandle(t.index[i].value, l.sizes[i]);
    BlockFacts(sum, f, o, t, items, chunks, l, k, i);
    HandleRoundTrip(h, []);
    assert EncodeHandle(h) + [] == EncodeHandle(h);
    var handle := DecodeHandle(value.value);
    if o.filter.Some? && handle.Some? && !KeyMayMatch(policy, o.filter.value, handle.value.value.offset, k.user) {
      return None;
    }
    r := SeekBlock(sum, f, o, handle.value.value, k, chunks[i], l.interval);
  }

  lemma {:induction false} TableFacts(sum: Sum, f: KeyFormat, o: OpenTable, t: Table, items: Items, chunks: seq<Items>, l: Layout, k: IKey)
    requires Holds(t, items, chunks) && Opened(sum, f, o, t, chunks, l) && Orders(f, KeysOf(items) + KeysOf(t.index) + {k})
    ensures Sorted(t.index) && Orders(f, KeysOf(t.index) + {k}) && |l.sizes| == |t.index| == |chunks|
  {
    hide Orders, Filtered, Tight, FirstAtOrAfter;
    OrdersFewer(f, KeysOf(t.index) + {k}, KeysOf(items) + KeysOf(t.index) + {k});
    IndexSorted(t.index, chunks);
  }

  lemma {:induction false} IndexSorted(index: seq<Item<Handle>>, chunks: seq<Items>)
    requires Indexed(index, chunks)
    ensures Sorted(index)
  {
  }

  lemma {:induction false} PastAll(t: Table, items: Items, chunks: seq<Items>, k: IKey)
    requires Holds(t, items, chunks) && FirstAtOrAfter(t.index, k) >= |t.index|
    ensures FirstAtOrAfter(items, k) == |items| && |t.index| == |chunks|
  {
    hide Tight, Filtered;
    WhereItIs(t, k, items, chunks);
  }

  /** What is known of the block that the index leads to. */
  lemma {:induction false} BlockFacts(sum: Sum, f: KeyFormat, o: OpenTable, t: Table, items: Items, chunks: seq<Items>, l: Layout, k: IKey, i: nat)
    requires Holds(t, items, chunks) && Opened(sum, f, o, t, chunks, l) && Orders(f, KeysOf(items) + KeysOf(t.index) + {k})
    requires i == FirstAtOrAfter(t.index, k) < |t.index|
    ensures i < |chunks| == |l.sizes| && l.interval >= 1
    ensures var h := BlockHandle(t.index[i].value, l.sizes[i]);
      HandleFits(h) && ChunkInFile(sum, f, o.file, l.interval, chunks[i], h)
    ensures Sorted(chunks[i]) && Orders(f, KeysOf(chunks[i]) + {k})
    ensures var j := FirstAtOrAfter(chunks[i], k);
      Finds(f, items, k, if j < |chunks[i]| then Some(Pair(f.encode(chunks[i][j].key), chunks[i][j].value)) else None)
    ensures o.filter.Some? && !KeyMayMatch(t.policy, o.filter.value, t.index[i].value, k.user) ==> Finds(f, items, k, None)
  {
    hide Orders, FirstAtOrAfter, Tight, KeyMayMatch, Block, FitsIn32, HasBlock;
    NotPastTheBlock(t, k, items, chunks);
    FilterIsRight(t, k, items, chunks);
    ChunkKeys(items, chunks, i);
    OrdersFewer(f, KeysOf(chunks[i]) + {k}, KeysOf(items) + KeysOf(t.index) + {k});
    BlockSorted(t.index, chunks, i);
    assert ChunkInFile(sum, f, o.file, l.interval, chunks[i], BlockHandle(HandlesOf(t.index)[i], l.sizes[i]));
  }

  lemma {:induction false} BlockSorted(index: seq<Item<Handle>>, chunks: seq<Items>, i: nat)
    requires Indexed(index, chunks) && i < |chunks|
    ensures Sorted(chunks[i])
  {
  }

  /** A lookup at a snapshot, from the bytes of a table file: the newest visible version is reached whenever
      there is one. */
  method GetNewest(sum: Sum, f: KeyFormat, policy: Policy, useFilter: bool, filterKey: Bytes, file: Bytes, user: UserKey, s: Sequence,
                   ghost t: Table, ghost items: Items, ghost chunks: seq<Items>, ghost l: Layout)
    returns (r: Option<Pair>, ghost p: nat)
    requires IsTableFile(sum, f, filterKey, file, t, chunks, l) && Holds(t, items, chunks) && policy == t.policy
    requires Orders(f, KeysOf(items) + KeysOf(t.index) + {LookupKey(user, s)}) && forall i | 0 <= i < |items| :: items[i].key.kind <= 1
    ensures r.Some? ==> p < |items| && r.value == Pair(f.encode(items[p].key), items[p].value)
    ensures forall x | x in items && x.key.user == user && x.key.seqno <= s ::
        r.Some? && items[p].key.user == user && x.key.seqno <= items[p].key.seqno <= s
  {
    hide Holds, FirstAtOrAfter, Orders, InFile, Block, EncIndex, MetaInFile, HasBlock, FitsIn32, FooterInFile;
    var o := Open(sum, useFilter, filterKey, file, f, t, chunks, l);
    r := InternalGet(sum, f, policy, o.value, LookupKey(user, s), t, items, chunks, l);
    HeldSorted(t, items, chunks);
    p := FirstAtOrAfter(items, LookupKey(user, s));
    forall x | x in items && x.key.user == user && x.key.seqno <= s
      ensures r.Some? && items[p].key.user == user && x.key.seqno <= items[p].key.seqno <= s
    {
      var j: nat :| j < |items| && items[j] == x;
      LookupFindsNewest(items, user, s, j);
    }
  }
}
