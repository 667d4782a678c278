/** Building a table (table/table_builder.cc). */
module TableBuilding {
  import opened Basics
  import opened InternalKeys
  import opened Cursors
  import opened TwoLevels
  import opened LogFormat
  import opened FilterBlocks
  import opened Tables
  import opened Varints
  import opened BlockFormat
  import opened BlockBuilding
  import opened TableFormat
  import opened TableReading

  /** A table file stays below this many bytes. */
  const MAX_FILE: nat := 0x8000_0000_0000_0000

  /** What comes behind block i. */
  ghost function Later(chunks: seq<Items>, i: nat, data: Items): Items
    requires i < |chunks|
  {
    Flatten(chunks[i + 1..]) + data
  }

  /** Each finished index entry separates its block from everything behind it. */
  ghost predicate IndexRight(index: seq<Item<Handle>>, chunks: seq<Items>, handles: seq<Handle>, data: Items) {
    && |index| <= |chunks| == |handles|
    && forall i | 0 <= i < |index| ::
      index[i].value == handles[i] && Later(chunks, i, data) != [] && Separates(index[i].key, chunks[i], Later(chunks, i, data))
  }

  lemma {:induction false} LaterAppend(chunks: seq<Items>, i: nat, data: Items)
    requires i < |chunks|
    ensures Later(chunks + [data], i, []) == Later(chunks, i, data)
  {
    assert (chunks + [data])[i + 1..] == chunks[i + 1..] + [data];
    FlattenAppend(chunks[i + 1..], data);
  }

  lemma {:induction false} LastOfLater(chunks: seq<Items>, i: nat, data: Items)
    requires i < |chunks| && Later(chunks, i, data) != []
    ensures var all := Flatten(chunks) + data; all != [] && Later(chunks, i, data)[|Later(chunks, i, data)| - 1] == all[|all| - 1]
  {
    assert chunks == chunks[..i + 1] + chunks[i + 1..];
    FlattenSplit(chunks[..i + 1], chunks[i + 1..]);
    assert Flatten(chunks) + data == Flatten(chunks[..i + 1]) + Later(chunks, i, data);
  }

  /** Another item keeps the index entries right. */
  lemma {:induction false} IndexRightMore(index: seq<Item<Handle>>, chunks: seq<Items>, handles: seq<Handle>, data: Items, x: Item<Value>)
    requires IndexRight(index, chunks, handles, data)
    requires var all := Flatten(chunks) + data; all != [] ==> Before(all[|all| - 1].key, x.key)
    ensures IndexRight(index, chunks, handles, data + [x])
  {
    hide Separates;
    forall i | 0 <= i < |index|
      ensures Later(chunks, i, data + [x]) == Later(chunks, i, data) + [x] && Separates(index[i].key, chunks[i], Later(chunks, i, data + [x]))
    {
      LastOfLater(chunks, i, data);
      SeparatesMore(index[i].key, chunks[i], Later(chunks, i, data), x);
      assert Later(chunks, i, data + [x]) == Later(chunks, i, data) + [x];
    }
  }

  /** The entry for the last block, once the first item of the next one is known. */
  lemma {:induction false} IndexRightNext(c: Shortener, index: seq<Item<Handle>>, chunks: seq<Items>, handles: seq<Handle>, x: Item<Value>)
    requires IndexRight(index, chunks, handles, [x]) && |index| + 1 == |chunks|
    requires var last := chunks[|index|]; last != [] && Sorted(last) && Before(last[|last| - 1].key, x.key)
    ensures var last := chunks[|index|];
      IndexRight(index + [Item(Separator(c, last[|last| - 1].key, x.key), handles[|index|])], chunks, handles, [x])
  {
    hide Separates;
    var n, last := |index|, chunks[|index|];
    NewSeparator(c, last, x);
    assert chunks[n + 1..] == [];
    assert Later(chunks, n, [x]) == [x];
  }

  lemma {:induction false} IndexRightFlush(index: seq<Item<Handle>>, chunks: seq<Items>, handles: seq<Handle>, data: Items, h: Handle)
    requires IndexRight(index, chunks, handles, data)
    ensures IndexRight(index, chunks + [data], handles + [h], [])
  {
    hide Separates;
    forall i | 0 <= i < |index| ensures Later(chunks + [data], i, []) == Later(chunks, i, data) {
      LaterAppend(chunks, i, data);
    }
  }

  class TableBuilder {
    const shortener: Shortener
    const policy: Policy
    const filter: FilterBlockBuilder?
    const blockSize: nat
    const sum: Sum
    const format: KeyFormat
    const interval: nat
    const filterKey: Bytes
    const block: BlockBuilder
    const indexBlock: BlockBuilder
    var file: Bytes
    var lastKey: IKey
    var numEntries: nat
    var pendingIndexEntry: bool
    var pendingHandle: BlockHandle
    var offset: nat
    /** the data block in the making, the index entries, and the stored blocks with where they are */
    ghost var dataBlock: Items
    ghost var index: seq<Item<Handle>>
    ghost var chunks: seq<Items>
    ghost var handles: seq<Handle>
    ghost var sizes: seq<nat>

    /** All items added so far. */
    ghost function All(): Items
      reads this`chunks, this`dataBlock
    {
      Flatten(chunks) + dataBlock
    }

    ghost predicate Filtering()
      reads this, filter
    {
      filter != null ==>
        && filter.Valid() && filter.policy == policy && filter.blockOffset == offset
        && |handles| == |chunks|
        && (forall i, x | 0 <= i < |chunks| && x in chunks[i] :: (handles[i], x.key.user) in filter.added)
        && (forall x | x in dataBlock :: (offset, x.key.user) in filter.added)
    }

    /** What is in the table. */
    ghost predicate Core()
      reads this`chunks, this`dataBlock, this`handles, this`index, this`pendingIndexEntry, this`numEntries, this`lastKey
    {
      && Sorted(All()) && IndexRight(index, chunks, handles, dataBlock) && (forall i | 0 <= i < |chunks| :: chunks[i] != [])
      && |index| + (if pendingIndexEntry then 1 else 0) == |chunks|
      && (pendingIndexEntry ==> dataBlock == [])
      && (numEntries > 0 <==> All() != []) && (All() != [] ==> lastKey == All()[|All()| - 1].key)
      && (dataBlock == [] && !pendingIndexEntry ==> chunks == [])
    }

    /** How it is written: the blocks so far are in the file, and the two block builders hold the rest. */
    ghost predicate Stored()
      reads this`file, this`offset, this`dataBlock, this`index, this`chunks, this`handles, this`sizes, this`pendingIndexEntry, this`pendingHandle
      reads block, indexBlock
    {
      && interval >= 1 && block != indexBlock && block.interval == interval && indexBlock.interval == 1
      && block.Valid() && block.items == Enc(format, dataBlock) && FitsIn32(Enc(format, dataBlock), interval)
      && |index| <= |sizes| == |chunks| == |handles| && indexBlock.Valid() && indexBlock.items == EncIndex(format, index, sizes[..|index|])
      && offset == |file| && InFile(sum, format, file, interval, chunks, handles, sizes)
      && (pendingIndexEntry ==> |index| < |sizes| && pendingHandle == BlockHandle(handles[|index|], sizes[|index|]))
    }

    ghost predicate Valid()
      reads this, filter, block, indexBlock
    {
      Core() && Filtering() && Stored()
    }

    constructor (shortener: Shortener, policy: Policy, useFilter: bool, blockSize: nat, sum: Sum, format: KeyFormat, interval: nat, filterKey: Bytes)
      requires interval >= 1
      ensures Valid() && All() == [] && file == [] && fresh(this) && fresh(block) && fresh(indexBlock) && (filter != null ==> fresh(filter))
      ensures this.format == format && this.sum == sum && this.interval == interval && this.filterKey == filterKey && this.policy == policy
      ensures this.blockSize == blockSize && this.shortener == shortener && (filter != null) == useFilter
    {
      var builder := new FilterBlockBuilder(policy);
      this.shortener, this.policy, this.blockSize := shortener, policy, blockSize;
      this.sum, this.format, this.interval, this.filterKey := sum, format, interval, filterKey;
      filter := if useFilter then builder else null;
      var data := new BlockBuilder(interval);
      var entries := new BlockBuilder(1);
      block, indexBlock, file := data, entries, [];
      lastKey, numEntries, pendingIndexEntry, pendingHandle, offset := IKey(0.0, 0, 0), 0, false, BlockHandle(0, 0), 0;
      dataBlock, index, chunks, handles, sizes := [], [], [], [], [];
      new;
      NothingStored(format, interval);
    }

    /** The next index entry, for the first block that has none. */
    method AddIndexEntry(key: IKey)
      requires Stored() && pendingIndexEntry
      modifies this`index, this`pendingIndexEntry, indexBlock
      ensures Stored() && !pendingIndexEntry && index == old(index) + [Item(key, old(handles[|index|]))]
    {
      hide InFile, FitsIn32, EncodeHandle, Enc, EncIndex, BlockBuilder.Valid;
      MoreIndex(format, index, sizes, key, handles[|index|]);
      indexBlock.Add(format.encode(key), EncodeHandle(pendingHandle));
      index := index + [Item(key, handles[|index|])];
      pendingIndexEntry := false;
    }

    /** The index entry of the last block, with a key before the first one of the next block. */
    method AddPendingEntry(x: Item<Value>)
      requires Core() && Stored() && (All() != [] ==> Before(lastKey, x.key))
      modifies this`index, this`pendingIndexEntry, this`lastKey, indexBlock
      ensures Stored() && IndexRight(index, chunks, handles, dataBlock + [x]) && |index| == |chunks| && !pendingIndexEntry
    {
      hide Separates, Stored;
      IndexRightMore(index, chunks, handles, dataBlock, x);
      if pendingIndexEntry {
        LastChunk(chunks);
        assert dataBlock + [x] == [x];
        IndexRightNext(shortener, index, chunks, handles, x);
        lastKey := Separator(shortener, lastKey, x.key);
        AddIndexEntry(lastKey);
      }
    }

    /** The data block takes one more entry. */
    method PutItem(x: Item<Value>)
      requires Stored() && !pendingIndexEntry && FitsIn32(Enc(format, dataBlock + [x]), interval)
      modifies this`dataBlock, block
      ensures Stored() && dataBlock == old(dataBlock) + [x]
    {
      hide InFile, FitsIn32, Enc, EncIndex, BlockBuilder.Valid;
      MoreItems(format, dataBlock, x);
      block.Add(format.encode(x.key), x.value);
      dataBlock := dataBlock + [x];
    }

    /** Add, but for the filter and the flush. */
    method Append(x: Item<Value>)
      requires Core() && Stored() && (All() != [] ==> Before(lastKey, x.key)) && FitsIn32(Enc(format, dataBlock + [x]), interval)
      modifies this`index, this`pendingIndexEntry, this`lastKey, this`numEntries, this`dataBlock, block, indexBlock
      ensures Core() && Stored() && All() == old(All()) + [x] && dataBlock == old(dataBlock) + [x]
    {
      hide IndexRight, Sorted, Stored, FitsIn32, Enc, BlockBuilder.Valid;
      AppendSorted(All(), x);
      assert Flatten(chunks) + (dataBlock + [x]) == All() + [x];
      AddPendingEntry(x);
      lastKey := x.key;
      numEntries := numEntries + 1;
      PutItem(x);
    }

    /** Add: a block whose size reaches the limit is flushed, and no other. Blocks and file have room for x. */
    method Add(x: Item<Value>)
      requires Valid() && (All() != [] ==> Before(lastKey, x.key))
      requires FitsIn32(Enc(format, dataBlock + [x]), interval) && |file| < MAX_FILE
      modifies this, filter, block, indexBlock
      ensures Valid() && All() == old(All()) + [x]
      ensures if |Block(Enc(format, old(dataBlock) + [x]), interval)| >= blockSize
              then chunks == old(chunks) + [old(dataBlock) + [x]] && dataBlock == []
              else chunks == old(chunks) && dataBlock == old(dataBlock) + [x]
    {
      hide Core, IndexRight, InFile, FitsIn32, Enc, EncIndex, BlockBuilder.Valid, Block;
      if filter != null {
        filter.AddKey(x.key.user);
      }
      Append(x);
      SizeOfBlock();
      if block.CurrentSizeEstimate() >= blockSize {
        Flush();
      }
    }

    lemma {:induction false} SizeOfBlock()
      requires Stored()
      ensures FitsIn32(Enc(format, dataBlock), interval) && block.CurrentSizeEstimate() == |Block(Enc(format, dataBlock), interval)|
    {
      hide InFile, EncIndex, Enc, FitsIn32, Block, BlockBuilder.Valid;
      block.EstimateIsSize();
    }

    /** WriteRawBlock, without compression. */
    method WriteRawBlock(contents: Bytes) returns (h: BlockHandle)
      requires offset == |file|
      modifies this`file, this`offset
      ensures file == old(file) + StoredBlock(sum, contents) && offset == |file| && h == BlockHandle(old(|file|), |contents|)
    {
      h := BlockHandle(offset, |contents|);
      file := file + contents;
      file := file + ([NO_COMPRESSION] + Fixed32(sum.mask(sum.value(contents + [NO_COMPRESSION]))));
      offset := offset + |contents| + BLOCK_TRAILER_SIZE;
    }

    /** WriteBlock for the data block. */
    method StoreBlock()
      requires Stored() && !pendingIndexEntry && dataBlock != [] && |index| == |chunks| && |file| < MAX_FILE
      modifies this`pendingHandle, this`file, this`offset, this`chunks, this`handles, this`sizes, this`dataBlock, this`pendingIndexEntry, block
      ensures Stored() && dataBlock == [] && offset > old(offset) && pendingIndexEntry
      ensures chunks == old(chunks) + [old(dataBlock)] && handles == old(handles) + [old(offset)]
      ensures |index| <= |sizes| && FinalIndex() == old(FinalIndex()) && |file| < MAX_FILE + 9 * TWO32
    {
      hide InFile, FitsIn32, Enc, EncIndex, StoredBlock, Block, BlockBuilder.Valid;
      ghost var was := dataBlock;
      NothingStored(format, interval);
      BlockSize(Enc(format, dataBlock), interval);
      MoreInFile(sum, format, file, interval, chunks, handles, sizes, dataBlock);
      var contents := block.Finish();
      pendingHandle := WriteRawBlock(contents);
      block.Reset();
      assert sizes[..|index|] == (sizes + [pendingHandle.size])[..|index|];
      chunks, handles, sizes := chunks + [was], handles + [pendingHandle.offset], sizes + [pendingHandle.size];
      dataBlock, pendingIndexEntry := [], true;
    }

    method WriteDataBlock()
      requires Core() && Stored() && dataBlock != [] && |file| < MAX_FILE
      modifies this`pendingHandle, this`file, this`offset, this`chunks, this`handles, this`sizes, this`dataBlock, this`pendingIndexEntry, block
      ensures Core() && Stored() && All() == old(All()) && dataBlock == [] && offset > old(offset) && pendingIndexEntry
      ensures chunks == old(chunks) + [old(dataBlock)] && handles == old(handles) + [old(offset)]
      ensures |index| <= |sizes| && FinalIndex() == old(FinalIndex()) && |file| < MAX_FILE + 9 * TWO32
    {
      hide Separates, Sorted, IndexRight, FitsIn32, Enc, Block, FinalIndex, InFile, EncIndex, BlockBuilder.Valid;
      IndexRightFlush(index, chunks, handles, dataBlock, offset);
      FlattenAppend(chunks, dataBlock);
      assert Flatten(chunks + [dataBlock]) + [] == Flatten(chunks) + dataBlock;
      StoreBlock();
    }

    lemma {:induction false} NothingHeld()
      requires Stored()
      ensures block.Empty() <==> dataBlock == []
    {
      hide InFile, FitsIn32, EncIndex;
      block.EmptyIff();
    }

    /** Flush: the data block goes to the file; its index entry is left for later. */
    method Flush()
      requires Valid() && |file| < MAX_FILE
      modifies this, filter, block
      ensures Valid() && All() == old(All()) && dataBlock == [] && FinalIndex() == old(FinalIndex()) && |file| < MAX_FILE + 9 * TWO32
      ensures filter != null ==> filter.Total() == old(filter.Total())
      ensures chunks == if old(dataBlock) == [] then old(chunks) else old(chunks) + [old(dataBlock)]
    {
      hide Core, InFile, Enc, EncIndex, FitsIn32, FinalIndex, BlockBuilder.Valid, FilterBlockBuilder.Valid;
      NothingHeld();
      if block.Empty() {
        return;
      }
      WriteDataBlock();
      if filter != null {
        filter.StartBlock(offset);
      }
    }

    /** The index block as it will be when the table is finished. */
    ghost function FinalIndex(): seq<Pair>
      requires |index| <= |sizes| && interval >= 1 && FitsIn32(Enc(format, dataBlock), interval)
      reads this`file, this`dataBlock, this`index, this`sizes, this`pendingIndexEntry, this`pendingHandle, this`lastKey
    {
      var entries, key := EncIndex(format, index, sizes[..|index|]), format.encode(Successor(shortener, lastKey));
      if pendingIndexEntry then entries + [Pair(key, EncodeHandle(pendingHandle))]
      else if dataBlock == [] then entries
      else entries + [Pair(key, EncodeHandle(BlockHandle(|file|, |Block(Enc(format, dataBlock), interval)|)))]
    }

    /** The index entry of the last block. */
    method FinishIndex()
      requires Core() && Stored() && dataBlock == []
      modifies this`index, this`pendingIndexEntry, this`lastKey, indexBlock
      ensures Stored() && !pendingIndexEntry && Indexed(index, chunks) && |index| == |chunks| == |handles|
      ensures forall i | 0 <= i < |chunks| :: index[i].value == handles[i]
      ensures forall i, j | 0 <= i < j < |chunks| :: Tight(index[i].key, chunks[i], chunks[j])
      ensures indexBlock.items == old(FinalIndex())
    {
      hide Separates, Tight, IndexRight, Indexed, InFile, FitsIn32, Enc, EncIndex, EncodeHandle, BlockBuilder.Valid;
      assert All() == Flatten(chunks);
      if pendingIndexEntry {
        LastChunk(chunks);
        SuccessorFollows(shortener, lastKey);
        ghost var last := chunks[|chunks| - 1];
        lastKey := Successor(shortener, lastKey);
        AtEndCloses(last, lastKey);
        IndexComplete(index, Item(lastKey, handles[|index|]), chunks, handles);
        MoreIndex(format, index, sizes, lastKey, handles[|index|]);
        AddIndexEntry(lastKey);
      } else {
        NothingIndexed(index, chunks);
      }
    }

    /** The finished filter block lets every key of every block pass. */
    method FinishFilter() returns (ghost filterBlock: Option<Bytes>, h: BlockHandle)
      requires Filtering() && Stored() && dataBlock == [] && |handles| == |chunks|
      requires |file| < MAX_FILE + 9 * TWO32 && (filter != null ==> |filter.Total()| < TWO32)
      modifies filter, this`file, this`offset
      ensures Stored() && old(file) <= file && |file| < MAX_FILE + 0x100_0000_0000_0000
      ensures filterBlock.Some? <==> filter != null
      ensures filterBlock.Some? ==> HandleFits(h) && HasBlock(sum, file, h, filterBlock.value)
      ensures filterBlock.Some? ==> forall i, x | 0 <= i < |chunks| && x in chunks[i] ::
          KeyMayMatch(policy, OpenFilter(filterBlock.value), handles[i], x.key.user)
    {
      hide FilterBlocks.Written, Offsets, KeyMayMatch, OpenFilter, StoredBlock, InFile, FitsIn32, Enc, EncIndex, HasBlock, BlockBuilder.Valid;
      filterBlock, h := None, BlockHandle(0, 0);
      if filter != null {
        FilterGroups();
        var contents := filter.Finish();
        FilterSize(policy, filter.groups);
        InFileGrows(sum, format, file, StoredBlock(sum, contents), interval, chunks, handles, sizes);
        HasBlockAtEnd(sum, file, contents);
        h := WriteRawBlock(contents);
        filterBlock := Some(contents);
        forall i, x | 0 <= i < |chunks| && x in chunks[i]
          ensures KeyMayMatch(policy, OpenFilter(contents), handles[i], x.key.user)
        {
          assert (handles[i], x.key.user) in filter.added;
          NeverHides(policy, filter.groups, handles[i], x.key.user);
        }
      }
    }

    lemma {:induction false} AllSorted()
      requires Core()
      ensures Sorted(All())
    {
    }

    lemma {:induction false} FilterGroups()
      requires Filtering() && filter != null && offset == |file| < MAX_FILE + 9 * TWO32
      ensures |filter.groups| < 0x10_0000_1000_0000
    {
      hide FilterBlocks.Written, Offsets;
    }

    /** The metaindex block: where the filter block is. */
    method FinishMeta(filter: Option<BlockHandle>) returns (h: BlockHandle)
      requires Stored() && FitsIn32(MetaItems(filterKey, filter), interval) && |file| < MAX_FILE + 0x100_0000_0000_0000
      modifies this`file, this`offset
      ensures Stored() && old(file) <= file && |file| < MAX_FILE + 0x100_0010_0000_0000
      ensures HandleFits(h) && HasBlock(sum, file, h, Block(MetaItems(filterKey, filter), interval))
    {
      hide InFile, FitsIn32, Enc, EncIndex, StoredBlock, Block, EncodeHandle, HasBlock, BlockBuilder.Valid;
      var meta := new BlockBuilder(interval);
      if filter.Some? {
        meta.Add(filterKey, EncodeHandle(filter.value));
      }
      BlockSize(MetaItems(filterKey, filter), interval);
      assert meta.items == MetaItems(filterKey, filter);
      var contents := meta.Finish();
      InFileGrows(sum, format, file, StoredBlock(sum, contents), interval, chunks, handles, sizes);
      HasBlockAtEnd(sum, file, contents);
      h := WriteRawBlock(contents);
    }

    /** WriteBlock for the index block. */
    method WriteIndexBlock() returns (h: BlockHandle)
      requires Stored() && FitsIn32(indexBlock.items, 1) && |file| < MAX_FILE + 0x100_0010_0000_0000
      modifies this`file, this`offset, indexBlock
      ensures |file| == offset && InFile(sum, format, file, interval, chunks, handles, sizes) && old(file) <= file
      ensures HandleFits(h) && old(FitsIn32(indexBlock.items, 1)) && HasBlock(sum, file, h, old(Block(indexBlock.items, 1)))
    {
      hide InFile, FitsIn32, Enc, EncIndex, StoredBlock, Block, HasBlock, BlockBuilder.Valid;
      BlockSize(indexBlock.items, 1);
      var contents := indexBlock.Finish();
      InFileGrows(sum, format, file, StoredBlock(sum, contents), interval, chunks, handles, sizes);
      HasBlockAtEnd(sum, file, contents);
      h := WriteRawBlock(contents);
    }

    /** The index block and the footer, once filter and metaindex block are in the file. */
    method FinishFile(ghost filterBlock: Option<Bytes>, ghost filterHandle: BlockHandle, metaindex: BlockHandle, ghost f1: Bytes)
      returns (ghost t: Table, ghost l: Layout)
      requires Core() && Stored() && dataBlock == [] && FitsIn32(FinalIndex(), 1) && HandleFits(metaindex)
      requires f1 <= file && |file| < MAX_FILE + 0x100_0010_0000_0000
      requires filterBlock.Some? ==> HandleFits(filterHandle) && HasBlock(sum, f1, filterHandle, filterBlock.value)
      requires filterBlock.Some? ==> forall i, x | 0 <= i < |chunks| && x in chunks[i] ::
          KeyMayMatch(policy, OpenFilter(filterBlock.value), handles[i], x.key.user)
      requires FitsIn32(MetaItems(filterKey, Named(filterBlock, filterHandle)), interval)
      requires HasBlock(sum, file, metaindex, Block(MetaItems(filterKey, Named(filterBlock, filterHandle)), interval))
      modifies this, indexBlock
      ensures chunks == old(chunks) && Holds(t, old(All()), chunks)
      ensures IsTableFile(sum, format, filterKey, file, t, chunks, l) && t.policy == policy
      ensures t.filter.Some? <==> filterBlock.Some?
    {
      hide Separates, Tight, IndexRight, Indexed, KeyMayMatch, Sorted, InFile, FitsIn32, Enc, EncIndex, StoredBlock, Block,
        EncodeHandle, HasBlock, FinalIndex, EncodeFooter, Core, MetaItems, OpenFilter, BlockBuilder.Valid;
      assert All() == Flatten(chunks);
      AllSorted();
      ghost var f2 := file;
      FinishIndex();
      assert sizes[..|index|] == sizes;
      var indexHandle := WriteIndexBlock();
      ghost var f3 := file;
      var footer := Footer(metaindex, indexHandle);
      file := file + EncodeFooter(footer);
      offset := offset + FOOTER_SIZE;
      t := Table(index, if filterBlock.Some? then Some(OpenFilter(filterBlock.value)) else None, policy);
      l := Layout(interval, sizes, filterBlock, filterHandle, footer);
      TableFileDone(sum, format, filterKey, f1, f2, f3, file, t, chunks, handles, l);
      FilterAllows(t, chunks, handles);
    }

    /** Finish: the last data block, the filter block, the metaindex block, the index block and the footer.
        The file is then a table that holds exactly what was added. */
    method Finish() returns (ghost t: Table, ghost l: Layout)
      requires Valid() && |file| < MAX_FILE && (filter != null ==> |filter.Total()| < TWO32)
      requires FitsIn32(FinalIndex(), 1) && |filterKey| < 0x1000_0000
      modifies this, filter, block, indexBlock
      ensures Holds(t, old(All()), chunks) && IsTableFile(sum, format, filterKey, file, t, chunks, l) && t.policy == policy
      ensures t.filter.Some? <==> filter != null
    {
      hide FilterBlocks.Written, KeyMayMatch, InFile, FitsIn32, Enc, EncIndex, Block, EncodeHandle, HasBlock, Core, MetaItems, OpenFilter,
        BlockBuilder.Valid, FilterBlockBuilder.Valid, IsTableFile, Holds, Successor;
      Flush();
      ghost var filterBlock;
      var filterHandle;
      filterBlock, filterHandle := FinishFilter();
      ghost var f1 := file;
      var named := if filter != null then Some(filterHandle) else None;
      MetaFits(filterKey, named, interval);
      var metaindex := FinishMeta(named);
      t, l := FinishFile(filterBlock, filterHandle, metaindex, f1);
    }
  }

  function Named(filterBlock: Option<Bytes>, h: BlockHandle): Option<BlockHandle> {
    if filterBlock.Some? then Some(h) else None
  }

  /** A block stays where it is in a longer file. */
  lemma {:induction false} HasBlockLonger(sum: Sum, file: Bytes, longer: Bytes, h: BlockHandle, contents: Bytes)
    requires HasBlock(sum, file, h, contents) && file <= longer
    ensures HasBlock(sum, longer, h, contents)
  {
    assert longer == file + longer[|file|..];
    HasBlockGrows(sum, file, longer[|file|..], h, contents);
  }

  /** All parts are in the finished file. */
  lemma {:induction false} TableFileDone(sum: Sum, f: KeyFormat, filterKey: Bytes, f1: Bytes, f2: Bytes, f3: Bytes, file: Bytes, t: Table,
                                         chunks: seq<Items>, handles: seq<Handle>, l: Layout)
    requires f1 <= f2 <= f3 && HandleFits(l.footer.metaindex) && HandleFits(l.footer.index) && file == f3 + EncodeFooter(l.footer)
    requires l.interval >= 1 && InFile(sum, f, f3, l.interval, chunks, handles, l.sizes) && |t.index| == |l.sizes| && HandlesOf(t.index) == handles
    requires FitsIn32(EncIndex(f, t.index, l.sizes), 1) && HasBlock(sum, f3, l.footer.index, Block(EncIndex(f, t.index, l.sizes), 1))
    requires FitsIn32(MetaItems(filterKey, FilterHandle(l)), l.interval)
    requires HasBlock(sum, f2, l.footer.metaindex, Block(MetaItems(filterKey, FilterHandle(l)), l.interval))
    requires l.filterBlock.Some? ==> HandleFits(l.filterHandle) && HasBlock(sum, f1, l.filterHandle, l.filterBlock.value)
    requires t.filter == if l.filterBlock.Some? then Some(OpenFilter(l.filterBlock.value)) else None
    ensures IsTableFile(sum, f, filterKey, file, t, chunks, l)
  {
    hide HasBlock, Block, FitsIn32, EncIndex, EncodeFooter, OpenFilter, MetaItems, InFile;
    InFileGrows(sum, f, f3, EncodeFooter(l.footer), l.interval, chunks, handles, l.sizes);
    HasBlockLonger(sum, f3, file, l.footer.index, Block(EncIndex(f, t.index, l.sizes), 1));
    HasBlockLonger(sum, f2, file, l.footer.metaindex, Block(MetaItems(filterKey, FilterHandle(l)), l.interval));
    if l.filterBlock.Some? {
      HasBlockLonger(sum, f1, file, l.filterHandle, l.filterBlock.value);
    }
    assert file[|file| - FOOTER_SIZE..] == EncodeFooter(l.footer);
  }

  lemma {:induction false} FilterAllows(t: Table, chunks: seq<Items>, handles: seq<Handle>)
    requires |t.index| == |chunks| == |handles| && forall i | 0 <= i < |chunks| :: t.index[i].value == handles[i]
    requires t.filter.Some? ==> forall i, x | 0 <= i < |chunks| && x in chunks[i] ::
        KeyMayMatch(t.policy, t.filter.value, handles[i], x.key.user)
    ensures Filtered(t, chunks)
  {
    hide KeyMayMatch;
  }

  /** A metaindex block is small. */
  lemma {:induction false} MetaFits(filterKey: Bytes, filter: Option<BlockHandle>, interval: nat)
    requires interval >= 1 && |filterKey| < 0x1000_0000 && (filter.Some? ==> HandleFits(filter.value))
    ensures FitsIn32(MetaItems(filterKey, filter), interval)
  {
    hide PutVarint;
    var items := MetaItems(filterKey, filter);
    if filter.Some? {
      HandleSize(filter.value);
      Powers();
      SizeBound(0, 5);
      SizeBound(|filterKey|, 5);
      SizeBound(|items[0].value|, 5);
      assert Data(items, interval, 1) == [] + EntryAt(items, interval, 0);
    }
  }

  lemma {:induction false} InFileGrows(sum: Sum, f: KeyFormat, file: Bytes, more: Bytes, interval: nat, chunks: seq<Items>, handles: seq<Handle>,
                                       sizes: seq<nat>)
    requires InFile(sum, f, file, interval, chunks, handles, sizes)
    ensures InFile(sum, f, file + more, interval, chunks, handles, sizes)
  {
    hide FitsIn32, Enc, Block, HasBlock;
    forall i | 0 <= i < |chunks| ensures ChunkInFile(sum, f, file + more, interval, chunks[i], BlockHandle(handles[i], sizes[i])) {
      assert ChunkInFile(sum, f, file, interval, chunks[i], BlockHandle(handles[i], sizes[i]));
      HasBlockGrows(sum, file, more, BlockHandle(handles[i], sizes[i]), Block(Enc(f, chunks[i]), interval));
    }
  }

  /** A filter block has its filters and four bytes for each. */
  lemma {:induction false} FilterSize(p: Policy, groups: seq<seq<UserKey>>)
    requires |FilterBlocks.Written(p, groups)| < TWO32 && All32(Offsets(p, groups))
    ensures |Contents(p, groups)| <= TWO32 + 4 * |groups| + 5
  {
    hide FilterBlocks.Written, Offsets;
    Fixed32sLength(Offsets(p, groups));
  }

  lemma {:induction false} MoreItems(f: KeyFormat, items: Items, x: Item<Value>)
    ensures Enc(f, items + [x]) == Enc(f, items) + [Pair(f.encode(x.key), x.value)]
  {
  }

  /** A block is not much larger than its entries. */
  lemma {:induction false} BlockSize(items: seq<Pair>, interval: nat)
    requires interval >= 1 && FitsIn32(items, interval)
    ensures |Block(items, interval)| < 8 * TWO32
  {
    hide Data;
    RestartsFit(items, interval);
    Fixed32sLength(RestartArray(items, interval, Restarts(interval, |items|)));
  }

  /** One more block behind those in the file. */
  lemma {:induction false} MoreInFile(sum: Sum, f: KeyFormat, file: Bytes, interval: nat, chunks: seq<Items>, handles: seq<Handle>, sizes: seq<nat>,
                                      data: Items)
    requires InFile(sum, f, file, interval, chunks, handles, sizes) && FitsIn32(Enc(f, data), interval) && |file| < MAX_FILE
    requires |Block(Enc(f, data), interval)| < 8 * TWO32
    ensures var contents := Block(Enc(f, data), interval);
      InFile(sum, f, file + StoredBlock(sum, contents), interval, chunks + [data], handles + [|file|], sizes + [|contents|])
  {
    hide FitsIn32, Enc, StoredBlock, Block, HasBlock;
    var contents := Block(Enc(f, data), interval);
    var more, all, hs, ns := file + StoredBlock(sum, contents), chunks + [data], handles + [|file|], sizes + [|contents|];
    forall i | 0 <= i < |all| ensures ChunkInFile(sum, f, more, interval, all[i], BlockHandle(hs[i], ns[i])) {
      if i < |chunks| {
        assert ChunkInFile(sum, f, file, interval, chunks[i], BlockHandle(handles[i], sizes[i]));
        HasBlockGrows(sum, file, StoredBlock(sum, contents), BlockHandle(handles[i], sizes[i]), Block(Enc(f, chunks[i]), interval));
      } else {
        HasBlockAtEnd(sum, file, contents);
      }
    }
  }

  lemma {:induction false} NothingStored(f: KeyFormat, interval: nat)
    requires interval >= 1
    ensures Enc(f, []) == [] && EncIndex(f, [], []) == [] && FitsIn32([], interval)
  {
  }

  /** The index block with one more entry. */
  lemma {:induction false} MoreIndex(f: KeyFormat, index: seq<Item<Handle>>, sizes: seq<nat>, key: IKey, handle: Handle)
    requires |index| < |sizes|
    ensures EncIndex(f, index + [Item(key, handle)], sizes[..|index| + 1])
         == EncIndex(f, index, sizes[..|index|]) + [Pair(f.encode(key), EncodeHandle(BlockHandle(handle, sizes[|index|])))]
  {
    hide EncodeHandle;
  }

  lemma {:induction false} NothingIndexed(index: seq<Item<Handle>>, chunks: seq<Items>)
    ensures index == [] && chunks == [] ==> Indexed(index, chunks)
  {
  }

  /** With an entry for the last block the index is complete. */
  lemma {:induction false} IndexComplete(index: seq<Item<Handle>>, x: Item<Handle>, chunks: seq<Items>, handles: seq<Handle>)
    requires IndexRight(index, chunks, handles, []) && |index| + 1 == |chunks| && x.value == handles[|index|]
    requires (forall i | 0 <= i < |chunks| :: chunks[i] != []) && Sorted(Flatten(chunks))
    requires Closes(x.key, chunks[|index|])
    ensures Indexed(index + [x], chunks)
    ensures forall i | 0 <= i < |chunks| :: (index + [x])[i].value == handles[i]
    ensures forall i, j | 0 <= i < j < |chunks| :: Tight((index + [x])[i].key, chunks[i], chunks[j])
  {
    hide Later, Sorted;
    var all := index + [x];
    forall i | 0 <= i < |chunks|
      ensures Closes(all[i].key, chunks[i]) && Sorted(chunks[i])
    {
      ChunkSorted(chunks, i);
      assert i < |index| ==> Separates(index[i].key, chunks[i], Later(chunks, i, []));
    }
    forall i, j | 0 <= i < j < |chunks|
      ensures Precedes(all[i].key, chunks[j]) && Tight(all[i].key, chunks[i], chunks[j]) && Before(all[i].key, all[j].key)
    {
      assert Separates(index[i].key, chunks[i], Later(chunks, i, []));
      LaterBlock(chunks, i, j, all[i].key);
      var y := chunks[j][|chunks[j]| - 1];
      AtOrAfterTransitive(all[j].key, y.key, all[i].key);
    }
    EntriesSorted(all);
  }

  lemma {:induction false} EntriesSorted(index: seq<Item<Handle>>)
    requires forall i, j | 0 <= i < j < |index| :: Before(index[i].key, index[j].key)
    ensures Sorted(index)
  {
  }

  lemma {:induction false} ChunkSorted(chunks: seq<Items>, i: nat)
    requires i < |chunks| && Sorted(Flatten(chunks))
    ensures Sorted(chunks[i])
  {
    CutAtBlock(chunks, i);
    var all, at := Flatten(chunks), Start(chunks, i);
    forall a, b | 0 <= a < b < |chunks[i]| ensures Before(chunks[i][a].key, chunks[i][b].key) {
      CutElement(chunks, i, a);
      CutElement(chunks, i, b);
    }
  }

  /** What separates a block from all that is behind it separates it from each later block. */
  lemma {:induction false} LaterBlock(chunks: seq<Items>, i: nat, j: nat, limit: IKey)
    requires i < j < |chunks| && Separates(limit, chunks[i], Later(chunks, i, []))
    ensures Precedes(limit, chunks[j]) && Tight(limit, chunks[i], chunks[j])
  {
    var rest := Later(chunks, i, []);
    assert rest == Flatten(chunks[i + 1..]);
    assert chunks[i + 1..][j - i - 1] == chunks[j];
    forall x | x in chunks[j] ensures x in rest {
      FlattenMember(chunks[i + 1..], j - i - 1, x);
    }
    forall k | 0 <= k < |chunks[j]| ensures Before(limit, chunks[j][k].key) {
      assert chunks[j][k] in rest;
      var q :| 0 <= q < |rest| && rest[q] == chunks[j][k];
    }
  }

  lemma {:induction false} AppendSorted(items: Items, x: Item<Value>)
    requires Sorted(items) && (items != [] ==> Before(items[|items| - 1].key, x.key))
    ensures Sorted(items + [x])
  {
    forall i | 0 <= i < |items| ensures Before(items[i].key, x.key) {
      if i < |items| - 1 {
        BeforeTransitive(items[i].key, items[|items| - 1].key, x.key);
      }
    }
  }

  /** The last block ends the items. */
  lemma {:induction false} LastChunk(chunks: seq<Items>)
    requires chunks != [] && Sorted(Flatten(chunks) + [])
    requires chunks[|chunks| - 1] != []
    ensures var all, last := Flatten(chunks) + [], chunks[|chunks| - 1];
      all != [] && last[|last| - 1] == all[|all| - 1] && Sorted(last)
  {
    hide Flatten;
    var n := |chunks| - 1;
    assert chunks == chunks[..n] + [chunks[n]];
    FlattenAppend(chunks[..n], chunks[n]);
    assert Flatten(chunks) + [] == Flatten(chunks[..n]) + chunks[n];
    SortedTail(Flatten(chunks[..n]), chunks[n]);
  }

  lemma {:induction false} SortedTail(front: Items, last: Items)
    requires Sorted(front + last)
    ensures Sorted(last)
  {
    forall i, j | 0 <= i < j < |last| ensures Before(last[i].key, last[j].key) {
      var k, l := |front| + i, |front| + j;
      assert Before((front + last)[k].key, (front + last)[l].key);
    }
  }
}
