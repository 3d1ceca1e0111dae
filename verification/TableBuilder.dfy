/** TableBuilder (table/table_builder.cc): writing a sorted run as blocks, with an
    index entry for each, added when the next key is known, and filters. */
module TableBuilder {
  import opened InternalKeys
  import opened Coding
  import opened Comparators
  import opened Bloom
  import opened FilterBlock
  import opened Table
  import opened TableFormat
  import opened BlockFormat
  import BlockBuilder
  import LogFormat

  const UINT32: nat := 0x1_0000_0000

  function AllEntries(blocks: seq<DataBlock>): seq<Pair> {
    if |blocks| == 0 then [] else AllEntries(blocks[..|blocks| - 1]) + blocks[|blocks| - 1].entries
  }

  lemma {:induction false} AllEntriesSnoc(blocks: seq<DataBlock>, b: DataBlock)
    ensures AllEntries(blocks + [b]) == AllEntries(blocks) + b.entries
  {
    assert (blocks + [b])[..|blocks|] == blocks;
  }

  // ----- the builder's state -----

  /** The key that follows block `b`: in the next block, or in the block being filled. */
  function NextKey(blocks: seq<DataBlock>, data: seq<Pair>, b: nat): TableKey {
    if b + 1 < |blocks| && |blocks[b + 1].entries| > 0 then blocks[b + 1].entries[0].key
    else if |data| > 0 then data[0].key else TableKey([], 0)
  }

  /** The index so far: each entry separates its block from the next key. */
  ghost predicate Indexed(blocks: seq<DataBlock>, data: seq<Pair>, index: seq<IndexEntry>)
    requires BlocksOk(blocks)
  {
    && |index| <= |blocks| && (|index| == |blocks| > 0 ==> |data| > 0)
    && forall b :: 0 <= b < |index| ==>
        index[b].offset == blocks[b].offset && Separates(LastKey(blocks[b]), NextKey(blocks, data, b), index[b].key)
  }

  ghost predicate Laid(blocks: seq<DataBlock>, data: seq<Pair>, offset: nat) {
    && BlocksOk(blocks) && Ascending(data)
    && (|blocks| > 0 && |data| > 0 ==> KeyLess(LastKey(blocks[|blocks| - 1]), data[0].key))
    && (forall b :: 0 <= b < |blocks| ==> blocks[b].offset < offset)
  }

  /** Every key is in the filter group of its block's offset, or will be. */
  ghost predicate Collected(blocks: seq<DataBlock>, data: seq<Pair>, offset: nat, groups: seq<seq<FilterKey>>, keys: seq<FilterKey>) {
    && |groups| == offset / FILTER_BASE
    && (forall i :: 0 <= i < |data| ==> data[i].key.user in keys)
    && (forall b, i :: 0 <= b < |blocks| && 0 <= i < |blocks[b].entries| ==> InGroup(blocks[b].offset, blocks[b].entries[i].key.user, groups, keys))
  }

  predicate InGroup(offset: nat, key: FilterKey, groups: seq<seq<FilterKey>>, keys: seq<FilterKey>) {
    var g := offset / FILTER_BASE;
    if g < |groups| then key in groups[g] else g == |groups| && key in keys
  }

  lemma {:induction false} AppendPair(blocks: seq<DataBlock>, data: seq<Pair>, offset: nat, p: Pair)
    requires Laid(blocks, data, offset)
    requires |data| > 0 ==> KeyLess(data[|data| - 1].key, p.key)
    requires |data| == 0 && |blocks| > 0 ==> KeyLess(LastKey(blocks[|blocks| - 1]), p.key)
    ensures Laid(blocks, data + [p], offset)
  {
    hide KeyLess, BlocksOk;
    forall i | 0 <= i < |data| ensures KeyLess(data[i].key, p.key) {
      if i < |data| - 1 { KeyTransitive(data[i].key, data[|data| - 1].key, p.key); }
    }
  }

  lemma {:induction false} AppendIndexed(blocks: seq<DataBlock>, data: seq<Pair>, index: seq<IndexEntry>, p: Pair)
    requires BlocksOk(blocks) && Indexed(blocks, data, index)
    ensures Indexed(blocks, data + [p], index)
  {
    hide KeyLess, Separates, Precedes, Ascending;
    forall b | 0 <= b < |index| ensures NextKey(blocks, data + [p], b) == NextKey(blocks, data, b) {
    }
  }

  /** The delayed index entry, once the next key is known. */
  lemma {:induction false} AppendIndex(blocks: seq<DataBlock>, index: seq<IndexEntry>, p: Pair, e: IndexEntry)
    requires BlocksOk(blocks) && Indexed(blocks, [], index) && |index| + 1 == |blocks|
    requires e.offset == blocks[|index|].offset && Separates(LastKey(blocks[|index|]), p.key, e.key)
    ensures Indexed(blocks, [p], index + [e])
  {
    hide KeyLess, Separates;
    forall b | 0 <= b < |index| ensures NextKey(blocks, [p], b) == NextKey(blocks, [], b) {
    }
  }

  lemma {:induction false} WriteLaid(blocks: seq<DataBlock>, data: seq<Pair>, offset: nat, offset': nat)
    requires Laid(blocks, data, offset) && |data| > 0 && offset < offset'
    ensures Laid(blocks + [DataBlock(offset, data)], [], offset')
  {
    hide KeyLess, Ascending, Precedes;
    var b := DataBlock(offset, data);
    forall i | 0 <= i < |blocks| ensures Precedes(blocks[i], b) {
      LaidBlocks(blocks, data, offset);
      BeforeNew(blocks, data, offset, i);
    }
    NoneAscending();
    var blocks' := blocks + [b];
    forall i, j | 0 <= i < j < |blocks'| ensures Precedes(blocks'[i], blocks'[j]) {
    }
  }

  lemma {:induction false} NoneAscending()
    ensures Ascending([])
  {
  }

  lemma {:induction false} BeforeNew(blocks: seq<DataBlock>, data: seq<Pair>, offset: nat, i: nat)
    requires Laid(blocks, data, offset) && |data| > 0 && i < |blocks|
    ensures Precedes(blocks[i], DataBlock(offset, data))
  {
    hide KeyLess, Ascending;
    var n := |blocks| - 1;
    if i < n {
      assert Precedes(blocks[i], blocks[n]);
      NotBefore(blocks, n);
      AfterChain(LastKey(blocks[i]), blocks[n].entries[0].key, LastKey(blocks[n]), data[0].key);
    }
  }

  lemma {:induction false} AfterChain(a: TableKey, b: TableKey, c: TableKey, d: TableKey)
    requires KeyLess(a, b) && (b == c || KeyLess(b, c)) && KeyLess(c, d)
    ensures KeyLess(a, d)
  {
    hide KeyLess;
    if KeyLess(b, c) { KeyTransitive(a, b, c); }
    KeyTransitive(a, c, d);
  }

  lemma {:induction false} NotBefore(blocks: seq<DataBlock>, b: nat)
    requires BlocksOk(blocks) && b < |blocks|
    ensures |blocks[b].entries| > 0
    ensures (blocks[b].entries[0].key == LastKey(blocks[b]) || KeyLess(blocks[b].entries[0].key, LastKey(blocks[b])))
  {
    hide KeyLess, Precedes;
  }

  lemma {:induction false} WriteIndexed(blocks: seq<DataBlock>, data: seq<Pair>, index: seq<IndexEntry>, b: DataBlock)
    requires BlocksOk(blocks) && BlocksOk(blocks + [b]) && Indexed(blocks, data, index) && b.entries == data
    requires |data| > 0
    ensures Indexed(blocks + [b], [], index)
  {
    hide KeyLess, Separates, Precedes, Ascending;
    forall i | 0 <= i < |index| ensures NextKey(blocks + [b], [], i) == NextKey(blocks, data, i) {
    }
  }

  // ----- sizes -----

  /** A bound on what a pair adds to its data block and, when it is the last there,
      to the index. */
  function PairCost(p: Pair): nat { 2 * |p.key.user| + 2 * |p.value| + 63 }

  function PairsCost(es: seq<Pair>): nat {
    if |es| == 0 then 0 else PairsCost(es[..|es| - 1]) + PairCost(es[|es| - 1])
  }

  lemma {:induction false} PairsCostSum(es: seq<Pair>, more: seq<Pair>)
    ensures PairsCost(es + more) == PairsCost(es) + PairsCost(more)
    decreases |more|
  {
    if |more| == 0 {
      assert es + more == es;
    } else {
      var n := |more| - 1;
      assert (es + more)[..|es| + n] == es + more[..n];
      PairsCostSum(es, more[..n]);
    }
  }

  lemma {:induction false} PairsCostSnoc(es: seq<Pair>, p: Pair)
    ensures PairsCost(es + [p]) == PairsCost(es) + PairCost(p)
  {
    assert (es + [p])[..|es|] == es;
  }

  /** The size of the block being filled, and how much has been written. */
  ghost predicate SizesOk(dataSize: nat, offset: nat, blocks: seq<DataBlock>, data: seq<Pair>) {
    dataSize + 40 * |data| <= 8 + PairsCost(data) && offset <= PairsCost(AllEntries(blocks))
  }

  lemma {:induction false} SizesAfterData(dataSize: nat, offset: nat, blocks: seq<DataBlock>, data: seq<Pair>,
      p: Pair, dataSize': nat)
    requires SizesOk(dataSize, offset, blocks, data)
    requires dataSize' <= dataSize + 2 * |KeyBytes(p.key)| + 2 * |p.value| + 7
    ensures SizesOk(dataSize', offset, blocks, data + [p])
  {
    PairsCostSnoc(data, p);
  }

  lemma {:induction false} SizesAfterBlock(dataSize: nat, offset: nat, blocks: seq<DataBlock>, data: seq<Pair>)
    requires SizesOk(dataSize, offset, blocks, data) && |data| > 0
    requires PairsCost(AllEntries(blocks) + data) + 8 < UINT32
    ensures SizesOk(8, offset + dataSize + BLOCK_TRAILER_SIZE, blocks + [DataBlock(offset, data)], [])
    ensures dataSize < UINT32 && offset + dataSize + BLOCK_TRAILER_SIZE < UINT64 && HandleOk(BlockHandle(offset, dataSize))
  {
    AllEntriesSnoc(blocks, DataBlock(offset, data));
    PairsCostSum(AllEntries(blocks), data);
  }

  /** The index block with its first `n` entries. */
  ghost predicate IndexSizeOk(size: nat, blocks: seq<DataBlock>, n: nat) {
    n <= |blocks| && size <= 8 + PairsCost(AllEntries(blocks[..n]))
  }

  lemma {:induction false} SizeAfterIndex(size: nat, blocks: seq<DataBlock>, n: nat, s: TableKey, handle: BlockHandle, size': nat)
    requires IndexSizeOk(size, blocks, n) && n < |blocks|
    requires |blocks[n].entries| > 0 && |s.user| <= |LastKey(blocks[n]).user| && HandleOk(handle)
    requires size' <= size + 2 * |KeyBytes(s)| + 2 * |HandleBytes(handle)| + 7
    ensures IndexSizeOk(size', blocks, n + 1)
  {
    hide HandleBytes;
    HandleIsShort(handle);
    var b := blocks[n];
    assert blocks[..n + 1] == blocks[..n] + [b];
    AllEntriesSnoc(blocks[..n], b);
    PairsCostSum(AllEntries(blocks[..n]), b.entries);
  }

  lemma {:induction false} SizeAsBefore(size: nat, blocks: seq<DataBlock>, n: nat, b: DataBlock)
    requires IndexSizeOk(size, blocks, n)
    ensures IndexSizeOk(size, blocks + [b], n)
  {
    assert (blocks + [b])[..n] == blocks[..n];
  }

  lemma {:induction false} IndexIsSmall(size: nat, blocks: seq<DataBlock>)
    requires IndexSizeOk(size, blocks, |blocks|) && PairsCost(AllEntries(blocks)) + 8 < UINT32
    ensures size < UINT32
  {
    assert blocks[..|blocks|] == blocks;
  }

  /** One more data block at the end of the file. */
  lemma {:induction false} BlockStored(crc: LogFormat.Checksum, file: seq<Byte>, blocks: seq<DataBlock>,
      handles: seq<BlockHandle>, data: seq<Pair>, contents: seq<Byte>, indexSize: nat, fits: bool)
    requires |data| > 0 && |handles| == |blocks| && (fits ==> |file| < UINT64 && InFile(crc, file, blocks, handles))
    requires |contents| < UINT32 ==> IsBlock(contents, Encoded(data))
    requires PairsCost(AllEntries(blocks) + data) + 8 < UINT32 ==> fits && SizesOk(|contents|, |file|, blocks, data)
    requires PairsCost(AllEntries(blocks)) + 8 < UINT32 ==>
      (forall h :: h in handles ==> HandleOk(h)) && IndexSizeOk(indexSize, blocks, |blocks|)
    ensures var blocks', handles' := blocks + [DataBlock(|file|, data)], handles + [BlockHandle(|file|, |contents|)];
            var file' := file + RawBlock(crc, contents);
            && AllEntries(blocks') == AllEntries(blocks) + data
            && (fits && |contents| < UINT32 ==> InFile(crc, file', blocks', handles'))
            && (PairsCost(AllEntries(blocks')) + 8 < UINT32 ==>
                  && fits && |contents| < UINT32 && |file'| < UINT64 && SizesOk(8, |file'|, blocks', [])
                  && (forall h :: h in handles' ==> HandleOk(h)) && IndexSizeOk(indexSize, blocks', |blocks|))
  {
    hide SizesOk, IndexSizeOk, InFile, AllEntries, PairsCost, RawBlock, IsBlock, Encoded, HandleOk;
    AllEntriesSnoc(blocks, DataBlock(|file|, data));
    PairsCostSum(AllEntries(blocks), data);
    if fits && |contents| < UINT32 { InFileMore(crc, file, blocks, handles, contents, data); }
    if PairsCost(AllEntries(blocks) + data) + 8 < UINT32 {
      SizesAfterBlock(|contents|, |file|, blocks, data);
      SizeAsBefore(indexSize, blocks, |blocks|, DataBlock(|file|, data));
    }
  }

  lemma {:induction false} StillIndexed(index: seq<IndexEntry>, handles: seq<BlockHandle>, h: BlockHandle)
    requires |index| <= |handles|
    ensures IndexPairs(index, handles + [h]) == IndexPairs(index, handles)
  {
    hide KeyBytes, HandleBytes;
  }

  /** Before anything is added. */
  lemma {:induction false} Nothing(crc: LogFormat.Checksum)
    ensures Laid([], [], 0) && Indexed([], [], []) && InFile(crc, [], [], []) && SizesOk(8, 0, [], []) && IndexSizeOk(8, [], 0)
    ensures Collected([], [], 0, [], []) && AllEntries([]) == [] && PairsCost([]) == 0
    ensures Encoded([]) == [] && IndexPairs([], []) == []
  {
  }

  class TableBuilder {
    const crc: LogFormat.Checksum
    const hash: KeyHash
    const blockSize: nat
    const restartInterval: nat
    const filterBlock: FilterBlockBuilder?
    const dataBlock: BlockBuilder.Builder
    const indexBlock: BlockBuilder.Builder
    /** The file's contents, and its length. */
    var file: seq<Byte>
    var offset: nat
    var lastKey: TableKey
    var numEntries: nat
    var pendingIndexEntry: bool
    var pendingHandle: BlockHandle
    /** Everything added; the blocks written and where; the pairs of the block being
        filled; and the index so far. */
    ghost var entries: seq<Pair>
    ghost var blocks: seq<DataBlock>
    ghost var handles: seq<BlockHandle>
    ghost var data: seq<Pair>
    ghost var index: seq<IndexEntry>
    /** No block has reached 4 GiB, nor the file 2 to the power 64 bytes. */
    ghost var fits: bool

    /** Blocks, index and pending entry. */
    ghost predicate Placed()
      reads this
    {
      && Laid(blocks, data, offset) && Indexed(blocks, data, index)
      && (if pendingIndexEntry then data == [] && |index| + 1 == |blocks| && pendingHandle.offset == blocks[|index|].offset
          else |index| == |blocks|)
      && entries == AllEntries(blocks) + data && (numEntries == 0 <==> |blocks| == 0 && |data| == 0)
      && (|data| > 0 ==> lastKey == data[|data| - 1].key)
      && (|data| == 0 && |blocks| > 0 ==> lastKey == LastKey(blocks[|blocks| - 1]))
    }

    /** The bytes of the index block being filled. */
    ghost predicate IndexWritten()
      reads this`blocks, this`handles, this`index, this`pendingIndexEntry, this`pendingHandle, indexBlock
    {
      && |index| <= |handles| == |blocks|
      && indexBlock.Valid() && !indexBlock.finished && indexBlock.layout.entries == IndexPairs(index, handles)
      && (pendingIndexEntry ==> |index| < |handles| && pendingHandle == handles[|index|])
      && (PairsCost(AllEntries(blocks)) + 8 < UINT32 ==>
            (forall h :: h in handles ==> HandleOk(h)) && IndexSizeOk(indexBlock.CurrentSizeEstimate(), blocks, |index|))
    }

    /** The bytes of the data block being filled, and of the file. */
    ghost predicate DataWritten()
      reads this`file, this`offset, this`blocks, this`handles, this`data, this`fits, dataBlock
    {
      && dataBlock.Valid() && !dataBlock.finished && dataBlock.layout.entries == Encoded(data)
      && offset == |file| && (fits ==> |file| < UINT64 && InFile(crc, file, blocks, handles))
      && (PairsCost(AllEntries(blocks) + data) + 8 < UINT32 ==>
            fits && SizesOk(dataBlock.CurrentSizeEstimate(), offset, blocks, data))
    }

    ghost predicate Written()
      reads this`file, this`offset, this`blocks, this`handles, this`data, this`index, this`fits
      reads this`pendingIndexEntry, this`pendingHandle, dataBlock, indexBlock
    {
      dataBlock != indexBlock && restartInterval >= 1 && IndexWritten() && DataWritten()
    }

    /** Filters. */
    ghost predicate Filtered()
      reads this, filterBlock
    {
      filterBlock != null ==> filterBlock.Valid() && filterBlock.hash == hash
                              && Collected(blocks, data, offset, filterBlock.groups, filterBlock.keys)
    }

    ghost predicate Valid()
      reads this, filterBlock, dataBlock, indexBlock
    {
      Placed() && Filtered() && Written()
    }

    ghost function FilterCost(): nat
      reads this, filterBlock
    {
      if filterBlock == null then 0 else filterBlock.Cost()
    }

    constructor (crc: LogFormat.Checksum, hash: KeyHash, blockSize: nat, restartInterval: nat, bitsPerKey: Option<nat>, k: nat)
      requires 1 <= k <= 30 && restartInterval >= 1
      ensures Valid() && entries == [] && this.crc == crc && this.hash == hash
      ensures fresh(dataBlock) && fresh(indexBlock) && (filterBlock != null ==> fresh(filterBlock))
      ensures filterBlock == null <==> bitsPerKey.None?
      ensures FilterCost() == 0 && (bitsPerKey.Some? ==> filterBlock.bitsPerKey == bitsPerKey.value)
    {
      hide Laid, Indexed, Collected, InFile, SizesOk, IndexSizeOk, AllEntries, PairsCost, FiltersOk, Encoded, IndexPairs,
        BlockBuilder.Holds, LastKey, KeyCost;
      this.crc, this.hash, this.blockSize, this.restartInterval := crc, hash, blockSize, restartInterval;
      file, offset := [], 0;
      lastKey, numEntries, pendingIndexEntry, pendingHandle := TableKey([], 0), 0, false, BlockHandle(0, 0);
      entries, blocks, handles, data, index, fits := [], [], [], [], [], true;
      dataBlock := new BlockBuilder.Builder(restartInterval);
      indexBlock := new BlockBuilder.Builder(1);
      if bitsPerKey.Some? {
        filterBlock := new FilterBlockBuilder(hash, bitsPerKey.value, k);
      } else {
        filterBlock := null;
      }
      new;
      Nothing(crc);
    }

    lemma {:induction false} LastAdded()
      requires Placed()
      ensures numEntries > 0 ==> |entries| > 0 && lastKey == entries[|entries| - 1].key
    {
      hide KeyLess, Separates;
      if |data| == 0 && |blocks| > 0 {
        LaidBlocks(blocks, data, offset);
        assert blocks == blocks[..|blocks| - 1] + [blocks[|blocks| - 1]];
        AllEntriesSnoc(blocks[..|blocks| - 1], blocks[|blocks| - 1]);
      }
    }

    method Add(key: TableKey, value: seq<Byte>)
      requires Valid() && (numEntries > 0 ==> KeyLess(lastKey, key))
      modifies this, filterBlock, dataBlock, indexBlock
      ensures Valid() && entries == old(entries) + [Pair(key, value)]
      ensures filterBlock != null ==> FilterCost() <= old(FilterCost()) + KeyCost(filterBlock.bitsPerKey)
    {
      hide Placed, Written, Collected, KeyLess, FiltersOk, KeyCost, FilterBlockBuilder.Cost;
      if filterBlock != null {
        CollectedMore(blocks, data, offset, filterBlock.groups, filterBlock.keys, Pair(key, value));
        filterBlock.AddKey(key.user);
      }
      AddPair(Pair(key, value));
      if dataBlock.CurrentSizeEstimate() >= blockSize {
        Flush();
      }
    }

    /** The index entry that waited for this key, and the pair itself. */
    method AddPair(p: Pair)
      requires Placed() && Written() && (numEntries > 0 ==> KeyLess(lastKey, p.key))
      modifies this`index, this`lastKey, this`numEntries, this`data, this`pendingIndexEntry, this`entries, dataBlock, indexBlock
      ensures Placed() && Written() && entries == old(entries) + [p] && data == old(data) + [p]
    {
      hide Laid, Indexed, Separates, KeyLess, BlocksOk, AllEntries, IndexWritten, DataWritten;
      LaidBlocks(blocks, data, offset);
      AppendPair(blocks, data, offset, p);
      if pendingIndexEntry {
        var s := FindInternalSeparator(lastKey, p.key);
        assert data + [p] == [p];
        AppendIndex(blocks, index, p, IndexEntry(s, pendingHandle.offset));
        lastKey := s;
        AddIndexEntry();
      } else {
        AppendIndexed(blocks, data, index, p);
      }
      lastKey := p.key;
      numEntries := numEntries + 1;
      assert AllEntries(blocks) + data + [p] == AllEntries(blocks) + (data + [p]);
      entries := entries + [p];
      AddData(p);
    }

    /** The index entry of the last block, at the key chosen for it. */
    method AddIndexEntry()
      requires IndexWritten() && pendingIndexEntry && |index| + 1 == |blocks|
      requires |blocks[|index|].entries| > 0 && |lastKey.user| <= |LastKey(blocks[|index|]).user|
      modifies this`index, this`pendingIndexEntry, indexBlock
      ensures IndexWritten() && !pendingIndexEntry && index == old(index) + [IndexEntry(lastKey, pendingHandle.offset)]
    {
      hide KeyBytes, HandleBytes, IndexSizeOk, AllEntries, PairsCost, BlockBuilder.Holds;
      ghost var n, e := |index|, IndexEntry(lastKey, pendingHandle.offset);
      ghost var before := indexBlock.CurrentSizeEstimate();
      assert IndexPairs(index + [e], handles) == IndexPairs(index, handles) + [KeyValue(KeyBytes(lastKey), HandleBytes(pendingHandle))];
      indexBlock.Add(KeyBytes(lastKey), HandleBytes(pendingHandle));
      if PairsCost(AllEntries(blocks)) + 8 < UINT32 {
        SizeAfterIndex(before, blocks, n, lastKey, pendingHandle, indexBlock.CurrentSizeEstimate());
      }
      index := index + [e];
      pendingIndexEntry := false;
    }

    method AddData(p: Pair)
      requires DataWritten()
      modifies this`data, dataBlock
      ensures DataWritten() && data == old(data) + [p]
    {
      hide KeyBytes, SizesOk, StoredAt, AllEntries, PairsCost, BlockBuilder.Holds;
      ghost var before := dataBlock.CurrentSizeEstimate();
      assert Encoded(data + [p]) == Encoded(data) + [KeyValue(KeyBytes(p.key), p.value)];
      dataBlock.Add(KeyBytes(p.key), p.value);
      assert AllEntries(blocks) + (data + [p]) == (AllEntries(blocks) + data) + [p];
      PairsCostSnoc(AllEntries(blocks) + data, p);
      if PairsCost(AllEntries(blocks) + data) + 8 < UINT32 {
        SizesAfterData(before, offset, blocks, data, p, dataBlock.CurrentSizeEstimate());
      }
      data := data + [p];
    }

    method Flush()
      requires Valid()
      modifies this, filterBlock, dataBlock
      ensures Valid() && entries == old(entries) && |data| == 0 && FilterCost() <= old(FilterCost())
      ensures |blocks| > 0 ==> pendingIndexEntry
    {
      hide Placed, IndexWritten, DataWritten, Collected, CollectedAt, FiltersOk;
      if NothingAdded() {
        IsPending();
        return;
      }
      ghost var before, b := blocks, DataBlock(offset, data);
      if filterBlock != null { CollectedWritten(blocks, data, offset, filterBlock.groups, filterBlock.keys, b); }
      WriteData();
      IsPending();
      if filterBlock != null {
        ghost var g, k := filterBlock.groups, filterBlock.keys;
        Groups(blocks, g, k, offset, b.offset);
        filterBlock.StartBlock(offset);
        CollectedStarted(blocks, b.offset, offset, g, k, filterBlock.groups, filterBlock.keys);
      }
    }

    /** data_block.empty() */
    predicate NothingAdded()
      requires DataWritten()
      reads this, dataBlock
      ensures NothingAdded() <==> |data| == 0
    {
      BlockBuilder.EmptyBuffer(dataBlock.buffer, dataBlock.layout);
      dataBlock.buffer == []
    }

    /** A block in between waits for its index entry. */
    lemma {:induction false} IsPending()
      requires Placed() && |data| == 0
      ensures |blocks| > 0 ==> pendingIndexEntry
    {
      hide Laid, BlocksOk, Separates;
    }

    /** WriteBlock of the block being filled. */
    method WriteData()
      requires Placed() && Written() && |data| > 0
      modifies this`file, this`blocks, this`handles, this`pendingHandle, this`offset, this`data, this`pendingIndexEntry, this`fits, dataBlock
      ensures Placed() && Written() && |data| == 0 && offset > old(offset)
      ensures blocks == old(blocks) + [DataBlock(old(offset), old(data))]
    {
      hide Laid, Indexed, Separates, KeyLess, BlocksOk, AllEntries, Written, RawBlock;
      NotYetPending();
      LaidBlocks(blocks, data, offset);
      ghost var b := DataBlock(offset, data);
      AllEntriesSnoc(blocks, b);
      ghost var bs, d, n := blocks, data, offset;
      StoreData();
      WriteLaid(bs, d, n, offset);
      LaidBlocks(blocks, [], offset);
      WriteIndexed(bs, d, index, b);
    }

    method StoreData()
      requires Written() && |data| > 0 && !pendingIndexEntry && |index| == |blocks|
      modifies this`file, this`blocks, this`handles, this`pendingHandle, this`offset, this`data, this`pendingIndexEntry, this`fits, dataBlock
      ensures Written() && data == [] && offset > old(offset) && pendingIndexEntry && pendingHandle.offset == old(offset)
      ensures blocks == old(blocks) + [DataBlock(old(offset), old(data))]
    {
      hide SizesOk, IndexSizeOk, InFile, AllEntries, PairsCost, RawBlock, IsBlock, Encoded, IndexPairs, BlockBuilder.Holds, HandleOk;
      ghost var size, was, b := dataBlock.CurrentSizeEstimate(), file, DataBlock(offset, data);
      ghost var contents;
      pendingHandle, contents := WriteBlock(dataBlock);
      BlockStored(crc, was, blocks, handles, data, contents, indexBlock.CurrentSizeEstimate(), fits);
      StillIndexed(index, handles, pendingHandle);
      fits := fits && |contents| < UINT32 && |file| < UINT64;
      blocks, handles, data := blocks + [b], handles + [pendingHandle], [];
      assert AllEntries(blocks) + data == AllEntries(blocks);
      assert Encoded([]) == [];
      pendingIndexEntry := true;
    }

    lemma {:induction false} NotYetPending()
      requires Placed() && |data| > 0
      ensures !pendingIndexEntry && |index| == |blocks|
    {
      hide Laid, BlocksOk, Separates;
    }

    /** WriteBlock, without compression. */
    method WriteBlock(block: BlockBuilder.Builder) returns (handle: BlockHandle, ghost contents: seq<Byte>)
      requires offset == |file| && block.Valid() && !block.finished
      modifies this`file, this`offset, block
      ensures block.Valid() && !block.finished && block.layout.entries == [] && block.CurrentSizeEstimate() == 8
      ensures offset == |file| && file == old(file) + RawBlock(crc, contents) && handle == BlockHandle(old(offset), |contents|)
      ensures |contents| == old(block.CurrentSizeEstimate())
      ensures |contents| < UINT32 ==> IsBlock(contents, old(block.layout.entries))
    {
      hide RawBlock, FinishedAs;
      assert block.restartInterval >= 1;
      var raw := block.Finish();
      contents := raw;
      handle := WriteRawBlock(raw);
      block.Reset();
    }

    method WriteRawBlock(contents: seq<Byte>) returns (handle: BlockHandle)
      requires offset == |file|
      modifies this`file, this`offset
      ensures offset == |file| && file == old(file) + RawBlock(crc, contents)
      ensures handle == BlockHandle(old(offset), |contents|)
    {
      handle := BlockHandle(offset, |contents|);
      file := file + contents;
      var trailer := [NO_COMPRESSION] + EncodeFixed32(LogFormat.Mask(crc(contents + [NO_COMPRESSION])));
      file := file + trailer;
      assert old(file) + contents + trailer == old(file) + RawBlock(crc, contents);
      offset := offset + |contents| + BLOCK_TRAILER_SIZE;
    }

    /** A block flushed waits for its index entry, which is the last. */
    ghost predicate LastWaits()
      reads this`blocks, this`index, this`pendingIndexEntry, this`pendingHandle, this`lastKey
    {
      && BlocksOk(blocks) && Indexed(blocks, [], index)
      && if pendingIndexEntry
         then |index| + 1 == |blocks| && lastKey == LastKey(blocks[|index|]) && pendingHandle.offset == blocks[|index|].offset
         else |blocks| == 0 == |index|
    }

    /** The last index entry, and the index block. */
    method WriteIndex() returns (handle: BlockHandle, ghost contents: seq<Byte>)
      requires offset == |file| && IndexWritten() && LastWaits()
      modifies this`lastKey, this`index, this`pendingIndexEntry, this`file, this`offset, indexBlock
      ensures |index| == |blocks| == |handles| && BlocksOk(blocks) && IndexOk(blocks, index)
      ensures offset == |file| && file == old(file) + RawBlock(crc, contents) && handle == BlockHandle(old(offset), |contents|)
      ensures |contents| < UINT32 ==> IsBlock(contents, IndexPairs(index, handles))
      ensures PairsCost(AllEntries(blocks)) + 8 < UINT32 ==> |contents| < UINT32
    {
      hide Indexed, KeyLess, Precedes, Ascending, IndexOk, AllEntries, PairsCost, IndexSizeOk, RawBlock, IsBlock, IndexPairs,
        BlockBuilder.Holds;
      if pendingIndexEntry {
        lastKey := FindInternalSuccessor(lastKey);
        FinishIndexed(blocks, index, IndexEntry(lastKey, pendingHandle.offset));
        AddIndexEntry();
      } else {
        NothingIndexed(blocks, index);
      }
      if PairsCost(AllEntries(blocks)) + 8 < UINT32 { IndexIsSmall(indexBlock.CurrentSizeEstimate(), blocks); }
      handle, contents := WriteBlock(indexBlock);
    }

    /** The metaindex block: where the filter is. */
    method WriteMeta(filter: BlockHandle) returns (handle: BlockHandle, ghost contents: seq<Byte>)
      requires offset == |file| && restartInterval >= 1
      modifies this`file, this`offset
      ensures offset == |file| && file == old(file) + RawBlock(crc, contents) && handle == BlockHandle(old(offset), |contents|)
      ensures |contents| < UINT32 ==> IsBlock(contents, MetaPairs(filterBlock != null, filter))
      ensures HandleOk(filter) ==> |contents| < UINT32
    {
      hide RawBlock, IsBlock, HandleBytes, BlockBuilder.Holds;
      var metaIndexBlock := new BlockBuilder.Builder(restartInterval);
      if filterBlock != null {
        assert |FILTER_KEY| == 34;
        if HandleOk(filter) { HandleIsShort(filter); }
        metaIndexBlock.Add(FILTER_KEY, HandleBytes(filter));
      }
      assert metaIndexBlock.layout.entries == MetaPairs(filterBlock != null, filter);
      handle, contents := WriteBlock(metaIndexBlock);
    }

    /** The filter block, when there is a policy. */
    method WriteFilter() returns (handle: BlockHandle, ghost filter: Option<seq<Byte>>)
      requires offset == |file| && Filtered() && data == []
      modifies this`file, this`offset, filterBlock
      ensures offset == |file| && file == WithFilter(crc, old(file), filter) && handle == FilterHandle(old(file), filter)
      ensures filter.Some? <==> filterBlock != null
      ensures old(FilterCost()) < UINT32 && filterBlock != null ==> |filterBlock.result| < UINT32
      ensures old(FilterCost()) < UINT32 && old(offset) < UINT32 ==> HandleOk(handle) && offset < 4 * UINT32
      ensures filterBlock != null && |filterBlock.result| < UINT32 ==> FilterOk(hash, blocks, filter.value)
    {
      hide Collected, FiltersOk, HoldsFilters, Grouped, RawBlock;
      handle, filter := BlockHandle(0, 0), None;
      if filterBlock != null {
        ghost var g, k := filterBlock.groups, filterBlock.keys;
        var contents := filterBlock.Finish();
        handle := WriteRawBlock(contents);
        filter := Some(contents);
        CollectedFinished(blocks, old(offset), g, k, filterBlock.groups);
      }
    }

    /** Finish: the last block, then filter, metaindex, index and footer. */
    method Finish() returns (ghost t: TableFile, ghost sections: Sections)
      requires Valid()
      modifies this, filterBlock, dataBlock, indexBlock
      ensures AllEntries(t.blocks) == old(entries) && (t.filter.Some? <==> filterBlock != null)
      ensures fits ==> TableOk(hash, t) && IsTableFile(crc, file, t, sections)
      ensures PairsCost(old(entries)) + 8 < UINT32 && old(FilterCost()) < UINT32 ==> fits
    {
      hide Placed, DataWritten, IndexWritten, LastWaits, Filtered, FilterOk, BlocksOk, IndexOk, AllEntries, PairsCost,
        RawBlock, IsBlock, InFile, IsTableFile, FilterCost, WithFilter, FilterHandle, IndexPairs, MetaPairs;
      Flush();
      AfterFlush();
      ghost var stored := file;
      var filterHandle, metaHandle, indexHandle;
      ghost var filter, m, i;
      filterHandle, filter := WriteFilter();
      metaHandle, m := WriteMeta(filterHandle);
      indexHandle, i := WriteIndex();
      t := TableFile(blocks, index, filter);
      sections := Sections(handles, filterHandle, metaHandle, indexHandle);
      fits := fits && |m| < UINT32 && |i| < UINT32 && |file| < UINT64 && (filterBlock != null ==> |filterBlock.result| < UINT32);
      if fits { WholeFile(crc, stored, t, sections, m, i, file); }
      file := file + FooterBytes(metaHandle, indexHandle);
      offset := offset + FOOTER_LENGTH;
    }

    /** Nothing is left to write but the index entry of the last block. */
    lemma {:induction false} AfterFlush()
      requires Placed() && Written() && data == [] && (|blocks| > 0 ==> pendingIndexEntry)
      ensures entries == AllEntries(blocks) && LastWaits() && offset == |file| && (fits ==> InFile(crc, file, blocks, handles))
      ensures PairsCost(AllEntries(blocks)) + 8 < UINT32 ==> fits && |file| < UINT32
    {
      hide Indexed, KeyLess, InFile, IndexPairs;
      LaidBlocks(blocks, data, offset);
      assert AllEntries(blocks) + [] == AllEntries(blocks);
    }
  }

  lemma {:induction false} LaidBlocks(blocks: seq<DataBlock>, data: seq<Pair>, offset: nat)
    requires Laid(blocks, data, offset)
    ensures BlocksOk(blocks) && forall b :: 0 <= b < |blocks| ==> |blocks[b].entries| > 0
  {
    hide KeyLess, Ascending, Precedes;
  }

  lemma {:induction false} CollectedMore(blocks: seq<DataBlock>, data: seq<Pair>, offset: nat,
      groups: seq<seq<FilterKey>>, keys: seq<FilterKey>, p: Pair)
    requires Collected(blocks, data, offset, groups, keys)
    ensures Collected(blocks, data + [p], offset, groups, keys + [p.key.user])
  {
  }

  /** The block being filled goes where its keys are being collected. */
  ghost predicate CollectedAt(blocks: seq<DataBlock>, offset: nat, groups: seq<seq<FilterKey>>, keys: seq<FilterKey>) {
    && |groups| == offset / FILTER_BASE
    && forall b, i :: 0 <= b < |blocks| && 0 <= i < |blocks[b].entries| ==>
        InGroup(blocks[b].offset, blocks[b].entries[i].key.user, groups, keys)
  }

  lemma {:induction false} CollectedWritten(blocks: seq<DataBlock>, data: seq<Pair>, offset: nat,
      groups: seq<seq<FilterKey>>, keys: seq<FilterKey>, b: DataBlock)
    requires Collected(blocks, data, offset, groups, keys) && b == DataBlock(offset, data)
    ensures CollectedAt(blocks + [b], offset, groups, keys)
  {
  }

  lemma {:induction false} Groups(blocks: seq<DataBlock>, groups: seq<seq<FilterKey>>, keys: seq<FilterKey>,
      offset': nat, offset: nat)
    requires CollectedAt(blocks, offset, groups, keys) && offset <= offset'
    ensures |groups| <= offset' / FILTER_BASE
  {
  }

  lemma {:induction false} CollectedStarted(blocks: seq<DataBlock>, offset: nat, offset': nat, g: seq<seq<FilterKey>>, k: seq<FilterKey>,
                                            g': seq<seq<FilterKey>>, k': seq<FilterKey>)
    requires CollectedAt(blocks, offset, g, k) && |g'| == offset' / FILTER_BASE
    requires if |g'| == |g| then g' == g && k' == k else |g| < |g'| && g' == g + [k] + seq(|g'| - |g| - 1, _ => []) && k' == []
    ensures Collected(blocks, [], offset', g', k')
  {
    forall b, i | 0 <= b < |blocks| && 0 <= i < |blocks[b].entries| ensures InGroup(blocks[b].offset, blocks[b].entries[i].key.user, g', k') {
      assert InGroup(blocks[b].offset, blocks[b].entries[i].key.user, g, k);
    }
  }

  lemma {:induction false} CollectedFinished(blocks: seq<DataBlock>, offset: nat, g: seq<seq<FilterKey>>,
      k: seq<FilterKey>, g': seq<seq<FilterKey>>)
    requires Collected(blocks, [], offset, g, k) && g' == if k == [] then g else g + [k]
    ensures Grouped(blocks, g') && |g'| <= offset / FILTER_BASE + 1
  {
    forall b, i | 0 <= b < |blocks| && 0 <= i < |blocks[b].entries|
      ensures var n := blocks[b].offset / FILTER_BASE; n < |g'| && blocks[b].entries[i].key.user in g'[n]
    {
      assert InGroup(blocks[b].offset, blocks[b].entries[i].key.user, g, k);
    }
  }

  lemma {:induction false} FinishIndexed(blocks: seq<DataBlock>, index: seq<IndexEntry>, e: IndexEntry)
    requires BlocksOk(blocks) && Indexed(blocks, [], index) && |index| + 1 == |blocks|
    requires e.offset == blocks[|index|].offset && Succeeds(LastKey(blocks[|index|]), e.key)
    ensures IndexOk(blocks, index + [e])
  {
    hide KeyLess, BytesLess, Separates, Succeeds, Precedes, Ascending, LastKey;
    forall b | 0 <= b < |index| ensures b + 1 < |blocks| && NextKey(blocks, [], b) == blocks[b + 1].entries[0].key {
    }
  }

  lemma {:induction false} NothingIndexed(blocks: seq<DataBlock>, index: seq<IndexEntry>)
    requires BlocksOk(blocks) && |blocks| == 0 == |index|
    ensures IndexOk(blocks, index)
  {
  }

  lemma {:induction false} EntriesOf(t: TableFile, e: Pair)
    ensures InTable(t, e) <==> e in AllEntries(t.blocks)
  {
    InAll(t.blocks, e);
  }

  lemma {:induction false} InAll(blocks: seq<DataBlock>, e: Pair)
    ensures (exists b :: 0 <= b < |blocks| && e in blocks[b].entries) <==> e in AllEntries(blocks)
  {
    if |blocks| > 0 {
      var n := |blocks| - 1;
      InAll(blocks[..n], e);
      if b :| 0 <= b < n && e in blocks[..n][b].entries { assert e in blocks[b].entries; }
      if b :| 0 <= b < |blocks| && e in blocks[b].entries { if b < n { assert e in blocks[..n][b].entries; } }
    }
  }
}
