/** Reading a table file (table/table.cc): opening it, and looking a key up. */
module TableReader {
  import opened InternalKeys
  import opened Coding
  import opened Comparators
  import opened BlockFormat
  import opened Bloom
  import opened FilterBlock
  import opened Table
  import opened TableFormat
  import opened TableBuilder
  import BlockReader
  import LogFormat

  // ----- keys in order -----

  lemma {:induction false} ByteOrderTransitive()
    ensures BlockReader.Transitive(ByteOrder)
  {
    forall a, b, c | ByteOrder(a, b) && ByteOrder(b, c) ensures ByteOrder(a, c) {
      hide KeyLess, ParseKey;
      KeyTransitive(ParseKey(a), ParseKey(b), ParseKey(c));
    }
  }

  lemma {:induction false} EncodedAscend(es: seq<Pair>)
    requires Ascending(es)
    ensures BlockReader.AscendingKeys(ByteOrder, Encoded(es))
  {
    hide KeyLess, ParseKey, KeyBytes;
    forall i, j | 0 <= i < j < |es| ensures ByteOrder(KeyBytes(es[i].key), KeyBytes(es[j].key)) {
      KeyRoundTrip(es[i].key);
      KeyRoundTrip(es[j].key);
    }
  }

  /** Each index key is before the next. */
  lemma {:induction false} IndexAscends(t: TableFile, i: nat, j: nat)
    requires BlocksOk(t.blocks) && IndexOk(t.blocks, t.index) && i < j < |t.index|
    ensures KeyLess(t.index[i].key, t.index[j].key)
  {
    hide KeyLess, BytesLess;
    var first, last := t.blocks[j].entries[0], LastKey(t.blocks[j]);
    assert KeyLess(t.index[i].key, t.blocks[i + 1].entries[0].key) by { BeforeNextBlock(t, i); }
    assert first in t.blocks[j].entries;
    FirstsAscend(t.blocks, i + 1, j, first);
    NotAfterLast(t.blocks, j, first);
    IndexNotBefore(t, j);
    hide BlocksOk, IndexOk;
    var next := t.blocks[i + 1].entries[0].key;
    if next != first.key { KeyTransitive(t.index[i].key, next, first.key); }
    if first.key != last { KeyTransitive(t.index[i].key, first.key, last); }
    if last != t.index[j].key { KeyTransitive(t.index[i].key, last, t.index[j].key); }
  }

  lemma {:induction false} BeforeNextBlock(t: TableFile, i: nat)
    requires BlocksOk(t.blocks) && IndexOk(t.blocks, t.index) && i < |t.index| && i + 1 < |t.blocks|
    ensures |t.blocks[i + 1].entries| > 0 && KeyLess(t.index[i].key, t.blocks[i + 1].entries[0].key)
  {
    hide KeyLess, Ascending;
    assert Precedes(t.blocks[i], t.blocks[i + 1]);
    SeparatorBetween(LastKey(t.blocks[i]), t.blocks[i + 1].entries[0].key, t.index[i].key);
  }

  lemma {:induction false} IndexNotBefore(t: TableFile, b: nat)
    requires BlocksOk(t.blocks) && IndexOk(t.blocks, t.index) && b < |t.index|
    ensures LastKey(t.blocks[b]) == t.index[b].key || KeyLess(LastKey(t.blocks[b]), t.index[b].key)
  {
    IndexAfterLast(t, b);
  }

  lemma {:induction false} IndexPairsAscend(t: TableFile, handles: seq<BlockHandle>)
    requires BlocksOk(t.blocks) && IndexOk(t.blocks, t.index) && |t.index| <= |handles|
    ensures BlockReader.AscendingKeys(ByteOrder, IndexPairs(t.index, handles))
  {
    hide KeyLess, ParseKey, KeyBytes, HandleBytes, BlocksOk, IndexOk;
    forall i, j | 0 <= i < j < |t.index| ensures ByteOrder(KeyBytes(t.index[i].key), KeyBytes(t.index[j].key)) {
      KeyRoundTrip(t.index[i].key);
      KeyRoundTrip(t.index[j].key);
      IndexAscends(t, i, j);
    }
  }

  // ----- one block -----

  /** The first pair at or after the target, by looking at all of them. */
  ghost function FirstFrom(less: BlockReader.Order, entries: seq<KeyValue>, target: seq<Byte>): (f: nat)
    ensures f <= |entries|
  {
    if |entries| == 0 || !less(entries[0].key, target) then 0 else 1 + FirstFrom(less, entries[1..], target)
  }

  lemma {:induction false} FirstIs(less: BlockReader.Order, entries: seq<KeyValue>, target: seq<Byte>, f: nat)
    requires f <= |entries| && BlockReader.IsFirst(less, entries, target, f)
    ensures f == FirstFrom(less, entries, target)
  {
    if f > 0 {
      assert less(entries[0].key, target);
      assert forall i :: 0 <= i < f - 1 ==> entries[1..][i] == entries[i + 1];
      FirstIs(less, entries[1..], target, f - 1);
    }
  }

  /** Block::NewIterator and one Seek; `ok` is the iterator's status. */
  method SeekInBlock(contents: seq<Byte>, less: BlockReader.Order, target: seq<Byte>, ghost entries: seq<KeyValue>)
    returns (ok: bool, found: bool, e: KeyValue)
    ensures IsBlock(contents, entries) && BlockReader.Transitive(less) && BlockReader.AscendingKeys(less, entries) ==>
              var f := FirstFrom(less, entries, target); ok && (found <==> f < |entries|) && (found ==> e == entries[f])
  {
    hide Decodes, BlockReader.Transitive, BlockReader.AscendingKeys, BlockReader.IsFirst;
    ghost var good := IsBlock(contents, entries) && BlockReader.Transitive(less) && BlockReader.AscendingKeys(less, entries);
    ghost var r: nat, L := 0, Layout([], [], [], []);
    if good {
      r, L :| FinishedAs(contents, r, L) && L.entries == entries;
      BlockReader.HasRestarts(contents, r, L);
    }
    found, e := false, KeyValue([], []);
    var restarts, numRestarts;
    ok, restarts, numRestarts := BlockReader.Open(contents, L);
    if !ok || numRestarts == 0 {
      return;
    }
    var iter := new BlockReader.Iter(contents, restarts, numRestarts, L);
    ghost var f := iter.Seek(less, target);
    if good { FirstIs(less, entries, target, f); }
    ok := !iter.corrupt;
    found := iter.current < iter.restarts;
    if found {
      e := KeyValue(iter.key, iter.data[iter.valuePos..iter.NextEntryOffset()]);
    }
  }

  /** The first index key at or after `k`, found among bytes. */
  lemma {:induction false} IndexFound(index: seq<IndexEntry>, handles: seq<BlockHandle>, k: TableKey)
    requires |index| <= |handles|
    ensures FirstFrom(ByteOrder, IndexPairs(index, handles), KeyBytes(k)) == IndexSeek(index, k)
  {
    hide KeyLess, ParseKey, KeyBytes, HandleBytes;
    if |index| > 0 {
      KeyRoundTrip(k);
      KeyRoundTrip(index[0].key);
      assert IndexPairs(index, handles)[1..] == IndexPairs(index[1..], handles[1..]);
      IndexFound(index[1..], handles[1..], k);
    }
  }

  lemma {:induction false} EntryFound(es: seq<Pair>, k: TableKey)
    ensures FirstFrom(ByteOrder, Encoded(es), KeyBytes(k)) == BlockSeek(es, k)
  {
    hide KeyLess, ParseKey, KeyBytes;
    if |es| > 0 {
      KeyRoundTrip(k);
      KeyRoundTrip(es[0].key);
      assert Encoded(es)[1..] == Encoded(es[1..]);
      EntryFound(es[1..], k);
    }
  }

  // ----- the table -----

  class OpenTable {
    const crc: LogFormat.Checksum
    const hash: KeyHash
    const file: seq<Byte>
    /** ReadOptions::verify_checksums */
    const verifyChecksums: bool
    /** The contents of the index block. */
    const indexBlock: seq<Byte>
    const filter: FilterBlockReader?
    /** What the file holds, and where, when it is a table file. */
    ghost const t: TableFile
    ghost const sections: Sections

    predicate Valid() {
      filter != null ==> filter.Valid()
    }

    ghost predicate Good() {
      && |t.index| == |t.blocks| == |sections.blocks| && TableOk(hash, t) && InFile(crc, file, t.blocks, sections.blocks)
      && IsBlock(indexBlock, IndexPairs(t.index, sections.blocks))
      && (filter != null ==> filter.Good() && Grouped(t.blocks, filter.groups))
    }

    constructor (crc: LogFormat.Checksum, hash: KeyHash, file: seq<Byte>, verifyChecksums: bool, indexBlock: seq<Byte>,
                 filter: FilterBlockReader?, ghost t: TableFile, ghost sections: Sections)
      ensures this.crc == crc && this.hash == hash && this.file == file && this.verifyChecksums == verifyChecksums
      ensures this.indexBlock == indexBlock && this.filter == filter && this.t == t && this.sections == sections
    {
      this.crc, this.hash, this.file, this.verifyChecksums := crc, hash, file, verifyChecksums;
      this.indexBlock, this.filter, this.t, this.sections := indexBlock, filter, t, sections;
    }

    /** What the index says about block `f`. */
    lemma {:induction false} IndexEntryAt(f: nat)
      requires Good() && f < |t.index|
      ensures f < |t.blocks| && f < |sections.blocks| && Ascending(t.blocks[f].entries)
      ensures IndexPairs(t.index, sections.blocks)[f].value == HandleBytes(sections.blocks[f])
      ensures HandleOk(sections.blocks[f]) && sections.blocks[f].offset == t.blocks[f].offset == t.index[f].offset
      ensures BlockAt(crc, file, sections.blocks[f], Encoded(t.blocks[f].entries))
    {
      hide KeyLess, BytesLess, KeyBytes, HandleBytes, BlockAt, IsBlock, Encoded, FilterOk, Grouped, Ascending, Precedes;
      assert StoredAt(crc, file, t.blocks[f], sections.blocks[f]);
    }

    /** Table::BlockReader, without a block cache: the contents of the block a handle
        is for. */
    method ReadDataBlock(value: seq<Byte>, ghost h: BlockHandle, ghost entries: seq<KeyValue>)
      returns (ok: bool, contents: seq<Byte>)
      ensures HandleOk(h) && value == HandleBytes(h) && BlockAt(crc, file, h, entries) ==> ok && IsBlock(contents, entries)
    {
      hide HandleBytes, RawBlockAt, IsBlock, HandleOk;
      ghost var good := HandleOk(h) && value == HandleBytes(h) && BlockAt(crc, file, h, entries);
      ghost var c := [];
      if good { c :| RawBlockAt(crc, file, h, c) && IsBlock(c, entries); }
      assert value[0..|value|] == value;
      var handle, q;
      contents := [];
      ok, handle, q := DecodeHandle(value, 0, h);
      if ok {
        ok, contents := ReadBlock(crc, file, verifyChecksums, handle, c);
      }
    }

    /** A key the filter turns away is not in the block. */
    lemma {:induction false} TurnedAway(k: TableKey, f: nat)
      requires Good() && filter != null && f < |t.index|
      requires var g := sections.blocks[f].offset / FILTER_BASE; !(g < |filter.groups| && k.user in filter.groups[g])
      ensures forall x :: x in t.blocks[f].entries ==> x.key.user != k.user
    {
      hide IsBlock;
      assert sections.blocks[f].offset == t.blocks[f].offset by { IndexEntryAt(f); }
      FilteredOut(t, f, k, filter.groups);
    }

    /** InternalGet: what the handler is called with, and the status. */
    method InternalGet(k: TableKey) returns (ok: bool, r: Option<Pair>)
      requires Valid()
      ensures Good() ==> ok
      ensures Good() && r.Some? ==> InTable(t, r.value) && !KeyLess(r.value.key, k) &&
                                    forall e :: InTable(t, e) && !KeyLess(e.key, k) ==> !KeyLess(e.key, r.value.key)
      ensures Good() && r.None? ==> forall e :: InTable(t, e) && !KeyLess(e.key, k) ==> e.key.user != k.user
    {
      hide KeyLess, BytesLess, KeyBytes, ParseKey, HandleBytes, IsBlock, BlockAt, InFile, Grouped, BlocksOk, IndexOk, FilterOk,
        BlockReader.IsFirst, BlockReader.Transitive, BlockReader.AscendingKeys, FilterBlockReader.Good;
      r := None;
      ghost var pairs := if Good() then IndexPairs(t.index, sections.blocks) else [];
      if Good() {
        ByteOrderTransitive();
        IndexPairsAscend(t, sections.blocks);
      }
      var found, e;
      ok, found, e := SeekInBlock(indexBlock, ByteOrder, KeyBytes(k), pairs);
      ghost var f := IndexSeek(t.index, k);
      if Good() { IndexFound(t.index, sections.blocks, k); }
      if found {
        ok, r := GetFrom(k, e.value, f);
      }
      if Good() { GetIsRight(hash, t, k, f, r); }
    }

    /** The block an index entry names, unless the filter turns the key away. */
    method GetFrom(k: TableKey, value: seq<Byte>, ghost f: nat) returns (ok: bool, r: Option<Pair>)
      requires Valid()
      ensures Good() && f < |t.index| && value == HandleBytes(sections.blocks[f]) ==>
        && ok && f < |t.blocks| && var es := t.blocks[f].entries; var p := BlockSeek(es, k);
        if r.Some? then p < |es| && r.value == es[p]
        else p == |es| || forall x :: x in es ==> x.key.user != k.user
    {
      hide KeyLess, BytesLess, KeyBytes, ParseKey, HandleBytes, IsBlock, BlockAt, Encoded, HandleOk, TableOk, InFile, Grouped,
        BlockReader.IsFirst, BlockReader.Transitive, BlockReader.AscendingKeys, Ascending, FilterBlockReader.Good;
      ghost var good := Good() && f < |t.index| && value == HandleBytes(sections.blocks[f]);
      ghost var h, es := BlockHandle(0, 0), [];
      if good {
        IndexEntryAt(f);
        h, es := sections.blocks[f], t.blocks[f].entries;
        ByteOrderTransitive();
        EncodedAscend(es);
      }
      r := None;
      if filter != null {
        assert value[0..|value|] == value;
        var decoded, handle, _ := DecodeHandle(value, 0, h);
        if decoded {
          var may := filter.KeyMayMatch(handle.offset, k.user);
          if !may {
            if good { TurnedAway(k, f); }
            return true, None;
          }
        }
      }
      var contents;
      ok, contents := ReadDataBlock(value, h, Encoded(es));
      if !ok {
        return;
      }
      var found, e;
      ok, found, e := SeekInBlock(contents, ByteOrder, KeyBytes(k), Encoded(es));
      if good { EntryFound(es, k); }
      if found {
        if good { KeyRoundTrip(es[BlockSeek(es, k)].key); }
        r := Some(Pair(ParseKey(e.key), e.value));
      }
    }
  }

  // ----- opening -----

  /** The filter reader serves the table's blocks. */
  ghost predicate Serves(filter: FilterBlockReader?, t: TableFile) {
    (filter != null <==> t.filter.Some?) && (filter != null ==> filter.Good() && Grouped(t.blocks, filter.groups))
  }

  /** ReadFilter */
  method ReadFilter(crc: LogFormat.Checksum, hash: KeyHash, file: seq<Byte>, verify: bool, value: seq<Byte>,
                    ghost t: TableFile, ghost h: BlockHandle) returns (filter: FilterBlockReader?)
    ensures filter != null ==> filter.Valid()
    ensures TableOk(hash, t) && t.filter.Some? && HasFilter(crc, file, t.filter, h) && value == HandleBytes(h) ==> Serves(filter, t)
  {
    hide HandleBytes, RawBlockAt, HandleOk, BlocksOk, IndexOk, Grouped, HoldsFilters, FilterBlockReader.Good;
    ghost var good := TableOk(hash, t) && t.filter.Some? && HasFilter(crc, file, t.filter, h) && value == HandleBytes(h);
    ghost var groups := [];
    if good { groups :| HoldsFilters(hash, t.filter.value, groups) && Grouped(t.blocks, groups); }
    assert value[0..|value|] == value;
    var ok, handle, _ := DecodeHandle(value, 0, h);
    if !ok {
      return null;
    }
    var contents;
    ok, contents := ReadBlock(crc, file, verify, handle, if t.filter.Some? then t.filter.value else []);
    if !ok {
      return null;
    }
    filter := new FilterBlockReader(hash, contents, groups);
  }

  /** ReadMeta: the filter, if the metaindex block names one for the policy. */
  method ReadMeta(crc: LogFormat.Checksum, hash: KeyHash, file: seq<Byte>, verify: bool, meta: BlockHandle,
                  ghost t: TableFile, ghost s: Sections) returns (filter: FilterBlockReader?)
    ensures filter != null ==> filter.Valid()
    ensures TableOk(hash, t) && IsTableFile(crc, file, t, s) && meta == s.meta ==> Serves(filter, t)
  {
    hide HandleBytes, RawBlockAt, IsBlock, InFile, IndexPairs, FooterBytes, TableOk, BytesLess, Serves;
    ghost var good := IsTableFile(crc, file, t, s) && meta == s.meta;
    ghost var pairs, c := MetaPairs(t.filter.Some?, s.filter), [];
    if good { c :| RawBlockAt(crc, file, s.meta, c) && IsBlock(c, pairs); }
    filter := null;
    NoFilter(t);
    var ok, contents := ReadBlock(crc, file, verify, meta, c);
    if !ok {
      return;
    }
    BytesOrder(pairs);
    var found, e;
    ok, found, e := SeekInBlock(contents, BytesLess, FILTER_KEY, pairs);
    if good && t.filter.Some? {
      BytesAsymmetric(FILTER_KEY, FILTER_KEY);
      assert pairs[0].key == FILTER_KEY;
    }
    if found && e.key == FILTER_KEY {
      filter := ReadFilter(crc, hash, file, verify, e.value, t, s.filter);
    }
  }

  lemma {:induction false} NoFilter(t: TableFile)
    ensures t.filter.None? ==> Serves(null, t)
  {
  }

  lemma {:induction false} BytesOrder(pairs: seq<KeyValue>)
    requires |pairs| <= 1
    ensures BlockReader.Transitive(BytesLess) && BlockReader.AscendingKeys(BytesLess, pairs)
  {
    forall a, b, c | BytesLess(a, b) && BytesLess(b, c) ensures BytesLess(a, c) {
      BytesTransitive(a, b, c);
    }
  }

  lemma {:induction false} OneHandleEach(crc: LogFormat.Checksum, file: seq<Byte>, t: TableFile, s: Sections)
    requires IsTableFile(crc, file, t, s)
    ensures |t.index| == |t.blocks| == |s.blocks|
  {
    hide BlockAt, RawBlockAt, StoredAt;
  }

  /** Table::Open: null where it returns an error. */
  method Open(crc: LogFormat.Checksum, hash: KeyHash, hasPolicy: bool, paranoid: bool, verify: bool, file: seq<Byte>,
              ghost t: TableFile, ghost s: Sections) returns (table: OpenTable?)
    ensures table != null ==> table.Valid() && table.t == t
    ensures TableOk(hash, t) && IsTableFile(crc, file, t, s) ==>
              table != null && table.Good() && (table.filter != null <==> hasPolicy && t.filter.Some?)
  {
    hide HandleBytes, RawBlockAt, IsBlock, InFile, IndexPairs, FooterBytes, TableOk, MetaPairs;
    ghost var good := TableOk(hash, t) && IsTableFile(crc, file, t, s);
    ghost var c := [];
    if good {
      OneHandleEach(crc, file, t, s);
      c :| RawBlockAt(crc, file, s.index, c) && IsBlock(c, IndexPairs(t.index, s.blocks));
    }
    if |file| < FOOTER_LENGTH {
      return null;
    }
    var ok, meta, index := DecodeFooter(file[|file| - FOOTER_LENGTH..], s.meta, s.index);
    if !ok {
      return null;
    }
    var contents;
    ok, contents := ReadBlock(crc, file, paranoid, index, c);
    if !ok {
      return null;
    }
    var filter: FilterBlockReader? := null;
    if hasPolicy {
      filter := ReadMeta(crc, hash, file, paranoid, meta, t, s);
    }
    table := new OpenTable(crc, hash, file, verify, contents, filter, t, s);
  }

  // ----- building and reading back -----

  /** Far from 4 GiB, with all that goes with the pairs. */
  predicate IsSmall(run: seq<Pair>, bitsPerKey: Option<nat>) {
    PairsCost(run) + 8 < UINT32 && (bitsPerKey.Some? ==> |run| * KeyCost(bitsPerKey.value) < UINT32)
  }

  /** The first pair at or after `k`; none at all only if none of those has k's user key. */
  ghost predicate IsFirstFrom(run: seq<Pair>, k: TableKey, r: Option<Pair>) {
    match r
    case Some(p) => p in run && !KeyLess(p.key, k) && forall e :: e in run && !KeyLess(e.key, k) ==> !KeyLess(e.key, p.key)
    case None => forall e :: e in run && !KeyLess(e.key, k) ==> e.key.user != k.user
  }

  /** A run in key order that is built into a table file, and the file opened and asked
      for a key: the first entry at or after it, whenever that entry has the key's user
      key. It holds of every table none of whose blocks, nor its filters, reach 4 GiB,
      so of every run whose size, as counted here, stays below that. */
  method BuildAndGet(run: seq<Pair>, k: TableKey, crc: LogFormat.Checksum, hash: KeyHash, blockSize: nat, restartInterval: nat,
                     bitsPerKey: Option<nat>, probes: nat, hasPolicy: bool, paranoid: bool, verify: bool)
    returns (ghost fits: bool, ok: bool, r: Option<Pair>)
    requires Ascending(run) && 1 <= probes <= 30 && restartInterval >= 1
    ensures IsSmall(run, bitsPerKey) ==> fits
    ensures IsSmall(run, bitsPerKey) ==> ok && IsFirstFrom(run, k, r)
    ensures fits ==> ok && IsFirstFrom(run, k, r)
  {
    hide KeyLess, BytesLess, TableOk, IsTableFile, TableBuilder.Placed, TableBuilder.Filtered, TableBuilder.IndexWritten,
      TableBuilder.DataWritten, KeyCost, FilterBlockBuilder.Cost, PairsCost, OpenTable.Good, AllEntries;
    var builder := new TableBuilder(crc, hash, blockSize, restartInterval, bitsPerKey, probes);
    for i := 0 to |run|
      invariant builder.Valid() && builder.entries == run[..i]
      invariant fresh(builder) && fresh(builder.dataBlock) && fresh(builder.indexBlock) && (builder.filterBlock != null ==> fresh(builder.filterBlock))
      invariant bitsPerKey.Some? ==> builder.FilterCost() <= i * KeyCost(bitsPerKey.value)
    {
      if i > 0 { assert KeyLess(run[i - 1].key, run[i].key); }
      builder.LastAdded();
      builder.Add(run[i].key, run[i].value);
      if bitsPerKey.Some? { MoreKeys(i, KeyCost(bitsPerKey.value)); }
      assert run[..i + 1] == run[..i] + [run[i]];
    }
    assert run[..|run|] == run;
    ghost var t, s := builder.Finish();
    fits := builder.fits;
    var table := Open(crc, hash, hasPolicy, paranoid, verify, builder.file, t, s);
    ok, r := table != null, None;
    if table != null {
      ok, r := table.InternalGet(k);
      forall e ensures InTable(t, e) <==> e in run { EntriesOf(t, e); }
    }
  }
}
