/** The bytes of a table file: keys, block handles, the footer, and blocks with their
    trailers (table/format.h, table/format.cc, db/dbformat.h). */
module TableFormat {
  import opened InternalKeys
  import opened Coding
  import opened Comparators
  import opened BlockFormat
  import opened Table
  import LogFormat
  import WriteBatch

  // ----- keys -----

  /** AppendInternalKey */
  function KeyBytes(k: TableKey): seq<Byte> {
    k.user + WriteBatch.EncodeFixed64(k.number)
  }

  /** ExtractUserKey, and the number behind it. */
  function ParseKey(s: seq<Byte>): TableKey {
    if |s| < 8 then TableKey([], 0)
    else
      Number64(s[|s| - 8..]);
      TableKey(s[..|s| - 8], WriteBatch.DecodeFixed64(s[|s| - 8..]))
  }

  lemma {:induction false} Number64(s: seq<Byte>)
    requires |s| >= 8
    ensures WriteBatch.DecodeFixed64(s) < UINT64
  {
    hide DecodeFixed32;
  }

  lemma {:induction false} KeyRoundTrip(k: TableKey)
    ensures ParseKey(KeyBytes(k)) == k
  {
    hide WriteBatch.EncodeFixed64, WriteBatch.DecodeFixed64;
    var b := WriteBatch.EncodeFixed64(k.number);
    var s := KeyBytes(k);
    assert s[..|s| - 8] == k.user && s[|s| - 8..] == b + [];
    WriteBatch.Fixed64RoundTrip(k.number, []);
  }

  /** InternalKeyComparator on the bytes. */
  predicate ByteOrder(a: seq<Byte>, b: seq<Byte>) { KeyLess(ParseKey(a), ParseKey(b)) }

  /** The pairs of a block as its builder gets them. */
  function Encoded(es: seq<Pair>): (r: seq<KeyValue>)
    ensures |r| == |es| && forall i :: 0 <= i < |es| ==> r[i] == KeyValue(KeyBytes(es[i].key), es[i].value)
  {
    seq(|es|, i requires 0 <= i < |es| => KeyValue(KeyBytes(es[i].key), es[i].value))
  }

  // ----- block handles -----

  datatype BlockHandle = BlockHandle(offset: nat, size: nat)

  predicate HandleOk(h: BlockHandle) { h.offset < UINT64 && h.size < UINT64 }

  /** BlockHandle::EncodeTo */
  function HandleBytes(h: BlockHandle): seq<Byte> { Varint(h.offset) + Varint(h.size) }

  /** BlockHandle::DecodeFrom */
  method DecodeHandle(input: seq<Byte>, p: nat, ghost h: BlockHandle) returns (ok: bool, handle: BlockHandle, q: nat)
    requires p <= |input|
    ensures ok ==> p < q <= |input| && HandleOk(handle)
    ensures HandleOk(h) && Stands(input, p, HandleBytes(h)) ==> ok && handle == h && q == p + |HandleBytes(h)|
  {
    hide Varint, VarintAt;
    if Stands(input, p, HandleBytes(h)) { HandleParts(input, p, h); }
    var offset, size;
    handle := BlockHandle(0, 0);
    ok, offset, q := GetVarint64Ptr(input, p, |input|, h.offset);
    if ok {
      ok, size, q := GetVarint64Ptr(input, q, |input|, h.size);
      handle := BlockHandle(offset, size);
    }
  }

  lemma {:induction false} HandleParts(input: seq<Byte>, p: nat, h: BlockHandle)
    requires Stands(input, p, HandleBytes(h))
    ensures VarintAt(input, p, |input|, h.offset) && VarintAt(input, p + |Varint(h.offset)|, |input|, h.size)
  {
    hide Varint;
    var a, b := Varint(h.offset), Varint(h.size);
    assert input[p..p + |a|] == input[p..p + |a + b|][..|a|] == a;
    assert input[p + |a|..p + |a| + |b|] == input[p..p + |a + b|][|a|..] == b;
  }

  /** A handle takes 20 bytes at most. */
  lemma {:induction false} HandleIsShort(h: BlockHandle)
    requires HandleOk(h)
    ensures |HandleBytes(h)| <= 20
  {
    hide Varint;
    VarintLength(h.offset, 10);
    VarintLength(h.size, 10);
    assert Scale(10) >= UINT64 by {
      assert Scale(1) == 128 && Scale(2) == 16384 && Scale(3) == 2097152 && Scale(4) == 268435456;
      assert Scale(5) == 0x8_0000_0000 && Scale(6) == 0x400_0000_0000 && Scale(7) == 0x2_0000_0000_0000;
      assert Scale(8) == 0x100_0000_0000_0000 && Scale(9) == 0x8000_0000_0000_0000;
    }
  }

  lemma {:induction false} VarintLength(v: nat, n: nat)
    requires n >= 1
    ensures v < Scale(n) ==> |Varint(v)| <= n
  {
    if v >= 128 && n > 1 { VarintLength(v / 128, n - 1); }
  }

  // ----- the footer -----

  const FOOTER_LENGTH: nat := 48
  const MAGIC_LOW: Word := 0x8b80fb57
  const MAGIC_HIGH: Word := 0xdb477524

  /** Footer::EncodeTo: two handles, padded, and the magic number. */
  function FooterBytes(meta: BlockHandle, index: BlockHandle): (r: seq<Byte>)
    ensures |r| == FOOTER_LENGTH
  {
    Resized(HandleBytes(meta) + HandleBytes(index), 40) + EncodeFixed32(MAGIC_LOW) + EncodeFixed32(MAGIC_HIGH)
  }

  /** std::string::resize */
  function Resized(s: seq<Byte>, n: nat): (r: seq<Byte>)
    ensures |r| == n && (|s| <= n ==> s <= r)
  {
    if |s| < n then s + seq(n - |s|, _ => 0) else s[..n]
  }

  /** Footer::DecodeFrom */
  method DecodeFooter(input: seq<Byte>, ghost m: BlockHandle, ghost i: BlockHandle)
    returns (ok: bool, meta: BlockHandle, index: BlockHandle)
    requires |input| == FOOTER_LENGTH
    ensures ok ==> DecodeFixed32(input[40..]) == MAGIC_LOW && DecodeFixed32(input[44..]) == MAGIC_HIGH
    ensures ok ==> HandleOk(meta) && HandleOk(index)
    ensures HandleOk(m) && HandleOk(i) && input == FooterBytes(m, i) ==> ok && meta == m && index == i
  {
    hide HandleBytes, EncodeFixed32, DecodeFixed32;
    if HandleOk(m) && HandleOk(i) && input == FooterBytes(m, i) { FooterParts(input, m, i); }
    meta, index := BlockHandle(0, 0), BlockHandle(0, 0);
    if DecodeFixed32(input[40..]) != MAGIC_LOW || DecodeFixed32(input[44..]) != MAGIC_HIGH {
      return false, meta, index;
    }
    var q;
    ok, meta, q := DecodeHandle(input, 0, m);
    if ok {
      ok, index, q := DecodeHandle(input, q, i);
    }
  }

  lemma {:induction false} FooterParts(input: seq<Byte>, m: BlockHandle, i: BlockHandle)
    requires HandleOk(m) && HandleOk(i) && input == FooterBytes(m, i)
    ensures Stands(input, 0, HandleBytes(m)) && Stands(input, |HandleBytes(m)|, HandleBytes(i))
    ensures |input| == FOOTER_LENGTH && DecodeFixed32(input[40..]) == MAGIC_LOW && DecodeFixed32(input[44..]) == MAGIC_HIGH
  {
    hide HandleBytes, EncodeFixed32, DecodeFixed32;
    HandleIsShort(m);
    HandleIsShort(i);
    var low, high := EncodeFixed32(MAGIC_LOW), EncodeFixed32(MAGIC_HIGH);
    assert input[40..] == low + high && input[44..] == high + [];
    Fixed32RoundTrip(MAGIC_LOW, high);
    Fixed32RoundTrip(MAGIC_HIGH, []);
  }

  // ----- blocks in the file -----

  /** kBlockTrailerSize */
  const BLOCK_TRAILER_SIZE: nat := 5
  const NO_COMPRESSION: Byte := 0

  /** WriteRawBlock: the contents, their type, and a checksum of both. */
  function RawBlock(crc: LogFormat.Checksum, contents: seq<Byte>): (r: seq<Byte>)
    ensures |r| == |contents| + BLOCK_TRAILER_SIZE
  {
    contents + [NO_COMPRESSION] + EncodeFixed32(LogFormat.Mask(crc(contents + [NO_COMPRESSION])))
  }

  predicate RawBlockAt(crc: LogFormat.Checksum, file: seq<Byte>, h: BlockHandle, contents: seq<Byte>) {
    h.size == |contents| && Stands(file, h.offset, RawBlock(crc, contents))
  }

  /** ReadBlock */
  method ReadBlock(crc: LogFormat.Checksum, file: seq<Byte>, verify: bool, h: BlockHandle, ghost c: seq<Byte>)
    returns (ok: bool, contents: seq<Byte>)
    ensures ok ==>
      && h.offset + h.size + BLOCK_TRAILER_SIZE <= |file| && file[h.offset + h.size] == NO_COMPRESSION
      && contents == file[h.offset..h.offset + h.size]
      && (verify ==> var end := h.offset + h.size + 1;
                     crc(file[h.offset..end]) == LogFormat.Unmask(DecodeFixed32(file[end..end + 4])))
    ensures RawBlockAt(crc, file, h, c) ==> ok && contents == c
  {
    hide EncodeFixed32, DecodeFixed32, LogFormat.Mask, LogFormat.Unmask;
    if h.offset + h.size + BLOCK_TRAILER_SIZE > |file| {
      return false, [];
    }
    var n := h.size;
    var data := file[h.offset..h.offset + n + BLOCK_TRAILER_SIZE];
    if RawBlockAt(crc, file, h, c) { BlockParts(crc, data, c); }
    ghost var end := h.offset + n + 1;
    assert data[..n + 1] == file[h.offset..end] && data[n + 1..] == file[end..end + 4];
    if verify {
      if crc(data[..n + 1]) != LogFormat.Unmask(DecodeFixed32(data[n + 1..])) {
        return false, [];
      }
    }
    if data[n] != NO_COMPRESSION {
      return false, [];
    }
    return true, data[..n];
  }

  lemma {:induction false} BlockParts(crc: LogFormat.Checksum, data: seq<Byte>, contents: seq<Byte>)
    requires data == RawBlock(crc, contents)
    ensures var n := |contents|;
            && data[..n] == contents && data[n] == NO_COMPRESSION
            && crc(data[..n + 1]) == LogFormat.Unmask(DecodeFixed32(data[n + 1..]))
  {
    hide EncodeFixed32, DecodeFixed32, LogFormat.Mask, LogFormat.Unmask;
    var n := |contents|;
    var sum := crc(contents + [NO_COMPRESSION]);
    assert data[..n + 1] == contents + [NO_COMPRESSION];
    assert data[n + 1..] == EncodeFixed32(LogFormat.Mask(sum)) + [];
    Fixed32RoundTrip(LogFormat.Mask(sum), []);
    LogFormat.UnmaskUndoesMask(sum);
  }

  /** A finished block of these pairs. */
  ghost predicate IsBlock(contents: seq<Byte>, entries: seq<KeyValue>) {
    exists restarts, L :: FinishedAs(contents, restarts, L) && L.entries == entries
  }

  ghost predicate BlockAt(crc: LogFormat.Checksum, file: seq<Byte>, h: BlockHandle, entries: seq<KeyValue>) {
    exists contents :: RawBlockAt(crc, file, h, contents) && IsBlock(contents, entries)
  }

  /** What is in the file stays when more is appended. */
  lemma {:induction false} RawBlockStays(crc: LogFormat.Checksum, file: seq<Byte>, more: seq<Byte>, h: BlockHandle,
      contents: seq<Byte>)
    requires RawBlockAt(crc, file, h, contents)
    ensures RawBlockAt(crc, file + more, h, contents)
  {
    hide RawBlock;
    var n := |RawBlock(crc, contents)|;
    assert (file + more)[h.offset..h.offset + n] == file[h.offset..h.offset + n];
  }

  lemma {:induction false} BlockStays(crc: LogFormat.Checksum, file: seq<Byte>, more: seq<Byte>, h: BlockHandle,
      entries: seq<KeyValue>)
    requires BlockAt(crc, file, h, entries)
    ensures BlockAt(crc, file + more, h, entries)
  {
    hide RawBlockAt, IsBlock;
    var contents :| RawBlockAt(crc, file, h, contents) && IsBlock(contents, entries);
    RawBlockStays(crc, file, more, h, contents);
  }

  lemma {:induction false} RawBlockAppended(crc: LogFormat.Checksum, file: seq<Byte>, contents: seq<Byte>)
    ensures RawBlockAt(crc, file + RawBlock(crc, contents), BlockHandle(|file|, |contents|), contents)
  {
    hide RawBlock;
  }

  // ----- the whole file -----

  /** The pairs of the index block: a key, and where its block is. */
  function IndexPairs(index: seq<IndexEntry>, handles: seq<BlockHandle>): (r: seq<KeyValue>)
    requires |index| <= |handles|
    ensures |r| == |index|
    ensures forall i :: 0 <= i < |index| ==> r[i] == KeyValue(KeyBytes(index[i].key), HandleBytes(handles[i]))
  {
    seq(|index|, i requires 0 <= i < |index| => KeyValue(KeyBytes(index[i].key), HandleBytes(handles[i])))
  }

  function Ascii(s: string): (r: seq<Byte>)
    ensures |r| == |s|
  {
    seq(|s|, i requires 0 <= i < |s| => s[i] as int % 256)
  }

  /** "filter." and the name of the bloom filter policy. */
  const FILTER_KEY: seq<Byte> := Ascii("filter.leveldb.BuiltinBloomFilter2")

  /** The pairs of the metaindex block. */
  function MetaPairs(filtered: bool, filter: BlockHandle): seq<KeyValue> {
    if filtered then [KeyValue(FILTER_KEY, HandleBytes(filter))] else []
  }

  ghost predicate StoredAt(crc: LogFormat.Checksum, file: seq<Byte>, block: DataBlock, h: BlockHandle) {
    HandleOk(h) && h.offset == block.offset && BlockAt(crc, file, h, Encoded(block.entries))
  }

  /** Every data block is in the file where its handle says. */
  ghost predicate InFile(crc: LogFormat.Checksum, file: seq<Byte>, blocks: seq<DataBlock>, handles: seq<BlockHandle>) {
    |handles| == |blocks| && forall b :: 0 <= b < |blocks| ==> StoredAt(crc, file, blocks[b], handles[b])
  }

  /** Where a table file has its parts. */
  datatype Sections = Sections(blocks: seq<BlockHandle>, filter: BlockHandle, meta: BlockHandle, index: BlockHandle)

  ghost predicate HasFilter(crc: LogFormat.Checksum, file: seq<Byte>, filter: Option<seq<Byte>>, h: BlockHandle) {
    HandleOk(h) && (filter.Some? ==> RawBlockAt(crc, file, h, filter.value))
  }

  ghost predicate HasBlock(crc: LogFormat.Checksum, file: seq<Byte>, h: BlockHandle, entries: seq<KeyValue>) {
    HandleOk(h) && BlockAt(crc, file, h, entries)
  }

  predicate EndsWith(file: seq<Byte>, end: seq<Byte>) {
    |end| <= |file| && file[|file| - |end|..] == end
  }

  /** The file of a table: data blocks, filter, metaindex, index and footer. */
  ghost predicate IsTableFile(crc: LogFormat.Checksum, file: seq<Byte>, t: TableFile, s: Sections) {
    && |t.index| == |t.blocks| && InFile(crc, file, t.blocks, s.blocks) && HasFilter(crc, file, t.filter, s.filter)
    && HasBlock(crc, file, s.meta, MetaPairs(t.filter.Some?, s.filter))
    && HasBlock(crc, file, s.index, IndexPairs(t.index, s.blocks))
    && EndsWith(file, FooterBytes(s.meta, s.index))
  }

  lemma {:induction false} InFileStays(crc: LogFormat.Checksum, file: seq<Byte>, more: seq<Byte>, blocks: seq<DataBlock>,
      handles: seq<BlockHandle>)
    requires InFile(crc, file, blocks, handles)
    ensures InFile(crc, file + more, blocks, handles)
  {
    hide BlockAt;
    forall b | 0 <= b < |blocks| ensures StoredAt(crc, file + more, blocks[b], handles[b]) {
      BlockStays(crc, file, more, handles[b], Encoded(blocks[b].entries));
    }
  }

  /** One more block, behind the others. */
  lemma {:induction false} InFileMore(crc: LogFormat.Checksum, file: seq<Byte>, blocks: seq<DataBlock>,
      handles: seq<BlockHandle>, contents: seq<Byte>, data: seq<Pair>)
    requires InFile(crc, file, blocks, handles) && IsBlock(contents, Encoded(data))
    requires |file| < UINT64 && |contents| < UINT64
    ensures InFile(crc, file + RawBlock(crc, contents), blocks + [DataBlock(|file|, data)],
                   handles + [BlockHandle(|file|, |contents|)])
  {
    hide BlockAt, IsBlock, RawBlock;
    InFileStays(crc, file, RawBlock(crc, contents), blocks, handles);
    BlockAppended(crc, file, contents, Encoded(data));
  }

  lemma {:induction false} BlockAppended(crc: LogFormat.Checksum, file: seq<Byte>, contents: seq<Byte>, entries: seq<KeyValue>)
    requires IsBlock(contents, entries)
    ensures BlockAt(crc, file + RawBlock(crc, contents), BlockHandle(|file|, |contents|), entries)
  {
    hide RawBlock, IsBlock, RawBlockAt;
    RawBlockAppended(crc, file, contents);
  }

  /** A file of data blocks, with a filter block behind them if there is one. */
  function WithFilter(crc: LogFormat.Checksum, file: seq<Byte>, filter: Option<seq<Byte>>): seq<Byte> {
    if filter.Some? then file + RawBlock(crc, filter.value) else file
  }

  function FilterHandle(file: seq<Byte>, filter: Option<seq<Byte>>): BlockHandle {
    if filter.Some? then BlockHandle(|file|, |filter.value|) else BlockHandle(0, 0)
  }

  /** With metaindex and index behind them, and the footer: a table. */
  lemma {:induction false} WholeFile(crc: LogFormat.Checksum, file: seq<Byte>, t: TableFile, s: Sections,
      meta: seq<Byte>, index: seq<Byte>, file': seq<Byte>)
    requires |t.index| == |t.blocks| == |s.blocks| && InFile(crc, file, t.blocks, s.blocks)
    requires var before := WithFilter(crc, file, t.filter); var withMeta := before + RawBlock(crc, meta);
             && s.filter == FilterHandle(file, t.filter)
             && s.meta == BlockHandle(|before|, |meta|) && s.index == BlockHandle(|withMeta|, |index|)
             && file' == withMeta + RawBlock(crc, index) && |file'| < UINT64
    requires IsBlock(meta, MetaPairs(t.filter.Some?, s.filter)) && IsBlock(index, IndexPairs(t.index, s.blocks))
    ensures HandleOk(s.meta) && HandleOk(s.index)
    ensures IsTableFile(crc, file' + FooterBytes(s.meta, s.index), t, s)
  {
    hide InFile, RawBlock, BlockAt, IsBlock, IndexPairs, MetaPairs, FooterBytes;
    var before := WithFilter(crc, file, t.filter);
    var withMeta := before + RawBlock(crc, meta);
    var end := FooterBytes(s.meta, s.index);
    var afterMeta := RawBlock(crc, index) + end;
    assert withMeta + afterMeta == file' + end;
    BlockAppended(crc, before, meta, MetaPairs(t.filter.Some?, s.filter));
    BlockStays(crc, withMeta, afterMeta, s.meta, MetaPairs(t.filter.Some?, s.filter));
    BlockAppended(crc, withMeta, index, IndexPairs(t.index, s.blocks));
    BlockStays(crc, file', end, s.index, IndexPairs(t.index, s.blocks));
    FilterStays(crc, file, t.filter, RawBlock(crc, meta) + afterMeta);
    assert before + (RawBlock(crc, meta) + afterMeta) == file' + end;
    var rest := (file' + end)[|file|..];
    assert file' + end == file + rest;
    InFileStays(crc, file, rest, t.blocks, s.blocks);
  }

  lemma {:induction false} FilterStays(crc: LogFormat.Checksum, file: seq<Byte>, filter: Option<seq<Byte>>, more: seq<Byte>)
    requires filter.Some? ==> |file| < UINT64 && |filter.value| < UINT64
    ensures HasFilter(crc, WithFilter(crc, file, filter) + more, filter, FilterHandle(file, filter))
  {
    hide RawBlock, RawBlockAt;
    if filter.Some? {
      RawBlockAppended(crc, file, filter.value);
      RawBlockStays(crc, WithFilter(crc, file, filter), more, FilterHandle(file, filter), filter.value);
    }
  }
}
