/** What a table holds: sorted blocks, an index and filters, and why searching the
    index and then one block finds a key (table/table.cc). TableFormat says how it is
    laid out in bytes, TableBuilder writes them and TableReader reads them. */
module Table {
  import opened InternalKeys
  import opened Coding
  import opened Comparators
  import opened Bloom
  import opened FilterBlock

  datatype Pair = Pair(key: TableKey, value: seq<Byte>)

  datatype DataBlock = DataBlock(offset: nat, entries: seq<Pair>)

  /** An index entry: a key at or after the block's last, and its block handle. */
  datatype IndexEntry = IndexEntry(key: TableKey, offset: nat)

  datatype TableFile = TableFile(blocks: seq<DataBlock>, index: seq<IndexEntry>, filter: Option<seq<Byte>>)

  ghost predicate Ascending(es: seq<Pair>) {
    forall i, j :: 0 <= i < j < |es| ==> KeyLess(es[i].key, es[j].key)
  }

  function LastKey(b: DataBlock): TableKey
    requires |b.entries| > 0
  {
    b.entries[|b.entries| - 1].key
  }

  ghost predicate Precedes(b: DataBlock, c: DataBlock) {
    |b.entries| > 0 && |c.entries| > 0 && b.offset < c.offset && KeyLess(LastKey(b), c.entries[0].key)
  }

  /** Non-empty sorted blocks in key order, at ascending offsets. */
  ghost predicate BlocksOk(blocks: seq<DataBlock>) {
    && (forall b :: 0 <= b < |blocks| ==> |blocks[b].entries| > 0 && Ascending(blocks[b].entries))
    && (forall b, c :: 0 <= b < c < |blocks| ==> Precedes(blocks[b], blocks[c]))
  }

  /** Index entry `b` separates block `b` from the next. */
  ghost predicate IndexOk(blocks: seq<DataBlock>, index: seq<IndexEntry>)
    requires BlocksOk(blocks)
  {
    && |index| <= |blocks|
    && (forall b :: 0 <= b < |index| ==> index[b].offset == blocks[b].offset)
    && (forall b :: 0 <= b < |index| && b + 1 < |blocks| ==> Separates(LastKey(blocks[b]), blocks[b + 1].entries[0].key, index[b].key))
    && (forall b :: 0 <= b < |index| && b + 1 == |blocks| ==> Succeeds(LastKey(blocks[b]), index[b].key))
  }

  /** Every user key of a block is in the filter for the block's offset. */
  ghost predicate FilterOk(hash: KeyHash, blocks: seq<DataBlock>, contents: seq<Byte>) {
    exists groups :: HoldsFilters(hash, contents, groups) && Grouped(blocks, groups)
  }

  ghost predicate Grouped(blocks: seq<DataBlock>, groups: seq<seq<FilterKey>>) {
    forall b, i :: 0 <= b < |blocks| && 0 <= i < |blocks[b].entries| ==>
      var g := blocks[b].offset / FILTER_BASE; g < |groups| && blocks[b].entries[i].key.user in groups[g]
  }

  ghost predicate TableOk(hash: KeyHash, t: TableFile) {
    && BlocksOk(t.blocks) && |t.index| == |t.blocks| && IndexOk(t.blocks, t.index)
    && (t.filter.Some? ==> FilterOk(hash, t.blocks, t.filter.value))
  }

  ghost predicate InTable(t: TableFile, e: Pair) {
    exists b :: 0 <= b < |t.blocks| && e in t.blocks[b].entries
  }

  // ----- lookup -----

  function IndexSeek(index: seq<IndexEntry>, k: TableKey): (r: nat)
    ensures r <= |index| && (forall i :: 0 <= i < r ==> KeyLess(index[i].key, k))
    ensures (r < |index| ==> !KeyLess(index[r].key, k))
  {
    if |index| == 0 || !KeyLess(index[0].key, k) then 0
    else
      var r := IndexSeek(index[1..], k);
      assert forall i :: 0 < i < r + 1 ==> index[i] == index[1..][i - 1];
      r + 1
  }

  function BlockSeek(es: seq<Pair>, k: TableKey): (r: nat)
    ensures r <= |es| && (forall i :: 0 <= i < r ==> KeyLess(es[i].key, k)) && (r < |es| ==> !KeyLess(es[r].key, k))
  {
    if |es| == 0 || !KeyLess(es[0].key, k) then 0
    else
      var r := BlockSeek(es[1..], k);
      assert forall i :: 0 < i < r + 1 ==> es[i] == es[1..][i - 1];
      r + 1
  }

  /** An entry is not after its block's last key. */
  lemma {:induction false} NotAfterLast(blocks: seq<DataBlock>, b: nat, e: Pair)
    requires BlocksOk(blocks) && b < |blocks| && e in blocks[b].entries
    ensures e.key == LastKey(blocks[b]) || KeyLess(e.key, LastKey(blocks[b]))
  {
    hide KeyLess;
    var i :| 0 <= i < |blocks[b].entries| && blocks[b].entries[i] == e;
  }

  /** ... and not before its first. */
  lemma {:induction false} NotBeforeFirst(blocks: seq<DataBlock>, b: nat, e: Pair)
    requires BlocksOk(blocks) && b < |blocks| && e in blocks[b].entries
    ensures e.key == blocks[b].entries[0].key || KeyLess(blocks[b].entries[0].key, e.key)
  {
    hide KeyLess;
    var i :| 0 <= i < |blocks[b].entries| && blocks[b].entries[i] == e;
  }

  /** Blocks whose index key is before `k` hold only smaller keys. */
  lemma {:induction false} BlocksBefore(t: TableFile, k: TableKey, b: nat, e: Pair)
    requires BlocksOk(t.blocks) && IndexOk(t.blocks, t.index) && b < |t.index| && e in t.blocks[b].entries
    requires KeyLess(t.index[b].key, k)
    ensures KeyLess(e.key, k)
  {
    NotAfterLast(t.blocks, b, e);
    var last := LastKey(t.blocks[b]);
    assert last == t.index[b].key || KeyLess(last, t.index[b].key) by { IndexAfterLast(t, b); }
    hide KeyLess, BlocksOk, IndexOk;
    if KeyLess(last, t.index[b].key) { KeyTransitive(last, t.index[b].key, k); }
    if KeyLess(e.key, last) { KeyTransitive(e.key, last, k); }
  }

  lemma {:induction false} IndexAfterLast(t: TableFile, b: nat)
    requires BlocksOk(t.blocks) && IndexOk(t.blocks, t.index) && b < |t.index|
    ensures LastKey(t.blocks[b]) == t.index[b].key || BytesLess(LastKey(t.blocks[b]).user, t.index[b].key.user)
    ensures b + 1 < |t.blocks| && LastKey(t.blocks[b]) != t.index[b].key ==>
      BytesLess(t.index[b].key.user, t.blocks[b + 1].entries[0].key.user)
  {
    hide BytesLess, KeyLess;
  }

  /** Blocks after the one the index names hold, of `k`'s user key, nothing at or
      after `k`, unless the named block does. */
  lemma {:induction false} BlocksAfter(t: TableFile, k: TableKey, b: nat, c: nat, e: Pair)
    requires BlocksOk(t.blocks) && IndexOk(t.blocks, t.index) && b < |t.index| && !KeyLess(t.index[b].key, k)
    requires KeyLess(LastKey(t.blocks[b]), k) && b < c < |t.blocks| && e in t.blocks[c].entries
    ensures e.key.user != k.user
  {
    var s, first := t.index[b].key, t.blocks[b + 1].entries[0].key;
    IndexAfterLast(t, b);
    KeyTotal(s, k);
    assert BytesLess(s.user, first.user);
    FirstsAscend(t.blocks, b + 1, c, e);
    hide BlocksOk, IndexOk;
    UserBetween(k, s, first, e.key);
  }

  lemma {:induction false} FirstsAscend(blocks: seq<DataBlock>, b: nat, c: nat, e: Pair)
    requires BlocksOk(blocks) && b <= c < |blocks| && e in blocks[c].entries
    ensures |blocks[b].entries| > 0 && (e.key == blocks[b].entries[0].key || KeyLess(blocks[b].entries[0].key, e.key))
  {
    NotBeforeFirst(blocks, c, e);
    if b < c {
      assert Precedes(blocks[b], blocks[c]);
      NotAfterLast(blocks, b, blocks[b].entries[0]);
      Chain4(blocks[b].entries[0].key, LastKey(blocks[b]), blocks[c].entries[0].key, e.key);
    }
  }

  lemma {:induction false} Chain4(a: TableKey, b: TableKey, c: TableKey, d: TableKey)
    requires (a == b || KeyLess(a, b)) && KeyLess(b, c) && (c == d || KeyLess(c, d))
    ensures KeyLess(a, d)
  {
    hide KeyLess;
    if KeyLess(a, b) { KeyTransitive(a, b, c); }
    if KeyLess(c, d) { KeyTransitive(a, c, d); }
  }

  lemma {:induction false} UserBetween(k: TableKey, s: TableKey, first: TableKey, e: TableKey)
    requires (k == s || KeyLess(k, s)) && BytesLess(s.user, first.user) && (e == first || KeyLess(first, e))
    ensures e.user != k.user
  {
    if k.user != s.user { BytesTransitive(k.user, s.user, first.user); }
    if e.user != first.user { BytesTransitive(k.user, first.user, e.user); }
    BytesAsymmetric(k.user, k.user);
  }

  lemma {:induction false} FilteredOut(t: TableFile, i: nat, k: TableKey, groups: seq<seq<FilterKey>>)
    requires BlocksOk(t.blocks) && i < |t.blocks| && Grouped(t.blocks, groups)
    requires var g := t.blocks[i].offset / FILTER_BASE; !(g < |groups| && k.user in groups[g])
    ensures forall e :: e in t.blocks[i].entries ==> e.key.user != k.user
  {
  }

  /** What a search of the index and of the block it names finds is the first entry at
      or after `k`; when it finds none, no such entry has k's user key. */
  lemma {:induction false} GetIsRight(hash: KeyHash, t: TableFile, k: TableKey, i: nat, r: Option<Pair>)
    requires TableOk(hash, t) && i == IndexSeek(t.index, k)
    requires r.Some? ==> i < |t.index| && var p := BlockSeek(t.blocks[i].entries, k); p < |t.blocks[i].entries| && r.value == t.blocks[i].entries[p]
    requires r.None? && i < |t.index| ==> BlockSeek(t.blocks[i].entries, k) == |t.blocks[i].entries| || forall e :: e in t.blocks[i].entries ==> e.key.user != k.user
    ensures r.Some? ==> forall e :: InTable(t, e) && !KeyLess(e.key, k) ==> !KeyLess(e.key, r.value.key)
    ensures r.None? ==> forall e :: InTable(t, e) && !KeyLess(e.key, k) ==> e.key.user != k.user
  {
    hide KeyLess, BytesLess, IndexOk, FilterOk;
    forall e | InTable(t, e) && !KeyLess(e.key, k)
      ensures if r.Some? then !KeyLess(e.key, r.value.key) else e.key.user != k.user
    {
      var c :| 0 <= c < |t.blocks| && e in t.blocks[c].entries;
      if c < i {
        BlocksBefore(t, k, c, e);
      } else if r.Some? {
        FoundIsFirst(t, k, i, c, e, r.value);
      } else if c > i {
        MissAfter(t, k, i, c, e);
      } else {
        var a :| 0 <= a < |t.blocks[i].entries| && t.blocks[i].entries[a] == e;
      }
    }
  }

  lemma {:induction false} FoundIsFirst(t: TableFile, k: TableKey, i: nat, c: nat, e: Pair, found: Pair)
    requires BlocksOk(t.blocks) && i <= c < |t.blocks| && e in t.blocks[c].entries
    requires var p := BlockSeek(t.blocks[i].entries, k); p < |t.blocks[i].entries| && found == t.blocks[i].entries[p]
    requires !KeyLess(e.key, k)
    ensures !KeyLess(e.key, found.key)
  {
    hide KeyLess, BytesLess;
    KeyTotal(e.key, found.key);
    if c == i {
      var a :| 0 <= a < |t.blocks[i].entries| && t.blocks[i].entries[a] == e;
      assert a >= BlockSeek(t.blocks[i].entries, k);
    } else {
      NotBeforeFirst(t.blocks, c, e);
      NotAfterLast(t.blocks, i, found);
      Chain4(found.key, LastKey(t.blocks[i]), t.blocks[c].entries[0].key, e.key);
    }
  }

  lemma {:induction false} MissAfter(t: TableFile, k: TableKey, i: nat, c: nat, e: Pair)
    requires BlocksOk(t.blocks) && IndexOk(t.blocks, t.index) && |t.index| == |t.blocks| && i == IndexSeek(t.index, k)
    requires i < c < |t.blocks| && e in t.blocks[c].entries && !KeyLess(e.key, k)
    requires BlockSeek(t.blocks[i].entries, k) == |t.blocks[i].entries| || forall x :: x in t.blocks[i].entries ==>
      x.key.user != k.user
    ensures e.key.user != k.user
  {
    var last := LastKey(t.blocks[i]);
    assert t.blocks[i].entries[|t.blocks[i].entries| - 1] in t.blocks[i].entries;
    KeyTotal(last, k);
    if KeyLess(last, k) {
      BlocksAfter(t, k, i, c, e);
    } else {
      // the named block ends at or after k, so its last user key is after k's
      NotBeforeFirst(t.blocks, c, e);
      Chain4(last, last, t.blocks[c].entries[0].key, e.key);
      BytesAsymmetric(k.user, last.user);
      if e.key.user != last.user { BytesTransitive(k.user, last.user, e.key.user); }
      BytesAsymmetric(k.user, k.user);
    }
  }
}
