/** Filter blocks (table/filter_block.cc), with the bloom filter policy. */
module FilterBlock {
  import opened Coding
  import opened Bloom
  import BlockBuilder

  type FilterKey = seq<Byte>

  /** kFilterBaseLg, kFilterBase: one filter for each 2 KB of block offsets. */
  const FILTER_BASE_LG: Byte := 11
  const FILTER_BASE: nat := 2048

  function FilterAt(filters: seq<Byte>, words: seq<nat>, i: nat): seq<Byte> {
    if i + 1 < |words| && words[i] <= words[i + 1] <= |filters| then filters[words[i]..words[i + 1]] else []
  }

  /** The word array after the filters: where each starts, and where the last ends. */
  ghost predicate FiltersOk(hash: KeyHash, filters: seq<Byte>, words: seq<nat>, groups: seq<seq<FilterKey>>) {
    && |words| == |groups| + 1
    && (forall i, j :: 0 <= i <= j < |words| ==> words[i] <= words[j] <= |filters|)
    && (forall i, key :: 0 <= i < |groups| && key in groups[i] ==> Matches(hash, FilterAt(filters, words, i), key))
  }

  lemma {:induction false} FilterAdded(hash: KeyHash, filters: seq<Byte>, words: seq<nat>, groups: seq<seq<FilterKey>>,
                                       filter: seq<Byte>, keys: seq<FilterKey>)
    requires FiltersOk(hash, filters, words, groups) && words[|groups|] == |filters|
    requires forall key :: key in keys ==> Matches(hash, filter, key)
    ensures FiltersOk(hash, filters + filter, words + [|filters| + |filter|], groups + [keys])
  {
    hide Matches;
    var f, w, g := filters + filter, words + [|filters| + |filter|], groups + [keys];
    forall i, key | 0 <= i < |g| && key in g[i] ensures Matches(hash, FilterAt(f, w, i), key) {
      if i < |groups| {
        assert FilterAt(f, w, i) == FilterAt(filters, words, i);
      } else {
        assert FilterAt(f, w, i) == filter;
      }
    }
  }

  /** What a key can add to the filters: its bits and a share of the smallest filter. */
  function KeyCost(bitsPerKey: nat): nat { bitsPerKey / 8 + 10 }

  lemma {:induction false} Times(n: nat, q: nat, r: nat)
    requires r < 8
    ensures n * (8 * q + r) <= 8 * (n * q) + 7 * n && n * (q + 10) == n * q + 10 * n
  {
    assert n * (8 * q + r) == 8 * (n * q) + n * r;
    assert n * r <= n * 7;
  }

  lemma {:induction false} BytesFit(bits: nat, x: nat, n: nat)
    requires n > 0 && bits <= 8 * x + 7 * n
    ensures (if bits < 64 then 8 else (bits + 7) / 8) + 1 <= x + 10 * n
  {
    assert (bits + 7) / 8 <= x + n;
  }

  lemma {:induction false} FilterFits(n: nat, bitsPerKey: nat)
    requires n > 0
    ensures (if n * bitsPerKey < 64 then 8 else (n * bitsPerKey + 7) / 8) + 1 <= n * KeyCost(bitsPerKey)
  {
    var q, r := bitsPerKey / 8, bitsPerKey % 8;
    Times(n, q, r);
    assert bitsPerKey == 8 * q + r;
    BytesFit(n * bitsPerKey, n * q, n);
  }

  class FilterBlockBuilder {
    const hash: KeyHash
    const bitsPerKey: nat
    const k: nat
    /** keys_ and start_: the keys of the filter being collected. */
    var keys: seq<FilterKey>
    var result: seq<Byte>
    var filterOffsets: seq<nat>
    /** The keys of each finished filter. */
    ghost var groups: seq<seq<FilterKey>>

    ghost predicate Valid()
      reads this
    {
      && 1 <= k <= 30 && |filterOffsets| == |groups|
      && FiltersOk(hash, result, filterOffsets + [|result|], groups)
    }

    /** The filters so far, and the most that the collected keys can add. */
    ghost function Cost(): nat
      reads this
    {
      |result| + |keys| * KeyCost(bitsPerKey)
    }

    constructor (hash: KeyHash, bitsPerKey: nat, k: nat)
      requires 1 <= k <= 30
      ensures Valid() && groups == [] && keys == [] && this.hash == hash
      ensures this.bitsPerKey == bitsPerKey && Cost() == 0
    {
      this.hash, this.bitsPerKey, this.k := hash, bitsPerKey, k;
      keys, result, filterOffsets, groups := [], [], [], [];
    }

    /** StartBlock: keys added from here on belong to the block at this offset. */
    method StartBlock(blockOffset: nat)
      requires Valid() && |groups| <= blockOffset / FILTER_BASE
      modifies this
      ensures Valid() && |groups| == blockOffset / FILTER_BASE
      ensures groups == if |old(groups)| == blockOffset / FILTER_BASE then old(groups)
                        else old(groups) + [old(keys)] + seq(blockOffset / FILTER_BASE - |old(groups)| - 1, _ => [])
      ensures keys == if |old(groups)| == blockOffset / FILTER_BASE then old(keys) else []
      ensures Cost() <= old(Cost())
    {
      var filterIndex := blockOffset / FILTER_BASE;
      ghost var g, n := groups, |groups|;
      while filterIndex > |filterOffsets|
        invariant Valid() && n <= |groups| <= filterIndex && Cost() <= old(Cost())
        invariant |groups| == n ==> groups == g && keys == old(keys)
        invariant |groups| > n ==> keys == [] && groups == g + [old(keys)] + seq(|groups| - n - 1, _ => [])
      {
        GenerateFilter();
      }
    }

    method AddKey(key: FilterKey)
      requires Valid()
      modifies this`keys
      ensures Valid() && keys == old(keys) + [key] && Cost() == old(Cost()) + KeyCost(bitsPerKey)
    {
      MoreKeys(|keys|, KeyCost(bitsPerKey));
      keys := keys + [key];
    }

    /** GenerateFilter: an empty one when there are no keys. */
    method GenerateFilter()
      requires Valid()
      modifies this
      ensures Valid() && groups == old(groups) + [old(keys)] && keys == [] && Cost() <= old(Cost())
    {
      hide FiltersOk, Matches, KeyCost;
      ghost var words := filterOffsets + [|result|];
      var filter := [];
      if |keys| > 0 {
        filter := CreateFilter(hash, keys, bitsPerKey, k);
        FilterFits(|keys|, bitsPerKey);
      }
      FilterAdded(hash, result, words, groups, filter, keys);
      filterOffsets := filterOffsets + [|result|];
      result := result + filter;
      groups := groups + [keys];
      keys := [];
    }

    method Finish() returns (contents: seq<Byte>)
      requires Valid()
      modifies this
      ensures Valid() && groups == (if old(keys) == [] then old(groups) else old(groups) + [old(keys)])
      ensures |result| <= old(Cost()) && |contents| == |result| + 4 * |groups| + 5
      ensures |result| < 0x1_0000_0000 ==> HoldsFilters(hash, contents, groups)
    {
      hide FiltersOk, Matches;
      if |keys| > 0 {
        GenerateFilter();
      }
      var words := filterOffsets + [|result|];
      contents := result + BlockBuilder.RestartArray(words, |words|) + [FILTER_BASE_LG];
      assert contents[..|result|] == result;
      if |result| < 0x1_0000_0000 {
        WordsBelow(hash, result, words, groups);
        FinishedFilters(hash, result, words, groups, contents);
      }
    }
  }

  lemma {:induction false} MoreKeys(n: nat, cost: nat)
    ensures (n + 1) * cost == n * cost + cost
  {
  }

  lemma {:induction false} WordsBelow(hash: KeyHash, filters: seq<Byte>, words: seq<nat>, groups: seq<seq<FilterKey>>)
    requires FiltersOk(hash, filters, words, groups) && words[|groups|] == |filters| < 0x1_0000_0000
    ensures forall i :: 0 <= i < |words| ==> words[i] < 0x1_0000_0000
  {
    hide Matches;
  }

  /** A finished filter block of these groups of keys. */
  ghost predicate HoldsFilters(hash: KeyHash, contents: seq<Byte>, groups: seq<seq<FilterKey>>) {
    exists filters, words :: IsFilterBlock(hash, contents, groups, filters, words)
  }

  ghost predicate IsFilterBlock(hash: KeyHash, contents: seq<Byte>, groups: seq<seq<FilterKey>>, filters: seq<Byte>, words: seq<nat>) {
    && FiltersOk(hash, filters, words, groups) && filters <= contents
    && |contents| == |filters| + 4 * |words| + 1 && contents[|contents| - 1] == FILTER_BASE_LG
    && words[|groups|] == |filters| < 0x1_0000_0000
    && forall i :: 0 <= i < |words| ==> DecodeFixed32(contents[|filters| + 4 * i..]) == words[i]
  }

  lemma {:induction false} FinishedFilters(hash: KeyHash, filters: seq<Byte>, words: seq<nat>,
      groups: seq<seq<FilterKey>>, contents: seq<Byte>)
    requires FiltersOk(hash, filters, words, groups) && words[|groups|] == |filters| < 0x1_0000_0000
    requires forall i :: 0 <= i < |words| ==> words[i] < 0x1_0000_0000
    requires contents == filters + BlockBuilder.RestartArray(words, |words|) + [FILTER_BASE_LG]
    ensures HoldsFilters(hash, contents, groups)
  {
    hide FiltersOk, DecodeFixed32, EncodeFixed32;
    assert |words| > 0 by { HasWords(hash, filters, words, groups); }
    forall i | 0 <= i < |words| ensures |filters| + 4 * i <= |contents| - 5 && DecodeFixed32(contents[|filters| + 4 * i..]) == words[i] {
      BlockBuilder.RestartAt(words, |words|, filters, [FILTER_BASE_LG], i);
    }
    assert filters <= contents;
    assert IsFilterBlock(hash, contents, groups, filters, words);
  }

  lemma {:induction false} HasWords(hash: KeyHash, filters: seq<Byte>, words: seq<nat>, groups: seq<seq<FilterKey>>)
    requires FiltersOk(hash, filters, words, groups)
    ensures |words| == |groups| + 1
  {
  }

  // ----- reading -----

  class FilterBlockReader {
    const hash: KeyHash
    const contents: seq<Byte>
    /** Where the offset array starts, and how many filters there are. */
    const offset: nat
    const num: nat
    const baseLg: nat
    /** The keys of each filter, when the contents are a finished filter block. */
    ghost const groups: seq<seq<FilterKey>>
    ghost const filters: seq<Byte>
    ghost const words: seq<nat>

    predicate Valid() {
      num > 0 ==> offset + 4 * num + 5 <= |contents|
    }

    ghost predicate Good() {
      IsFilterBlock(hash, contents, groups, filters, words) && offset == |filters| && num == |groups| && baseLg == 11
    }

    constructor (hash: KeyHash, contents: seq<Byte>, ghost groups: seq<seq<FilterKey>>)
      ensures Valid() && this.hash == hash && this.contents == contents && this.groups == groups
      ensures HoldsFilters(hash, contents, groups) ==> Good()
    {
      hide FiltersOk;
      ghost var f, w := [], [];
      if HoldsFilters(hash, contents, groups) {
        f, w :| IsFilterBlock(hash, contents, groups, f, w);
        HasWords(hash, f, w, groups);
        assert DecodeFixed32(contents[|f| + 4 * |groups|..]) == w[|groups|];
      }
      this.hash, this.contents, this.groups, filters, words := hash, contents, groups, f, w;
      var n := |contents|;
      if n < 5 {
        offset, num, baseLg := 0, 0, 0;
      } else {
        var lastWord := DecodeFixed32(contents[n - 5..]);
        baseLg := contents[n - 1];
        if lastWord > n - 5 {
          offset, num := 0, 0;
        } else {
          offset, num := lastWord, (n - 5 - lastWord) / 4;
        }
      }
    }

    lemma {:induction false} FilterIsThere(index: nat, key: FilterKey)
      requires Good() && index < |groups| && key in groups[index]
      ensures baseLg == 11 && index < num && offset + 4 * num + 5 <= |contents|
      ensures var start := DecodeFixed32(contents[offset + index * 4..]);
              var limit := DecodeFixed32(contents[offset + index * 4 + 4..]);
              start <= limit <= offset <= |contents| && Matches(hash, contents[start..limit], key)
    {
      hide Matches, DecodeFixed32;
      assert offset + 4 * (index + 1) == offset + index * 4 + 4 && offset + 4 * index == offset + index * 4;
      assert contents[..|filters|][words[index]..words[index + 1]] == contents[words[index]..words[index + 1]];
      assert contents[..|filters|] == filters;
      assert Matches(hash, FilterAt(filters, words, index), key);
    }

    /** The two words around filter `index`. */
    function Start(index: nat): nat
      requires Valid() && index < num
    {
      DecodeFixed32(contents[offset + index * 4..])
    }

    function Limit(index: nat): nat
      requires Valid() && index < num
    {
      DecodeFixed32(contents[offset + index * 4 + 4..])
    }

    /** KeyMayMatch, whatever the contents: the filter answers if it lies before the
        words; a filter that does not, or is not there, matches, unless its two words
        are equal.  So no key of the block at that offset is ever turned away. */
    method KeyMayMatch(blockOffset: nat, key: FilterKey) returns (r: bool)
      requires Valid()
      ensures Good() && blockOffset / FILTER_BASE < |groups| && key in groups[blockOffset / FILTER_BASE] ==> r
      ensures var index := ShiftRight(blockOffset, baseLg);
              if index >= num then r
              else if Start(index) <= Limit(index) <= offset then r <==> Matches(hash, contents[Start(index)..Limit(index)], key)
              else r <==> Start(index) != Limit(index)
    {
      hide Matches, DecodeFixed32, Good, ShiftRight;
      var index := ShiftRight(blockOffset, baseLg);
      if Good() && blockOffset / FILTER_BASE < |groups| && key in groups[blockOffset / FILTER_BASE] {
        assert baseLg == 11 by { FilterIsThere(blockOffset / FILTER_BASE, key); }
        ShiftOfBase(blockOffset);
        FilterIsThere(blockOffset / FILTER_BASE, key);
      }
      if index < num {
        var start := DecodeFixed32(contents[offset + index * 4..]);
        var limit := DecodeFixed32(contents[offset + index * 4 + 4..]);
        if start <= limit && limit <= offset {
          r := Bloom.KeyMayMatch(hash, key, contents[start..limit]);
          return;
        } else if start == limit {
          return false;
        }
      }
      return true;
    }
  }

  /** v >> n */
  function ShiftRight(v: nat, n: nat): nat {
    if n == 0 then v else ShiftRight(v / 2, n - 1)
  }

  lemma {:induction false} ShiftOfBase(v: nat)
    ensures ShiftRight(v, 11) == v / FILTER_BASE
  {
    var a := v / 2 / 2 / 2 / 2;
    assert a == v / 16 && ShiftRight(v, 11) == ShiftRight(a, 7) by { assert ShiftRight(v / 2 / 2, 9) == ShiftRight(a, 7); }
    var b := a / 2 / 2 / 2 / 2;
    assert b == v / 256 && ShiftRight(a, 7) == ShiftRight(b, 3) by { assert ShiftRight(a / 2 / 2, 5) == ShiftRight(b, 3); }
    assert ShiftRight(b, 3) == b / 2 / 2 / 2 by { assert ShiftRight(b / 2 / 2, 1) == b / 2 / 2 / 2; }
  }
}
