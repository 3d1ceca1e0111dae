/** TwoLevelIterator (table/two_level_iterator.cc): an iterator over an index
    whose entries name blocks, as one cursor over the blocks' entries. */
module TwoLevelIterator {
  import opened InternalKeys
  import opened Comparators
  import opened Table

  /** All the blocks' entries, one after another. */
  function Concat(blocks: seq<seq<Pair>>): seq<Pair> {
    if |blocks| == 0 then [] else Concat(blocks[..|blocks| - 1]) + blocks[|blocks| - 1]
  }

  /** How many entries come before block `b`. */
  function Offset(blocks: seq<seq<Pair>>, b: nat): nat
    requires b <= |blocks|
  {
    |Concat(blocks[..b])|
  }

  lemma {:induction false} OffsetStep(blocks: seq<seq<Pair>>, b: nat)
    requires b < |blocks|
    ensures Offset(blocks, b + 1) == Offset(blocks, b) + |blocks[b]|
  {
    assert blocks[..b + 1][..b] == blocks[..b];
  }

  lemma {:induction false} OffsetEnds(blocks: seq<seq<Pair>>)
    ensures Offset(blocks, 0) == 0 && Offset(blocks, |blocks|) == |Concat(blocks)|
  {
    assert blocks[..|blocks|] == blocks;
  }

  /** Entry `p` of block `b` is at its offset. */
  lemma {:induction false} EntryAt(blocks: seq<seq<Pair>>, b: nat, p: nat)
    requires b < |blocks| && p < |blocks[b]|
    ensures Offset(blocks, b) + p < |Concat(blocks)| && Concat(blocks)[Offset(blocks, b) + p] == blocks[b][p]
    decreases |blocks|
  {
    var n := |blocks| - 1;
    if b < n {
      EntryAt(blocks[..n], b, p);
      assert blocks[..n][..b] == blocks[..b];
    } else {
      assert blocks[..b] == blocks[..n];
    }
  }

  lemma {:induction false} BlockOf(blocks: seq<seq<Pair>>, i: nat) returns (b: nat, p: nat)
    requires i < |Concat(blocks)|
    ensures b < |blocks| && p < |blocks[b]| && i == Offset(blocks, b) + p
    decreases |blocks|
  {
    var n := |blocks| - 1;
    if i < |Concat(blocks[..n])| {
      b, p := BlockOf(blocks[..n], i);
      assert blocks[..n][..b] == blocks[..b];
    } else {
      b, p := n, i - |Concat(blocks[..n])|;
    }
  }

  /** Index keys bound the blocks: block `b` lies after key `b - 1`, up to key `b`. */
  ghost predicate Bounded(keys: seq<TableKey>, blocks: seq<seq<Pair>>) {
    && |keys| == |blocks|
    && (forall b :: 0 <= b < |blocks| ==> Ascending(blocks[b]))
    && (forall b, e :: 0 <= b < |blocks| && e in blocks[b] ==> !KeyLess(keys[b], e.key))
    && (forall b, c, e :: 0 <= b < c < |blocks| && e in blocks[c] ==> KeyLess(keys[b], e.key))
  }

  function KeySeek(keys: seq<TableKey>, k: TableKey): (r: nat)
    ensures r <= |keys| && (forall i :: 0 <= i < r ==> KeyLess(keys[i], k)) && (r < |keys| ==> !KeyLess(keys[r], k))
  {
    if |keys| == 0 || !KeyLess(keys[0], k) then 0
    else
      var r := KeySeek(keys[1..], k);
      assert forall i :: 0 < i < r + 1 ==> keys[i] == keys[1..][i - 1];
      r + 1
  }

  /** Position `c` is the first whose key is not before the target. */
  ghost predicate FirstNotBefore(all: seq<Pair>, target: TableKey, c: nat) {
    && c <= |all| && (forall i :: 0 <= i < c ==> KeyLess(all[i].key, target))
    && (c < |all| ==> !KeyLess(all[c].key, target))
  }

  class Iterator {
    const keys: seq<TableKey>
    const blocks: seq<seq<Pair>>
    /** index_iter_; |blocks| when not valid. */
    var indexPos: nat
    /** data_iter_: the block it reads, and its place there; |block| when not valid. */
    var dataBlock: Option<nat>
    var dataPos: nat
    /** The cursor this iterator is. */
    ghost var at: nat

    predicate Shape()
      reads this
    {
      && |keys| == |blocks| && indexPos <= |blocks|
      && (dataBlock.Some? ==> dataBlock.value < |blocks| && dataPos <= |blocks[dataBlock.value]|)
    }

    /** data_iter_ stands on an entry. */
    predicate OnEntry()
      requires Shape()
      reads this
    {
      dataBlock.Some? && dataPos < |blocks[dataBlock.value]|
    }

    ghost predicate Valid()
      reads this
    {
      && Shape() && (dataBlock.Some? ==> OnEntry() && dataBlock.value == indexPos)
      && at == if dataBlock.Some? then Offset(blocks, indexPos) + dataPos else |Concat(blocks)|
    }

    constructor (keys: seq<TableKey>, blocks: seq<seq<Pair>>)
      requires |keys| == |blocks|
      ensures Valid() && at == |Concat(blocks)| && this.keys == keys && this.blocks == blocks
    {
      this.keys, this.blocks := keys, blocks;
      indexPos, dataBlock, dataPos, at := |blocks|, None, 0, |Concat(blocks)|;
    }

    method Current() returns (e: Pair)
      requires Valid() && at < |Concat(blocks)|
      ensures e == Concat(blocks)[at]
    {
      EntryAt(blocks, indexPos, dataPos);
      e := blocks[indexPos][dataPos];
    }

    /** InitDataBlock: the iterator on the same block is kept as it is. */
    method InitDataBlock()
      requires Shape()
      modifies this`dataBlock, this`dataPos
      ensures Shape() && dataBlock == if indexPos < |blocks| then Some(indexPos) else None
    {
      if indexPos >= |blocks| {
        dataBlock := None;
      } else if dataBlock == Some(indexPos) {
      } else {
        dataBlock, dataPos := Some(indexPos), 0;
      }
    }

    /** Everything before `c` has been passed: c is here or at the end of this
        (empty or exhausted) block. */
    ghost predicate ForwardFrom(c: nat)
      requires Shape()
      reads this
    {
      if dataBlock.Some? then dataBlock.value == indexPos && c == Offset(blocks, indexPos) + dataPos
      else indexPos == |blocks| && c == |Concat(blocks)|
    }

    method SkipEmptyDataBlocksForward(ghost c: nat)
      requires Shape() && ForwardFrom(c)
      modifies this
      ensures Valid() && at == c
    {
      OffsetEnds(blocks);
      hide Concat, Offset;
      while !OnEntry()
        invariant Shape() && ForwardFrom(c)
        decreases |blocks| - indexPos
      {
        if indexPos >= |blocks| {
          dataBlock := None;
          at := c;
          return;
        }
        OffsetStep(blocks, indexPos);
        indexPos := indexPos + 1;
        InitDataBlock();
        if dataBlock.Some? {
          dataPos := 0;
        }
      }
      at := c;
    }

    /** Everything from `c` on has been passed: the entry wanted is number c - 1. */
    ghost predicate BackwardFrom(c: nat)
      requires Shape()
      reads this
    {
      if dataBlock.Some?
      then dataBlock.value == indexPos && c == Offset(blocks, indexPos) + if OnEntry() then dataPos + 1 else 0
      else indexPos == |blocks| && c == 0
    }

    method SkipEmptyDataBlocksBackward(ghost c: nat)
      requires Shape() && BackwardFrom(c)
      modifies this
      ensures Valid() && at == if c == 0 then |Concat(blocks)| else c - 1
    {
      OffsetEnds(blocks);
      hide Concat, Offset;
      while !OnEntry()
        invariant Shape() && BackwardFrom(c)
        decreases if indexPos < |blocks| then indexPos + 1 else 0
      {
        if indexPos >= |blocks| {
          dataBlock := None;
          at := |Concat(blocks)|;
          return;
        }
        if indexPos == 0 {
          indexPos := |blocks|;
        } else {
          indexPos := indexPos - 1;
          OffsetStep(blocks, indexPos);
        }
        InitDataBlock();
        if dataBlock.Some? {
          dataPos := LastPos(blocks[indexPos]);
        }
      }
      at := c - 1;
    }

    /** SeekToLast on a block. */
    static function LastPos(block: seq<Pair>): nat {
      if |block| == 0 then 0 else |block| - 1
    }

    method SeekToFirst()
      requires Valid()
      modifies this
      ensures Valid() && at == 0
    {
      OffsetEnds(blocks);
      indexPos := 0;
      InitDataBlock();
      if dataBlock.Some? {
        dataPos := 0;
      }
      SkipEmptyDataBlocksForward(0);
    }

    method SeekToLast()
      requires Valid()
      modifies this
      ensures Valid() && at == if |Concat(blocks)| == 0 then 0 else |Concat(blocks)| - 1
    {
      OffsetEnds(blocks);
      hide Concat, Offset;
      if |blocks| == 0 {
        indexPos := |blocks|;
      } else {
        indexPos := |blocks| - 1;
        OffsetStep(blocks, indexPos);
      }
      InitDataBlock();
      if dataBlock.Some? {
        dataPos := LastPos(blocks[indexPos]);
      }
      SkipEmptyDataBlocksBackward(|Concat(blocks)|);
    }

    method Next()
      requires Valid() && at < |Concat(blocks)|
      modifies this
      ensures Valid() && at == old(at) + 1
    {
      hide Concat, Offset;
      ghost var c := at + 1;
      dataPos := dataPos + 1;
      SkipEmptyDataBlocksForward(c);
    }

    method Prev()
      requires Valid() && at < |Concat(blocks)|
      modifies this
      ensures Valid() && at == if old(at) == 0 then |Concat(blocks)| else old(at) - 1
    {
      hide Concat, Offset;
      ghost var c := at;
      dataPos := if dataPos == 0 then |blocks[indexPos]| else dataPos - 1;
      SkipEmptyDataBlocksBackward(c);
    }

    /** Seek: in the first block whose index key is not before the target. */
    method Seek(target: TableKey)
      requires Valid()
      modifies this
      ensures Valid()
      ensures Bounded(keys, blocks) ==> FirstNotBefore(Concat(blocks), target, at)
    {
      OffsetEnds(blocks);
      hide Concat, Offset, KeyLess, Bounded;
      indexPos := KeySeek(keys, target);
      InitDataBlock();
      ghost var c := |Concat(blocks)|;
      if dataBlock.Some? {
        dataPos := BlockSeek(blocks[indexPos], target);
        c := Offset(blocks, indexPos) + dataPos;
      }
      if Bounded(keys, blocks) { SoughtRight(keys, blocks, target, indexPos, if dataBlock.Some? then dataPos else 0); }
      SkipEmptyDataBlocksForward(c);
    }
  }

  lemma {:induction false} KeyForEach(keys: seq<TableKey>, blocks: seq<seq<Pair>>)
    requires Bounded(keys, blocks)
    ensures |keys| == |blocks|
  {
    hide KeyLess, Ascending;
  }

  /** What precedes the sought place is before the target, what follows is not. */
  lemma {:induction false} SoughtRight(keys: seq<TableKey>, blocks: seq<seq<Pair>>, target: TableKey, b: nat, p: nat)
    requires Bounded(keys, blocks) && b == KeySeek(keys, target)
    requires if b < |blocks| then p == BlockSeek(blocks[b], target) else p == 0
    ensures FirstNotBefore(Concat(blocks), target, Offset(blocks, b) + p)
  {
    hide Concat, Offset, KeyLess, Bounded;
    KeyForEach(keys, blocks);
    var c, all := Offset(blocks, b) + p, Concat(blocks);
    OffsetEnds(blocks);
    OffsetsAscend(blocks, b, |blocks|);
    if b < |blocks| { OffsetStep(blocks, b); OffsetsAscend(blocks, b + 1, |blocks|); }
    forall i | 0 <= i < |all| ensures KeyLess(all[i].key, target) <==> i < c {
      var d, q := BlockOf(blocks, i);
      EntryAt(blocks, d, q);
      PlaceOfEntry(keys, blocks, target, b, d, q);
      if d < b { OffsetStep(blocks, d); OffsetsAscend(blocks, d + 1, b); }
      if b < d { OffsetStep(blocks, b); OffsetsAscend(blocks, b + 1, d); }
    }
  }

  lemma {:induction false} OffsetsAscend(blocks: seq<seq<Pair>>, a: nat, b: nat)
    requires a <= b <= |blocks|
    ensures Offset(blocks, a) <= Offset(blocks, b)
    decreases b - a
  {
    if a < b { OffsetStep(blocks, a); OffsetsAscend(blocks, a + 1, b); }
  }

  lemma {:induction false} PlaceOfEntry(keys: seq<TableKey>, blocks: seq<seq<Pair>>, target: TableKey, b: nat, d: nat,
      q: nat)
    requires Bounded(keys, blocks) && b == KeySeek(keys, target) && d < |blocks| && q < |blocks[d]|
    ensures KeyLess(blocks[d][q].key, target) <==> d < b || (d == b && q < BlockSeek(blocks[d], target))
  {
    hide KeyLess;
    var e := blocks[d][q];
    assert e in blocks[d];
    KeyTotal(keys[d], e.key);
    if d < b {
      if e.key != keys[d] { KeyTransitive(e.key, keys[d], target); }
    } else if d == b {
      var p := BlockSeek(blocks[d], target);
      if p < q { KeyTotal(e.key, target); KeyTotal(blocks[d][p].key, target); if KeyLess(e.key, target) { KeyTransitive(blocks[d][p].key, e.key, target); } }
    } else {
      KeyTotal(keys[b], target);
      assert KeyLess(keys[b], e.key);
      if KeyLess(e.key, target) { KeyTransitive(keys[b], e.key, target); }
    }
  }
}
