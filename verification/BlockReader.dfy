/** Block and Block::Iter (table/block.cc). */
module BlockReader {
  import opened Coding
  import opened BlockFormat
  import BlockBuilder

  /** A comparator: Compare(a, b) < 0. */
  type Order = (seq<Byte>, seq<Byte>) -> bool

  ghost predicate Transitive(less: Order) {
    forall a, b, c :: less(a, b) && less(b, c) ==> less(a, c)
  }

  ghost predicate AscendingKeys(less: Order, entries: seq<KeyValue>) {
    forall i, j :: 0 <= i < j < |entries| ==> less(entries[i].key, entries[j].key)
  }

  /** The Block constructor: where the restart array starts; None for contents too
      short for what they say. */
  method Open(contents: seq<Byte>, ghost L: Layout) returns (ok: bool, restarts: nat, numRestarts: nat)
    ensures ok ==> restarts + 4 * numRestarts + 4 == |contents|
    ensures forall r: nat :: FinishedAs(contents, r, L) ==> ok && restarts == r && numRestarts == |L.restarts|
  {
    if |contents| < 4 {
      return false, 0, 0;
    }
    numRestarts := DecodeFixed32(contents[|contents| - 4..]);
    if numRestarts > (|contents| - 4) / 4 {
      return false, 0, 0;
    }
    return true, |contents| - (1 + numRestarts) * 4, numRestarts;
  }

  /** DecodeEntry: the three lengths, then where the key's own bytes start. */
  method DecodeEntry(data: seq<Byte>, p: nat, limit: nat, ghost s: nat, ghost e: KeyValue)
    returns (ok: bool, shared: nat, nonShared: nat, valueLength: nat, q: nat)
    requires limit <= |data|
    ensures ok ==> p + 3 <= q && q + nonShared + valueLength <= limit
    ensures s <= |e.key| && s < 0x1_0000_0000 && p + |EntryBytes(s, e)| <= limit < 0x1_0000_0000 && Stands(data, p, EntryBytes(s, e)) ==>
              ok && shared == s && nonShared == |e.key| - s && valueLength == |e.value| &&
              q + nonShared + valueLength == p + |EntryBytes(s, e)| && data[q..q + nonShared] == e.key[s..] &&
              data[q + nonShared..q + nonShared + valueLength] == e.value
  {
    hide EntryBytes, Varint, VarintAt;
    ghost var good := s <= |e.key| && s < 0x1_0000_0000 && p + |EntryBytes(s, e)| <= limit < 0x1_0000_0000 && Stands(data, p, EntryBytes(s, e));
    if good {
      EntryFields(data, p, limit, s, e);
      LengthsFit(data, p, limit, s, e);
    }
    if p + 3 > limit {
      return false, 0, 0, 0, p;
    }
    shared, nonShared, valueLength := data[p], data[p + 1], data[p + 2];
    q := p;
    if shared < 128 && nonShared < 128 && valueLength < 128 {
      if good { FastPath(data, p, limit, s, e); }
      q := p + 3;
    } else {
      ghost var p1 := p + |Varint(s)|;
      ok, shared, q := GetVarint32Ptr(data, q, limit, s);
      if !ok { return false, 0, 0, 0, p; }
      ghost var n := if good then |e.key| - s else 0;
      ok, nonShared, q := GetVarint32Ptr(data, q, limit, n);
      if !ok { return false, 0, 0, 0, p; }
      ok, valueLength, q := GetVarint32Ptr(data, q, limit, |e.value|);
      if !ok { return false, 0, 0, 0, p; }
    }
    ok := limit - q >= nonShared + valueLength;
  }

  lemma {:induction false} LengthsFit(data: seq<Byte>, p: nat, limit: nat, s: nat, e: KeyValue)
    requires s <= |e.key| && p + |EntryBytes(s, e)| <= limit
    ensures |EntryBytes(s, e)| >= 3 + |e.key| - s + |e.value|
    ensures s <= |e.key| && |e.key| - s < limit && |e.value| < limit
  {
  }

  /** Three single bytes are the three lengths. */
  lemma {:induction false} FastPath(data: seq<Byte>, p: nat, limit: nat, s: nat, e: KeyValue)
    requires s <= |e.key| && p + 3 <= limit <= |data| && data[p] < 128 && data[p + 1] < 128 && data[p + 2] < 128
    requires VarintAt(data, p, limit, s)
    requires VarintAt(data, p + |Varint(s)|, limit, |e.key| - s)
    requires VarintAt(data, p + |Varint(s)| + |Varint(|e.key| - s)|, limit, |e.value|)
    ensures data[p] == s && data[p + 1] == |e.key| - s && data[p + 2] == |e.value|
    ensures |Varint(s)| == 1 && |Varint(|e.key| - s)| == 1 && |Varint(|e.value|)| == 1
  {
    hide Varint, VarintAt;
    VarintBegins(data, p, limit, s);
    VarintBegins(data, p + 1, limit, |e.key| - s);
    VarintBegins(data, p + 2, limit, |e.value|);
  }

  class Iter {
    const data: seq<Byte>
    const restarts: nat
    const numRestarts: nat
    var current: nat
    var restartIndex: nat
    var key: seq<Byte>
    /** value_: its place in the block. */
    var valuePos: nat
    var valueLen: nat
    var corrupt: bool
    /** What the block holds, when it is a finished block. */
    ghost const layout: Layout

    ghost predicate Good() {
      Decodes(data, restarts, numRestarts, layout)
    }

    ghost predicate Wf()
      reads this
    {
      && restarts + 4 * numRestarts <= |data| && numRestarts > 0
      && current <= restarts
      && (current < restarts ==> restartIndex < numRestarts && current < valuePos + valueLen <= restarts)
    }

    function NextEntryOffset(): nat
      reads this
    {
      valuePos + valueLen
    }

    /** The iterator yields entry `i`. */
    ghost predicate Here(i: nat)
      requires Good() && i < |layout.entries|
      reads this
    {
      && Wf() && current == layout.offsets[i] && current < restarts && !corrupt
      && key == layout.entries[i].key && NextEntryOffset() == layout.offsets[i + 1]
      && data[valuePos..NextEntryOffset()] == layout.entries[i].value
    }

    ghost predicate AtEnd()
      reads this
    {
      Wf() && current == restarts && !corrupt
    }

    /** The iterator is entry `i`, or exhausted when there is none. */
    ghost predicate At(i: nat)
      requires Good() && i <= |layout.entries|
      reads this
    {
      if i < |layout.entries| then Here(i) else AtEnd()
    }

    /** Parsing on from here finds entry `j`. */
    ghost predicate Ready(j: nat)
      requires Good() && j <= |layout.entries|
      reads this
    {
      && NextEntryOffset() == layout.offsets[j] && restartIndex < numRestarts && !corrupt
      && (j < |layout.entries| ==> SharesWith(key, layout.entries[j].key, layout.shared[j]))
    }

    constructor (data: seq<Byte>, restarts: nat, numRestarts: nat, ghost layout: Layout)
      requires restarts + 4 * numRestarts <= |data| && numRestarts > 0
      ensures Wf() && this.data == data && this.restarts == restarts && this.numRestarts == numRestarts
      ensures this.layout == layout
      ensures AtEnd()
    {
      this.data, this.restarts, this.numRestarts, this.layout := data, restarts, numRestarts, layout;
      current, restartIndex, key, valuePos, valueLen, corrupt := restarts, numRestarts, [], 0, 0, false;
    }

    function GetRestartPoint(index: nat): nat
      requires index < numRestarts && restarts + 4 * numRestarts <= |data|
    {
      DecodeFixed32(data[restarts + index * 4..])
    }

    lemma {:induction false} RestartPoint(index: nat)
      requires Good() && index < numRestarts
      ensures index < |layout.restarts| && layout.restarts[index] <= |layout.entries|
      ensures |layout.offsets| == |layout.entries| + 1
      ensures restarts + 4 * numRestarts <= |data| && GetRestartPoint(index) == layout.offsets[layout.restarts[index]]
    {
    }

    method SeekToRestartPoint(index: nat)
      requires restarts + 4 * numRestarts <= |data| && index < numRestarts
      modifies this`key, this`restartIndex, this`valuePos, this`valueLen
      ensures restartIndex == index && NextEntryOffset() == GetRestartPoint(index) && key == []
      ensures Good() && !corrupt ==>
        index < |layout.restarts| && layout.restarts[index] <= |layout.entries| && Ready(layout.restarts[index])
    {
      key := [];
      restartIndex := index;
      valuePos, valueLen := GetRestartPoint(index), 0;
      if Good() && !corrupt {
        RestartPoint(index);
        RestartShares(index);
      }
    }

    lemma {:induction false} RestartShares(index: nat)
      requires Good() && index < numRestarts
      ensures var j := layout.restarts[index]; j < |layout.entries| ==> SharesWith([], layout.entries[j].key, layout.shared[j])
    {
    }

    method CorruptionError()
      requires restarts + 4 * numRestarts <= |data| && numRestarts > 0
      modifies this
      ensures Wf() && current == restarts && restartIndex == numRestarts && corrupt
    {
      current, restartIndex, corrupt, key, valuePos, valueLen := restarts, numRestarts, true, [], 0, 0;
    }

    /** ParseNextKey */
    method ParseNextKey(ghost j: nat) returns (ok: bool)
      requires restarts + 4 * numRestarts <= |data| && restartIndex < numRestarts
      modifies this
      ensures Wf() && (ok ==> old(NextEntryOffset()) == current < restarts && NextEntryOffset() <= restarts)
      ensures !ok ==> current == restarts
      ensures Good() && j <= |layout.entries| && old(Ready(j)) ==>
        At(j) && (ok <==> j < |layout.entries|) && (ok ==> Ready(j + 1))
    {
      hide Decodes, EntryBytes, SharesWith, Stands, DecodeFixed32;
      ghost var good := Good() && j <= |layout.entries| && Ready(j);
      if good { EntryAt(j); }
      current := NextEntryOffset();
      if current >= restarts {
        current := restarts;
        restartIndex := numRestarts;
        return false;
      }
      var shared, nonShared, valueLength, p;
      ghost var s, e := if good then layout.shared[j] else 0, if good then layout.entries[j] else KeyValue([], []);
      ok, shared, nonShared, valueLength, p := DecodeEntry(data, current, restarts, s, e);
      if !ok || |key| < shared {
        if good { SharedFitsKey(key, e.key, s); }
        CorruptionError();
        return false;
      }
      if good { JoinKey(key, e.key, s); }
      key := key[..shared] + data[p..p + nonShared];
      valuePos, valueLen := p + nonShared, valueLength;
      while restartIndex + 1 < numRestarts && GetRestartPoint(restartIndex + 1) < current
        invariant restartIndex < numRestarts
        modifies this`restartIndex
        decreases numRestarts - restartIndex
      {
        restartIndex := restartIndex + 1;
      }
      if good { NextShares(j); }
    }

    /** What the format says about entry `j`. */
    lemma {:induction false} EntryAt(j: nat)
      requires Good() && j <= |layout.entries|
      ensures |layout.shared| == |layout.entries| && |layout.offsets| == |layout.entries| + 1
      ensures |data| < 0x1_0000_0000 && (layout.offsets[j] < restarts <==> j < |layout.entries|)
      ensures layout.offsets[j] <= restarts
      ensures j < |layout.entries| ==>
                && layout.shared[j] <= |layout.entries[j].key| && layout.shared[j] < 0x1_0000_0000
                && layout.offsets[j + 1] == layout.offsets[j] + |EntryBytes(layout.shared[j], layout.entries[j])| <= restarts
                && Stands(data, layout.offsets[j], EntryBytes(layout.shared[j], layout.entries[j]))
    {
      hide EntryBytes, SharesWith, Stands;
      OffsetsOrder(data, layout, j, |layout.entries|);
      if j < |layout.entries| {
        EntryInside(data, layout, j);
        KeyFits(data, layout, j);
      }
    }

    lemma {:induction false} NextShares(j: nat)
      requires Good() && j < |layout.entries|
      ensures j + 1 < |layout.entries| ==>
        SharesWith(layout.entries[j].key, layout.entries[j + 1].key, layout.shared[j + 1])
    {
      hide EntryBytes, SharesWith, Stands;
      if j + 1 < |layout.entries| { assert EntryOk(data, layout, j + 1); }
    }

    method Next(ghost i: nat)
      requires Wf() && current < restarts
      modifies this
      ensures Wf() && current > old(current)
      ensures Good() && i < |layout.entries| && old(Here(i)) ==> At(i + 1)
    {
      hide Decodes, SharesWith;
      if Good() && i < |layout.entries| && Here(i) { NextShares(i); }
      var _ := ParseNextKey(i + 1);
    }

    /** Prev: back to a restart point before the entry, then forward to the entry
        that ends where it starts. */
    method Prev(ghost i: nat)
      requires Wf() && current < restarts
      modifies this
      ensures Wf()
      ensures Good() && i < |layout.entries| && old(Here(i)) ==> At(if i == 0 then |layout.entries| else i - 1)
    {
      hide Decodes, SharesWith, DecodeFixed32;
      ghost var good := Good() && i < |layout.entries| && Here(i);
      var original := current;
      while GetRestartPoint(restartIndex) >= original
        invariant restartIndex < numRestarts && current == original
        invariant good ==> !corrupt
        decreases restartIndex
      {
        if restartIndex == 0 {
          if good { FirstIsRestart(i); }
          current := restarts;
          restartIndex := numRestarts;
          return;
        }
        restartIndex := restartIndex - 1;
      }
      SeekToRestartPoint(restartIndex);
      ghost var j: nat := 0;
      if good {
        j := layout.restarts[restartIndex];
        RestartPoint(restartIndex);
        Order(j, i);
      }
      var more := true;
      while more
        invariant Wf() || (restarts + 4 * numRestarts <= |data| && restartIndex < numRestarts)
        invariant more ==> restartIndex < numRestarts
        invariant good && more ==> j < i && Ready(j)
        invariant good && !more ==> i > 0 && Here(i - 1)
        invariant !more ==> Wf()
        decreases more, restarts - NextEntryOffset()
      {
        var ok := ParseNextKey(j);
        if good { Order(j + 1, i); }
        more := ok && NextEntryOffset() < original;
        if good {
          if more { j := j + 1; }
        }
      }
    }

    method SeekToFirst()
      requires restarts + 4 * numRestarts <= |data| && numRestarts > 0
      modifies this
      ensures Wf()
      ensures Good() && !old(corrupt) ==> At(0)
    {
      hide Decodes, SharesWith, DecodeFixed32;
      if Good() { RestartPoint(0); FirstRestart(); }
      SeekToRestartPoint(0);
      var _ := ParseNextKey(0);
    }

    method SeekToLast()
      requires restarts + 4 * numRestarts <= |data| && numRestarts > 0
      modifies this
      ensures Wf()
      ensures Good() && !old(corrupt) ==> At(if |layout.entries| == 0 then 0 else |layout.entries| - 1)
    {
      hide Decodes, SharesWith, DecodeFixed32;
      ghost var good := Good() && !corrupt;
      SeekToRestartPoint(numRestarts - 1);
      ghost var j: nat := 0;
      if good {
        j := layout.restarts[numRestarts - 1];
        LastRestart();
      }
      var more := true;
      while more
        invariant !more ==> Wf()
        invariant more ==> restartIndex < numRestarts
        invariant good && more ==> j <= |layout.entries| && Ready(j) && (j == |layout.entries| ==> j == 0)
        invariant good && !more ==> At(if |layout.entries| == 0 then 0 else |layout.entries| - 1)
        decreases more, restarts - NextEntryOffset()
      {
        var ok := ParseNextKey(j);
        more := ok && NextEntryOffset() < restarts;
        if good && ok {
          EntryAt(j + 1);
          if more { j := j + 1; }
        }
      }
    }

    /** Seek: binary search over the restart points for the last one before the
        target, then entry by entry: the first entry at or after the target. */
    method Seek(less: Order, target: seq<Byte>) returns (ghost f: nat)
      requires restarts + 4 * numRestarts <= |data| && numRestarts > 0
      modifies this
      ensures Wf()
      ensures Good() && !old(corrupt) && Transitive(less) && AscendingKeys(less, layout.entries) ==>
                f <= |layout.entries| && At(f) && IsFirst(less, layout.entries, target, f)
    {
      hide Decodes, SharesWith, DecodeFixed32, EntryBytes, Stands, Transitive, AscendingKeys;
      ghost var good := Good() && !corrupt && Transitive(less) && AscendingKeys(less, layout.entries);
      f := 0;
      var left, right := 0, numRestarts - 1;
      while left < right
        invariant 0 <= left <= right < numRestarts
        invariant good ==> !corrupt && BeforeRestart(less, target, left)
        decreases right - left
      {
        var mid := (left + right + 1) / 2;
        var regionOffset := GetRestartPoint(mid);
        ghost var m: nat, e := 0, KeyValue([], []);
        if good {
          RestartEntry(mid);
          m := layout.restarts[mid];
          e := layout.entries[m];
        }
        var ok, shared, nonShared, valueLength, p := DecodeEntry(data, regionOffset, restarts, 0, e);
        if !ok || shared != 0 {
          CorruptionError();
          return;
        }
        var midKey := data[p..p + nonShared];
        if less(midKey, target) {
          left := mid;
        } else {
          right := mid - 1;
        }
      }
      SeekToRestartPoint(left);
      if good {
        f := layout.restarts[left];
        StartOfSearch(less, target, left);
      }
      var more := true;
      while more
        invariant !more ==> Wf()
        invariant more ==> restartIndex < numRestarts
        invariant good && more ==> f <= |layout.entries| && Ready(f) && AllBefore(less, layout.entries, target, f)
        invariant good && !more ==> f <= |layout.entries| && At(f) && IsFirst(less, layout.entries, target, f)
        decreases more, restarts - NextEntryOffset()
      {
        more := ParseNextKey(f);
        if more {
          if !less(key, target) {
            return;
          }
          if good { f := f + 1; }
        }
      }
    }

    /** Everything before restart point `left`'s entry, and that entry unless it
        is the first, is before the target. */
    ghost predicate BeforeRestart(less: Order, target: seq<Byte>, left: nat)
      requires Good() && left < numRestarts
    {
      left > 0 ==> layout.restarts[left] < |layout.entries| && less(layout.entries[layout.restarts[left]].key, target)
    }

    lemma {:induction false} StartOfSearch(less: Order, target: seq<Byte>, left: nat)
      requires Good() && left < numRestarts && BeforeRestart(less, target, left)
      requires Transitive(less) && AscendingKeys(less, layout.entries)
      ensures left < |layout.restarts| && layout.restarts[left] <= |layout.entries|
      ensures AllBefore(less, layout.entries, target, layout.restarts[left])
    {
      RestartPoint(left);
      hide Decodes;
      if left == 0 { FirstRestart(); }
      forall i | 0 <= i < layout.restarts[left] ensures less(layout.entries[i].key, target) {
        assert less(layout.entries[i].key, layout.entries[layout.restarts[left]].key);
      }
    }

    lemma {:induction false} RestartEntry(mid: nat)
      requires Good() && 0 < mid < numRestarts
      ensures restarts + 4 * numRestarts <= |data| < 0x1_0000_0000 && mid < |layout.restarts|
      ensures layout.restarts[mid] < |layout.entries|
      ensures var e := layout.entries[layout.restarts[mid]];
              GetRestartPoint(mid) + |EntryBytes(0, e)| <= restarts && Stands(data, GetRestartPoint(mid), EntryBytes(0, e))
    {
      RestartPoint(mid);
      assert layout.restarts[mid] < |layout.entries|;
      EntryAt(layout.restarts[mid]);
      assert layout.shared[layout.restarts[mid]] == 0;
    }

    lemma {:induction false} FirstRestart()
      requires Good()
      ensures |layout.restarts| > 0 && layout.restarts[0] == 0
    {
    }

    lemma {:induction false} LastRestart()
      requires Good()
      ensures |layout.restarts| == numRestarts > 0
      ensures layout.restarts[numRestarts - 1] < |layout.entries| || (layout.restarts[numRestarts - 1] == 0 && |layout.entries| == 0)
    {
    }

    lemma {:induction false} Order(j: nat, i: nat)
      requires Good() && j <= |layout.entries| && i <= |layout.entries|
      ensures |layout.offsets| == |layout.entries| + 1 && (layout.offsets[j] < layout.offsets[i] <==> j < i)
    {
      OffsetsOrder(data, layout, j, i);
    }

    lemma {:induction false} FirstIsRestart(i: nat)
      requires Good() && i < |layout.entries| && numRestarts > 0
      ensures restarts + 4 * numRestarts <= |data| && |layout.offsets| == |layout.entries| + 1
      ensures GetRestartPoint(0) == 0 && (layout.offsets[i] == 0 ==> i == 0)
    {
      RestartPoint(0);
      Order(0, i);
    }
  }

  ghost predicate AllBefore(less: Order, entries: seq<KeyValue>, target: seq<Byte>, f: nat)
    requires f <= |entries|
  {
    forall i :: 0 <= i < f ==> less(entries[i].key, target)
  }

  /** `f` is the first entry not before the target. */
  ghost predicate IsFirst(less: Order, entries: seq<KeyValue>, target: seq<Byte>, f: nat)
    requires f <= |entries|
  {
    AllBefore(less, entries, target, f) && (f < |entries| ==> !less(entries[f].key, target))
  }

  // ----- building and reading back -----

  /** From the first entry on with Next: the entries of the block. */
  method ReadAll(iter: Iter) returns (entries: seq<KeyValue>)
    requires iter.Wf() && !iter.corrupt
    modifies iter
    ensures iter.Good() ==> entries == iter.layout.entries
  {
    hide Decodes;
    iter.SeekToFirst();
    entries := [];
    while iter.current < iter.restarts
      invariant iter.Wf()
      invariant iter.Good() ==>
        |entries| <= |iter.layout.entries| && iter.At(|entries|) && entries == iter.layout.entries[..|entries|]
      decreases iter.restarts - iter.current
    {
      ghost var i := |entries|;
      entries := entries + [KeyValue(iter.key, iter.data[iter.valuePos..iter.NextEntryOffset()])];
      assert iter.Good() ==> iter.layout.entries[..i + 1] == iter.layout.entries[..i] + [iter.layout.entries[i]];
      iter.Next(i);
    }
  }

  /** A finished block, opened and iterated, gives back exactly the pairs added,
      for any restart interval. */
  method RoundTrip(added: seq<KeyValue>, restartInterval: nat) returns (fits: bool, entries: seq<KeyValue>)
    requires restartInterval >= 1
    ensures fits ==> entries == added
    ensures SizeBound(added) < 0x1_0000_0000 ==> fits
  {
    hide Decodes, BlockBuilder.Holds;
    var builder := new BlockBuilder.Builder(restartInterval);
    for i := 0 to |added|
      invariant builder.Valid() && !builder.finished && builder.layout.entries == added[..i] && fresh(builder)
      invariant builder.CurrentSizeEstimate() <= SizeBound(added[..i])
    {
      builder.Add(added[i].key, added[i].value);
      assert added[..i + 1] == added[..i] + [added[i]];
    }
    assert added[..|added|] == added;
    fits := builder.CurrentSizeEstimate() < 0x1_0000_0000;
    entries := [];
    ghost var n := |builder.buffer|;
    var block := builder.Finish();
    ghost var L := builder.layout;
    var ok, restarts, numRestarts := Open(block, L);
    if ok && numRestarts > 0 {
      var iter := new Iter(block, restarts, numRestarts, L);
      entries := ReadAll(iter);
    }
    if fits { HasRestarts(block, n, L); }
  }

  lemma {:induction false} HasRestarts(block: seq<Byte>, restarts: nat, L: Layout)
    requires FinishedAs(block, restarts, L)
    ensures |L.restarts| > 0 && Decodes(block, restarts, |L.restarts|, L)
  {
  }

  lemma {:induction false} SharedFitsKey(key: seq<Byte>, full: seq<Byte>, s: nat)
    requires SharesWith(key, full, s)
    ensures s <= |key|
  {
  }

  lemma {:induction false} JoinKey(key: seq<Byte>, full: seq<Byte>, s: nat)
    requires SharesWith(key, full, s)
    ensures s <= |key| && s <= |full| && key[..s] + full[s..] == full
  {
  }
}
