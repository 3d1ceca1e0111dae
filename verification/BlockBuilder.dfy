/** BlockBuilder (table/block_builder.cc). */
module BlockBuilder {
  import opened Coding
  import opened BlockFormat

  /** The builder's fields describe the entries added. */
  ghost predicate Holds(interval: nat, buffer: seq<Byte>, restarts: seq<nat>, counter: nat, lastKey: seq<Byte>, L: Layout) {
    && interval >= 1 && counter <= interval
    && EntriesOk(buffer, L) && RestartsOk(L) && L.offsets[|L.entries|] == |buffer|
    && |restarts| == |L.restarts| && (forall j :: 0 <= j < |restarts| ==> restarts[j] == L.offsets[L.restarts[j]])
    && lastKey == (if L.entries == [] then [] else L.entries[|L.entries| - 1].key)
    && (L.entries == [] ==> counter == 0 && |restarts| == 1)
  }

  /** One more entry, starting a new restart block or not. */
  lemma {:induction false} Added(interval: nat, buffer: seq<Byte>, restarts: seq<nat>, counter: nat, lastKey: seq<Byte>, L: Layout,
                                 e: KeyValue, shared: nat)
    requires Holds(interval, buffer, restarts, counter, lastKey, L) && SharesWith(lastKey, e.key, shared)
    requires counter >= interval ==> shared == 0
    ensures shared <= |e.key| && |L.offsets| > 0
    ensures var restart := counter >= interval;
            Holds(interval, buffer + EntryBytes(shared, e), if restart then restarts + [|buffer|] else restarts,
                  if restart then 1 else counter + 1, e.key, Appended(L, e, shared, restart))
  {
    hide EntriesOk, RestartsOk, EntryBytes, SharesWith;
    var restart := counter >= interval;
    LayoutShape(buffer, L);
    SharedFits(lastKey, e, shared);
    AppendEntry(buffer, L, e, shared, lastKey, restart);
    AppendRestart(L, e, shared, restart);
  }

  class Builder {
    const restartInterval: nat
    var buffer: seq<Byte>
    var restarts: seq<nat>
    var counter: nat
    var finished: bool
    var lastKey: seq<Byte>
    /** What has been added. */
    ghost var layout: Layout

    ghost predicate Valid()
      reads this
    {
      Holds(restartInterval, buffer, restarts, counter, lastKey, layout)
    }

    constructor (restartInterval: nat)
      requires restartInterval >= 1
      ensures Valid() && layout.entries == [] && !finished && buffer == [] && |restarts| == 1
    {
      this.restartInterval := restartInterval;
      buffer, restarts, counter, finished, lastKey := [], [0], 0, false, [];
      layout := Layout([], [], [0], [0]);
    }

    /** CurrentSizeEstimate: what Finish will return. */
    function CurrentSizeEstimate(): nat
      reads this
    {
      |buffer| + 4 * |restarts| + 4
    }

    method Reset()
      requires restartInterval >= 1
      modifies this
      ensures Valid() && layout.entries == [] && !finished && buffer == [] && |restarts| == 1
    {
      buffer, restarts, counter, finished, lastKey := [], [0], 0, false, [];
      layout := Layout([], [], [0], [0]);
    }

    /** How much of the key the last key shares. */
    method SharedPrefix(key: seq<Byte>) returns (shared: nat)
      ensures SharesWith(lastKey, key, shared)
      ensures shared < |lastKey| && shared < |key| ==> lastKey[shared] != key[shared]
    {
      shared := 0;
      var minLength := if |lastKey| < |key| then |lastKey| else |key|;
      while shared < minLength && lastKey[shared] == key[shared]
        invariant shared <= minLength && lastKey[..shared] == key[..shared]
      {
        assert lastKey[..shared + 1] == lastKey[..shared] + [lastKey[shared]];
        assert key[..shared + 1] == key[..shared] + [key[shared]];
        shared := shared + 1;
      }
    }

    method Add(key: seq<Byte>, value: seq<Byte>)
      requires Valid() && !finished
      modifies this
      ensures Valid() && !finished && layout.entries == old(layout.entries) + [KeyValue(key, value)]
      ensures CurrentSizeEstimate() <= old(CurrentSizeEstimate()) + 2 * |key| + 2 * |value| + 7
    {
      hide Holds, EntryBytes, SharesWith, Varint;
      ghost var e := KeyValue(key, value);
      var shared := 0;
      NothingShared(lastKey, key);
      ghost var restart := counter >= restartInterval;
      if counter < restartInterval {
        shared := SharedPrefix(key);
      }
      Added(restartInterval, buffer, restarts, counter, lastKey, layout, e, shared);
      if counter >= restartInterval {
        restarts := restarts + [|buffer|];
        counter := 0;
      }
      JoinedEntry(buffer, shared, e);
      EntrySize(shared, e);
      Rejoined(lastKey, key, shared);
      buffer := buffer + Varint(shared) + Varint(|key| - shared) + Varint(|value|) + key[shared..] + value;
      lastKey := lastKey[..shared] + key[shared..];
      counter := counter + 1;
      layout := Appended(layout, e, shared, restart);
    }

    /** Finish: the restart offsets and their number follow the entries. The fields
        have 32 bits, so a block of 4 GiB or more cannot be read back. */
    method Finish() returns (block: seq<Byte>)
      requires Valid() && !finished
      modifies this
      ensures finished && layout == old(layout) && |block| == old(CurrentSizeEstimate())
      ensures |block| < 0x1_0000_0000 ==> FinishedAs(block, old(|buffer|), layout)
    {
      hide EntriesOk, RestartsOk, EncodeFixed32, DecodeFixed32;
      ghost var entries := buffer;
      RestartsBelow(buffer, layout);
      for i := 0 to |restarts|
        invariant restarts == old(restarts) && layout == old(layout)
        invariant buffer == entries + RestartArray(restarts, i)
      {
        buffer := buffer + EncodeFixed32(restarts[i] % 0x1_0000_0000);
        RestartArrayStep(restarts, i, entries);
      }
      buffer := buffer + EncodeFixed32(|restarts| % 0x1_0000_0000);
      finished := true;
      block := buffer;
      if |block| < 0x1_0000_0000 { FinishedBlock(entries, layout, restarts, block); }
    }
  }

  lemma {:induction false} EmptyBuffer(buffer: seq<Byte>, L: Layout)
    requires EntriesOk(buffer, L) && L.offsets[|L.entries|] == |buffer|
    ensures buffer == [] <==> L.entries == []
  {
    if L.entries != [] { OffsetsAscend(buffer, L, 0, |L.entries|); }
  }

  lemma {:induction false} NothingShared(a: seq<Byte>, b: seq<Byte>)
    ensures SharesWith(a, b, 0)
  {
  }

  lemma {:induction false} SharedFits(last: seq<Byte>, e: KeyValue, shared: nat)
    requires SharesWith(last, e.key, shared)
    ensures shared <= |e.key| && shared <= |last| && (last == [] ==> shared == 0)
  {
  }

  lemma {:induction false} JoinedEntry(before: seq<Byte>, shared: nat, e: KeyValue)
    requires shared <= |e.key|
    ensures before + Varint(shared) + Varint(|e.key| - shared) + Varint(|e.value|) + e.key[shared..] + e.value == before + EntryBytes(shared, e)
  {
    hide Varint;
  }

  lemma {:induction false} Rejoined(last: seq<Byte>, key: seq<Byte>, shared: nat)
    requires SharesWith(last, key, shared)
    ensures shared <= |last| && shared <= |key| && last[..shared] + key[shared..] == key
  {
  }

  ghost function Appended(L: Layout, e: KeyValue, shared: nat, restart: bool): Layout
    requires |L.offsets| > 0 && shared <= |e.key|
  {
    Layout(L.entries + [e], L.shared + [shared], L.offsets + [L.offsets[|L.offsets| - 1] + |EntryBytes(shared, e)|],
           if restart then L.restarts + [|L.entries|] else L.restarts)
  }

  lemma {:induction false} StandsLonger(data: seq<Byte>, more: seq<Byte>, p: nat, bytes: seq<Byte>)
    requires Stands(data, p, bytes)
    ensures Stands(data + more, p, bytes)
  {
    assert (data + more)[p..p + |bytes|] == data[p..p + |bytes|];
  }

  lemma {:induction false} AppendEntry(data: seq<Byte>, L: Layout, e: KeyValue, shared: nat, last: seq<Byte>,
      restart: bool)
    requires EntriesOk(data, L) && L.offsets[|L.entries|] == |data| && shared <= |e.key|
    requires last == (if L.entries == [] then [] else L.entries[|L.entries| - 1].key) && SharesWith(last, e.key, shared)
    ensures EntriesOk(data + EntryBytes(shared, e), Appended(L, e, shared, restart))
  {
    hide EntryBytes, SharesWith, Stands;
    var L' := Appended(L, e, shared, restart);
    var bytes := EntryBytes(shared, e);
    forall i | 0 <= i < |L'.entries| ensures EntryOk(data + bytes, L', i) {
      if i < |L.entries| {
        assert EntryOk(data, L, i);
        StandsLonger(data, bytes, L.offsets[i], EntryBytes(L.shared[i], L.entries[i]));
      } else {
        StandsAtEnd(data, bytes);
      }
    }
  }

  lemma {:induction false} LayoutShape(data: seq<Byte>, L: Layout)
    requires EntriesOk(data, L) && RestartsOk(L)
    ensures |L.shared| == |L.entries| && |L.offsets| == |L.entries| + 1 && |L.restarts| > 0
    ensures forall j :: 0 <= j < |L.restarts| ==> L.restarts[j] < |L.offsets|
  {
  }

  /** A restart point never comes before any entry: the first is already there. */
  lemma {:induction false} AppendRestart(L: Layout, e: KeyValue, shared: nat, restart: bool)
    requires RestartsOk(L) && |L.offsets| > 0 && shared <= |e.key| && |L.shared| == |L.entries|
    requires restart ==> shared == 0 && |L.entries| > 0
    requires |L.entries| == 0 ==> shared == 0 && |L.restarts| == 1
    ensures RestartsOk(Appended(L, e, shared, restart))
  {
    hide EntryBytes;
    MoreRestarts(L.restarts, |L.entries|, restart);
    NoneSharedThere(L.shared, shared, L.restarts, |L.entries|, restart);
  }

  lemma {:induction false} MoreRestarts(restarts: seq<nat>, n: nat, restart: bool)
    requires forall j :: 0 <= j < |restarts| ==> restarts[j] < n || (j == 0 && n == 0)
    requires forall j, k :: 0 <= j < k < |restarts| ==> restarts[j] < restarts[k]
    requires (restart ==> n > 0) && (n == 0 ==> |restarts| == 1 && restarts[0] == 0)
    ensures var r := if restart then restarts + [n] else restarts;
            (forall j :: 0 <= j < |r| ==> r[j] < n + 1) && forall j, k :: 0 <= j < k < |r| ==> r[j] < r[k]
  {
  }

  lemma {:induction false} NoneSharedThere(all: seq<nat>, shared: nat, restarts: seq<nat>, n: nat, restart: bool)
    requires |all| == n && ((restart || n == 0) ==> shared == 0)
    requires forall j :: 0 <= j < |restarts| ==> restarts[j] < n || (j == 0 && n == 0)
    requires forall j :: 0 <= j < |restarts| && restarts[j] < n ==> all[restarts[j]] == 0
    ensures var r := if restart then restarts + [n] else restarts;
            forall j :: 0 <= j < |r| && r[j] < n + 1 ==> (all + [shared])[r[j]] == 0
  {
  }

  lemma {:induction false} StandsAtEnd(data: seq<Byte>, bytes: seq<Byte>)
    ensures Stands(data + bytes, |data|, bytes)
  {
  }

  // ----- the restart array -----

  function RestartArray(restarts: seq<nat>, n: nat): (r: seq<Byte>)
    requires n <= |restarts|
    ensures |r| == 4 * n
  {
    if n == 0 then [] else RestartArray(restarts, n - 1) + EncodeFixed32(restarts[n - 1] % 0x1_0000_0000)
  }

  lemma {:induction false} RestartArrayStep(restarts: seq<nat>, n: nat, before: seq<Byte>)
    requires n < |restarts|
    ensures before + RestartArray(restarts, n) + EncodeFixed32(restarts[n] % 0x1_0000_0000) == before + RestartArray(restarts, n + 1)
  {
    hide EncodeFixed32;
  }

  lemma {:induction false} RestartsBelow(data: seq<Byte>, L: Layout)
    requires EntriesOk(data, L) && RestartsOk(L) && L.offsets[|L.entries|] == |data|
    ensures forall j :: 0 <= j < |L.restarts| ==> L.restarts[j] < |L.offsets| && L.offsets[L.restarts[j]] <= |data|
  {
    forall j | 0 <= j < |L.restarts| ensures L.restarts[j] < |L.offsets| && L.offsets[L.restarts[j]] <= |data| {
      OffsetsOrder(data, L, |L.entries|, L.restarts[j]);
    }
  }

  lemma {:induction false} RestartAt(restarts: seq<nat>, n: nat, before: seq<Byte>, after: seq<Byte>, j: nat)
    requires j < n <= |restarts| && restarts[j] < 0x1_0000_0000
    ensures var block := before + RestartArray(restarts, n) + after;
            |before| + 4 * j + 4 <= |block| && DecodeFixed32(block[|before| + 4 * j..]) == restarts[j]
    decreases n
  {
    hide EncodeFixed32, DecodeFixed32;
    var e := EncodeFixed32(restarts[n - 1] % 0x1_0000_0000);
    var block := before + RestartArray(restarts, n) + after;
    assert block == before + RestartArray(restarts, n - 1) + (e + after);
    if j < n - 1 {
      RestartAt(restarts, n - 1, before, e + after, j);
    } else {
      assert block[|before| + 4 * j..] == e + after;
      Fixed32RoundTrip(restarts[j], after);
    }
  }

  lemma {:induction false} FinishedBlock(entries: seq<Byte>, L: Layout, restarts: seq<nat>, block: seq<Byte>)
    requires EntriesOk(entries, L) && RestartsOk(L) && L.offsets[|L.entries|] == |entries|
    requires |restarts| == |L.restarts| && forall j :: 0 <= j < |restarts| ==>
      L.restarts[j] < |L.offsets| && restarts[j] == L.offsets[L.restarts[j]]
    requires |entries| + 4 * |restarts| + 4 < 0x1_0000_0000 && forall j :: 0 <= j < |restarts| ==>
      restarts[j] <= |entries|
    requires block == entries + RestartArray(restarts, |restarts|) + EncodeFixed32(|restarts| % 0x1_0000_0000)
    ensures FinishedAs(block, |entries|, L)
  {
    hide EncodeFixed32, DecodeFixed32, RestartsOk, EntryBytes, SharesWith, Stands;
    var n := |restarts|;
    forall j | 0 <= j < n ensures DecodeFixed32(block[|entries| + 4 * j..]) == L.offsets[L.restarts[j]] {
      RestartAt(restarts, n, entries, EncodeFixed32(n), j);
    }
    assert block[|block| - 4..] == EncodeFixed32(n) + [];
    Fixed32RoundTrip(n, []);
    forall i | 0 <= i < |L.entries| ensures EntryOk(block, L, i) {
      assert EntryOk(entries, L, i);
      var more := RestartArray(restarts, n) + EncodeFixed32(n);
      assert block == entries + more;
      StandsLonger(entries, more, L.offsets[i], EntryBytes(L.shared[i], L.entries[i]));
    }
  }
}
