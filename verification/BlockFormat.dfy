/** The format of a table block: prefix-compressed entries and restart points
    (table/block_builder.cc, table/format.h). */
module BlockFormat {
  import opened Coding

  datatype KeyValue = KeyValue(key: seq<Byte>, value: seq<Byte>)

  function EntryBytes(shared: nat, e: KeyValue): seq<Byte>
    requires shared <= |e.key|
  {
    Varint(shared) + Varint(|e.key| - shared) + Varint(|e.value|) + e.key[shared..] + e.value
  }

  lemma {:induction false} VarintShort(v: nat)
    ensures |Varint(v)| <= v + 1
  {
    if v >= 128 { VarintShort(v / 128); }
  }

  lemma {:induction false} EntrySize(shared: nat, e: KeyValue)
    requires shared <= |e.key|
    ensures |EntryBytes(shared, e)| <= 2 * |e.key| + 2 * |e.value| + 3
  {
    VarintShort(shared);
    VarintShort(|e.key| - shared);
    VarintShort(|e.value|);
  }

  /** A bound on the size of the block of some entries. */
  function SizeBound(entries: seq<KeyValue>): nat {
    if |entries| == 0 then 8
    else SizeBound(entries[..|entries| - 1]) + 2 * |entries[|entries| - 1].key| + 2 * |entries[|entries| - 1].value| + 7
  }

  /** Which entries a block holds: how much of its key each shares with the one
      before, where each starts (and the last ends), and the restart entries. */
  datatype Layout = Layout(entries: seq<KeyValue>, shared: seq<nat>, offsets: seq<nat>, restarts: seq<nat>)

  /** Entry `i` shares its first bytes with the key of the entry before it. */
  predicate SharesWith(previous: seq<Byte>, key: seq<Byte>, shared: nat) {
    shared <= |previous| && shared <= |key| && previous[..shared] == key[..shared]
  }

  /** `bytes` stand in `data` at `p`. */
  predicate Stands(data: seq<Byte>, p: nat, bytes: seq<Byte>) {
    p + |bytes| <= |data| && data[p..p + |bytes|] == bytes
  }

  ghost predicate EntryOk(data: seq<Byte>, L: Layout, i: nat)
    requires i < |L.entries| && |L.shared| == |L.entries| && |L.offsets| == |L.entries| + 1
  {
    && L.shared[i] <= |L.entries[i].key|
    && SharesWith(if i == 0 then [] else L.entries[i - 1].key, L.entries[i].key, L.shared[i])
    && L.offsets[i + 1] == L.offsets[i] + |EntryBytes(L.shared[i], L.entries[i])|
    && Stands(data, L.offsets[i], EntryBytes(L.shared[i], L.entries[i]))
  }

  ghost predicate EntriesOk(data: seq<Byte>, L: Layout) {
    && |L.shared| == |L.entries| && |L.offsets| == |L.entries| + 1 && L.offsets[0] == 0
    && forall i :: 0 <= i < |L.entries| ==> EntryOk(data, L, i)
  }

  ghost predicate RestartsOk(L: Layout) {
    && |L.restarts| > 0 && L.restarts[0] == 0 && |L.shared| == |L.entries|
    && (forall j :: 0 <= j < |L.restarts| ==> L.restarts[j] < |L.entries| || (j == 0 && |L.entries| == 0))
    && (forall j, k :: 0 <= j < k < |L.restarts| ==> L.restarts[j] < L.restarts[k])
    && (forall j :: 0 <= j < |L.restarts| && L.restarts[j] < |L.shared| ==> L.shared[L.restarts[j]] == 0)
  }

  /** The finished block: entries, the offsets of the restart points, their number. */
  ghost predicate Decodes(data: seq<Byte>, restarts: nat, numRestarts: nat, L: Layout) {
    && |data| < 0x1_0000_0000 && restarts + 4 * numRestarts <= |data|
    && RestartsOk(L) && numRestarts == |L.restarts| && EntriesOk(data, L) && restarts == L.offsets[|L.entries|]
    && forall j :: 0 <= j < numRestarts ==> DecodeFixed32(data[restarts + 4 * j..]) == L.offsets[L.restarts[j]]
  }

  /** A finished block of these entries, its restart array at `restarts`. */
  ghost predicate FinishedAs(contents: seq<Byte>, restarts: nat, L: Layout) {
    && restarts + 4 * |L.restarts| + 4 == |contents| && Decodes(contents, restarts, |L.restarts|, L)
    && DecodeFixed32(contents[|contents| - 4..]) == |L.restarts|
  }

  lemma {:induction false} OffsetsAscend(data: seq<Byte>, L: Layout, i: nat, j: nat)
    requires EntriesOk(data, L) && i < j <= |L.entries|
    ensures L.offsets[i] + 3 <= L.offsets[j]
  {
    assert EntryOk(data, L, j - 1);
    if i < j - 1 { OffsetsAscend(data, L, i, j - 1); }
  }

  lemma {:induction false} OffsetsOrder(data: seq<Byte>, L: Layout, i: nat, j: nat)
    requires EntriesOk(data, L) && i <= |L.entries| && j <= |L.entries|
    ensures L.offsets[i] < L.offsets[j] <==> i < j
  {
    if i < j { OffsetsAscend(data, L, i, j); }
    if j < i { OffsetsAscend(data, L, j, i); }
  }

  lemma {:induction false} EntryInside(data: seq<Byte>, L: Layout, i: nat)
    requires EntriesOk(data, L) && i < |L.entries|
    ensures EntryOk(data, L, i) && L.offsets[i + 1] <= L.offsets[|L.entries|]
  {
    if i + 1 < |L.entries| { OffsetsAscend(data, L, i + 1, |L.entries|); }
  }

  /** No key is longer than the block up to it. */
  lemma {:induction false} KeyFits(data: seq<Byte>, L: Layout, i: nat)
    requires EntriesOk(data, L) && i < |L.entries|
    ensures L.shared[i] <= |L.entries[i].key| <= L.offsets[i + 1]
  {
    hide SharesWith;
    assert EntryOk(data, L, i);
    SharedWithin(if i == 0 then [] else L.entries[i - 1].key, L.entries[i].key, L.shared[i]);
    if i > 0 { KeyFits(data, L, i - 1); }
  }

  lemma {:induction false} SharedWithin(previous: seq<Byte>, key: seq<Byte>, shared: nat)
    requires SharesWith(previous, key, shared)
    ensures shared <= |previous| && shared <= |key|
  {
  }

  /** Reading the parts of an entry back. */
  lemma {:induction false} EntryFields(data: seq<Byte>, p: nat, limit: nat, shared: nat, e: KeyValue)
    requires shared <= |e.key| && Stands(data, p, EntryBytes(shared, e))
    requires p + |EntryBytes(shared, e)| <= limit <= |data|
    ensures var p1 := p + |Varint(shared)|; var p2 := p1 + |Varint(|e.key| - shared)|; var p3 := p2 + |Varint(|e.value|)|;
            && VarintAt(data, p, limit, shared) && VarintAt(data, p1, limit, |e.key| - shared)
            && VarintAt(data, p2, limit, |e.value|)
            && p3 + |e.key| - shared + |e.value| == p + |EntryBytes(shared, e)|
            && data[p3..p3 + |e.key| - shared] == e.key[shared..]
            && data[p3 + |e.key| - shared..p + |EntryBytes(shared, e)|] == e.value
  {
    hide Varint;
    SliceParts(data, p, Varint(shared), Varint(|e.key| - shared), Varint(|e.value|), e.key[shared..], e.value);
  }

  lemma {:induction false} SliceParts(data: seq<Byte>, p: nat, a: seq<Byte>, b: seq<Byte>, c: seq<Byte>, d: seq<Byte>,
      e: seq<Byte>)
    requires Stands(data, p, a + b + c + d + e)
    ensures var p1 := p + |a|; var p2 := p1 + |b|; var p3 := p2 + |c|; var p4 := p3 + |d|;
            && p4 + |e| <= |data| && data[p..p1] == a && data[p1..p2] == b && data[p2..p3] == c && data[p3..p4] == d
            && data[p4..p4 + |e|] == e
  {
    var n := |a + b + c + d + e|;
    Parts(a, b, c, d, e);
    Within(data, p, n, 0, |a|);
    Within(data, p, n, |a|, |a| + |b|);
    Within(data, p, n, |a| + |b|, |a| + |b| + |c|);
    Within(data, p, n, |a| + |b| + |c|, |a| + |b| + |c| + |d|);
    Within(data, p, n, |a| + |b| + |c| + |d|, n);
  }

  lemma {:induction false} Within(data: seq<Byte>, p: nat, n: nat, a: nat, b: nat)
    requires p + n <= |data| && a <= b <= n
    ensures data[p..p + n][a..b] == data[p + a..p + b]
  {
    var s := data[p..p + n];
    assert forall i :: a <= i < b ==> s[i] == data[p + i];
    assert forall i :: 0 <= i < b - a ==> s[a..b][i] == s[a + i] && data[p + a..p + b][i] == data[p + a + i];
  }

  lemma {:induction false} Parts(a: seq<Byte>, b: seq<Byte>, c: seq<Byte>, d: seq<Byte>, e: seq<Byte>)
    ensures var s := a + b + c + d + e;
            && s[0..|a|] == a && s[|a|..|a| + |b|] == b && s[|a| + |b|..|a| + |b| + |c|] == c
            && s[|a| + |b| + |c|..|a| + |b| + |c| + |d|] == d && s[|a| + |b| + |c| + |d|..|s|] == e
  {
  }
}
