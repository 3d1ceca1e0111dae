/** Comparators and separators (util/comparator.cc, db/dbformat.cc). */
module Comparators {
  import opened Coding

  // ----- BytewiseComparator -----

  /** Slice::compare: bytewise, a proper prefix first. */
  predicate BytesLess(a: seq<Byte>, b: seq<Byte>) {
    |b| > 0 && (|a| == 0 || a[0] < b[0] || (a[0] == b[0] && BytesLess(a[1..], b[1..])))
  }

  lemma {:induction false} BytesTransitive(a: seq<Byte>, b: seq<Byte>, c: seq<Byte>)
    requires BytesLess(a, b) && BytesLess(b, c)
    ensures BytesLess(a, c)
  {
    if |a| > 0 && a[0] == b[0] == c[0] { BytesTransitive(a[1..], b[1..], c[1..]); }
  }

  lemma {:induction false} BytesTotal(a: seq<Byte>, b: seq<Byte>)
    ensures a == b || BytesLess(a, b) || BytesLess(b, a)
  {
    if |a| > 0 && |b| > 0 && a[0] == b[0] {
      BytesTotal(a[1..], b[1..]);
      if a[1..] == b[1..] { assert a == [a[0]] + a[1..] && b == [b[0]] + b[1..]; }
    }
  }

  lemma {:induction false} BytesAsymmetric(a: seq<Byte>, b: seq<Byte>)
    ensures !(BytesLess(a, b) && BytesLess(b, a)) && !BytesLess(a, a)
    decreases |a|
  {
    if |a| > 0 {
      BytesAsymmetric(a[1..], a[1..]);
      if |b| > 0 { BytesAsymmetric(a[1..], b[1..]); }
    }
  }

  /** The first difference decides. */
  lemma {:induction false} DifferAt(a: seq<Byte>, b: seq<Byte>, i: nat)
    requires i < |a| && i < |b| && a[..i] == b[..i] && a[i] != b[i]
    ensures BytesLess(a, b) <==> a[i] < b[i]
  {
    if i > 0 {
      assert a[0] == a[..i][0] == b[..i][0] == b[0];
      assert a[1..][..i - 1] == a[..i][1..] && b[1..][..i - 1] == b[..i][1..];
      DifferAt(a[1..], b[1..], i - 1);
    }
  }

  /** `d` is where two strings first differ, or where the shorter ends. */
  predicate FirstDifference(a: seq<Byte>, b: seq<Byte>, d: nat) {
    d <= |a| && d <= |b| && a[..d] == b[..d] && (d < |a| && d < |b| ==> a[d] != b[d])
  }

  lemma {:induction false} OneFirstDifference(a: seq<Byte>, b: seq<Byte>, d: nat, e: nat)
    requires FirstDifference(a, b, d) && FirstDifference(a, b, e) && (d == |a| || d == |b| || a[d] != b[d])
    ensures d == e
  {
    assert forall i :: 0 <= i < d ==> a[i] == a[..d][i] == b[..d][i] == b[i];
    assert forall i :: 0 <= i < e ==> a[i] == a[..e][i] == b[..e][i] == b[i];
  }

  /** FindShortestSeparator: cut after the first difference where a byte fits in
      between there, and then strictly between; otherwise unchanged. */
  method FindShortestSeparator(start: seq<Byte>, limit: seq<Byte>) returns (r: seq<Byte>)
    ensures r == start || (|r| <= |start| && BytesLess(start, r) && BytesLess(r, limit))
    ensures forall d: nat :: FirstDifference(start, limit, d) ==>
              if d < |start| && d < |limit| && (start[d] as int) + 1 < limit[d] then |r| == d + 1 else r == start
  {
    r := start;
    var minLength := if |start| < |limit| then |start| else |limit|;
    var diffIndex := 0;
    while diffIndex < minLength && start[diffIndex] == limit[diffIndex]
      invariant diffIndex <= minLength && start[..diffIndex] == limit[..diffIndex]
    {
      assert start[..diffIndex + 1] == start[..diffIndex] + [start[diffIndex]];
      assert limit[..diffIndex + 1] == limit[..diffIndex] + [limit[diffIndex]];
      diffIndex := diffIndex + 1;
    }
    forall d: nat | FirstDifference(start, limit, d) ensures d == diffIndex {
      OneFirstDifference(start, limit, d, diffIndex);
    }
    if diffIndex >= minLength {
      // one is a prefix of the other
    } else {
      var diffByte := start[diffIndex];
      if diffByte < 255 && diffByte + 1 < limit[diffIndex] {
        r := start[..diffIndex] + [diffByte + 1];
        assert r[..diffIndex] == start[..diffIndex];
        DifferAt(start, r, diffIndex);
        DifferAt(r, limit, diffIndex);
      }
    }
  }

  /** FindShortSuccessor: unchanged, or no longer and larger. */
  method FindShortSuccessor(key: seq<Byte>) returns (r: seq<Byte>)
    ensures r == key || (|r| <= |key| && BytesLess(key, r))
    ensures r == key <==> forall i :: 0 <= i < |key| ==> key[i] == 255
  {
    for i := 0 to |key|
      invariant forall j :: 0 <= j < i ==> key[j] == 255
    {
      if key[i] != 255 {
        r := key[..i] + [key[i] + 1];
        assert r[..i] == key[..i];
        DifferAt(key, r, i);
        BytesAsymmetric(key, r);
        return;
      }
    }
    return key;
  }

  // ----- InternalKeyComparator -----

  /** A sequence number and a type in 64 bits. */
  type PackedNumber = n: nat | n < 0x1_0000_0000_0000_0000

  /** An internal key as tables see it: a user key and the packed sequence and type. */
  datatype TableKey = TableKey(user: seq<Byte>, number: PackedNumber)

  /** PackSequenceAndType(kMaxSequenceNumber, kValueTypeForSeek) */
  const FIRST_NUMBER: PackedNumber := 0xFFFF_FFFF_FFFF_FF01

  /** Ascending user keys, then descending numbers. */
  predicate KeyLess(a: TableKey, b: TableKey) {
    BytesLess(a.user, b.user) || (a.user == b.user && a.number > b.number)
  }

  lemma {:induction false} KeyTransitive(a: TableKey, b: TableKey, c: TableKey)
    requires KeyLess(a, b) && KeyLess(b, c)
    ensures KeyLess(a, c)
  {
    if BytesLess(a.user, b.user) && BytesLess(b.user, c.user) { BytesTransitive(a.user, b.user, c.user); }
  }

  lemma {:induction false} KeyTotal(a: TableKey, b: TableKey)
    ensures a == b || KeyLess(a, b) || KeyLess(b, a)
    ensures !(KeyLess(a, b) && KeyLess(b, a))
  {
    BytesTotal(a.user, b.user);
    BytesAsymmetric(a.user, b.user);
    BytesAsymmetric(b.user, a.user);
  }

  /** What an index key between two blocks must be: the last key of the one, or a
      key whose user key is strictly between. */
  ghost predicate Separates(start: TableKey, limit: TableKey, s: TableKey) {
    s == start || (BytesLess(start.user, s.user) && BytesLess(s.user, limit.user))
  }

  ghost predicate Succeeds(start: TableKey, s: TableKey) {
    s == start || BytesLess(start.user, s.user)
  }

  method FindInternalSeparator(start: TableKey, limit: TableKey) returns (r: TableKey)
    ensures Separates(start, limit, r)
    ensures r != start ==> |r.user| < |start.user| && r.number == FIRST_NUMBER
  {
    r := start;
    var tmp := FindShortestSeparator(start.user, limit.user);
    if |tmp| < |start.user| && BytesLess(start.user, tmp) {
      r := TableKey(tmp, FIRST_NUMBER);
    }
  }

  method FindInternalSuccessor(key: TableKey) returns (r: TableKey)
    ensures Succeeds(key, r)
    ensures r != key ==> |r.user| < |key.user| && r.number == FIRST_NUMBER
  {
    r := key;
    var tmp := FindShortSuccessor(key.user);
    if |tmp| < |key.user| && BytesLess(key.user, tmp) {
      r := TableKey(tmp, FIRST_NUMBER);
    }
  }

  /** A separator is at or after the last key of its block and, unless the block
      boundary falls inside one user key's entries, before every key of the next
      block's first user key. */
  lemma {:induction false} SeparatorBetween(start: TableKey, limit: TableKey, s: TableKey)
    requires KeyLess(start, limit) && Separates(start, limit, s)
    ensures s == start || KeyLess(start, s)
    ensures KeyLess(s, limit)
    ensures forall k: TableKey :: k.user == limit.user && KeyLess(start, k) ==> KeyLess(s, k)
  {
  }
}
