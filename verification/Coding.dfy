/** Integers as bytes (util/coding.h, util/coding.cc). */
module Coding {
  type Byte = b: int | 0 <= b < 256
  type Word = w: int | 0 <= w < 0x1_0000_0000

  // ----- fixed-width integers -----

  function EncodeFixed32(w: Word): (r: seq<Byte>)
    ensures |r| == 4
  {
    [w % 256, w / 256 % 256, w / 65536 % 256, w / 16777216]
  }

  function DecodeFixed32(s: seq<Byte>): Word
    requires |s| >= 4
  {
    s[0] as int + 256 * s[1] as int + 65536 * s[2] as int + 16777216 * s[3] as int
  }

  lemma {:induction false} Fixed32RoundTrip(w: Word, rest: seq<Byte>)
    ensures DecodeFixed32(EncodeFixed32(w) + rest) == w
  {
    var a, b := w / 256, w / 65536;
    assert w == 256 * a + w % 256;
    assert b == a / 256 && a == 256 * b + a % 256;
    assert w / 16777216 == b / 256 && b == 256 * (b / 256) + b % 256;
  }

  // ----- variable-width integers -----

  /** Seven bits a byte, lowest first; the top bit says that more follow. */
  function Varint(v: nat): (r: seq<Byte>)
    ensures |r| >= 1 && (r[0] < 128 <==> v < 128)
  {
    if v < 128 then [v] else [v % 128 + 128] + Varint(v / 128)
  }

  /** EncodeVarint32: a branch for each length. */
  function EncodeVarint32(v: Word): seq<Byte> {
    if v < 0x80 then [v]
    else if v < 0x4000 then [v % 128 + 128, v / 0x80]
    else if v < 0x20_0000 then [v % 128 + 128, v / 0x80 % 128 + 128, v / 0x4000]
    else if v < 0x1000_0000 then [v % 128 + 128, v / 0x80 % 128 + 128, v / 0x4000 % 128 + 128, v / 0x20_0000]
    else [v % 128 + 128, v / 0x80 % 128 + 128, v / 0x4000 % 128 + 128, v / 0x20_0000 % 128 + 128, v / 0x1000_0000]
  }

  lemma {:induction false} EncodeVarint32Is(v: Word)
    ensures EncodeVarint32(v) == Varint(v)
  {
    var a, b, c, d := v / 0x80, v / 0x4000, v / 0x20_0000, v / 0x1000_0000;
    assert b == a / 128 && c == b / 128 && d == c / 128;
    if v >= 0x80 {
      assert Varint(v) == [v % 128 + 128] + Varint(a);
      if v >= 0x4000 {
        assert Varint(a) == [a % 128 + 128] + Varint(b);
        if v >= 0x20_0000 {
          assert Varint(b) == [b % 128 + 128] + Varint(c);
          if v >= 0x1000_0000 {
            assert Varint(c) == [c % 128 + 128] + Varint(d);
          }
        }
      }
    }
  }

  /** EncodeVarint64 */
  method EncodeVarint64(value: nat) returns (dst: seq<Byte>)
    ensures dst == Varint(value)
  {
    dst := [];
    var v := value;
    while v >= 128
      invariant dst + Varint(v) == Varint(value)
    {
      assert dst + ([v % 128 + 128] + Varint(v / 128)) == (dst + [v % 128 + 128]) + Varint(v / 128);
      dst := dst + [v % 128 + 128];
      v := v / 128;
    }
    dst := dst + [v];
  }

  /** The bytes from `p` on begin with the encoding of `v`. */
  predicate VarintAt(data: seq<Byte>, p: nat, limit: nat, v: nat) {
    p + |Varint(v)| <= limit <= |data| && data[p..p + |Varint(v)|] == Varint(v)
  }

  lemma {:induction false} VarintBegins(data: seq<Byte>, p: nat, limit: nat, v: nat)
    requires VarintAt(data, p, limit, v)
    ensures if v < 128 then data[p] == v && |Varint(v)| == 1
            else data[p] == v % 128 + 128 && VarintAt(data, p + 1, limit, v / 128) && |Varint(v)| == 1 + |Varint(v / 128)|
  {
    assert data[p] == data[p..p + |Varint(v)|][0];
    if v >= 128 {
      assert data[p + 1..p + |Varint(v)|] == data[p..p + |Varint(v)|][1..];
    }
  }

  /** 2 to the power 7 * n */
  function Scale(n: nat): (r: nat)
    ensures r > 0
  {
    if n == 0 then 1 else 128 * Scale(n - 1)
  }

  /** After `n` bytes of the encoding of `v`, read into `result`: `left` stands at `q`. */
  ghost predicate Reading(data: seq<Byte>, q: nat, limit: nat, v: nat, result: nat, left: nat, n: nat, end: nat) {
    v == result + left * Scale(n) && VarintAt(data, q, limit, left) && q + |Varint(left)| == end
  }

  lemma {:induction false} ReadingOn(data: seq<Byte>, q: nat, limit: nat, v: nat, result: nat, left: nat, n: nat,
      end: nat)
    requires Reading(data, q, limit, v, result, left, n, end)
    ensures q < limit <= |data|
    ensures if left < 128 then data[q] == left && q + 1 == end
            else data[q] == left % 128 + 128 && Reading(data, q + 1, limit, v, result + left % 128 * Scale(n), left / 128, n + 1, end)
  {
    hide Varint;
    VarintBegins(data, q, limit, left);
    SplitProduct(left, Scale(n));
  }

  lemma {:induction false} SplitProduct(left: nat, scale: nat)
    ensures left * scale == left % 128 * scale + left / 128 * (128 * scale)
  {
    var a, b := left / 128, left % 128;
    assert left == 128 * a + b;
    assert left * scale == (128 * a) * scale + b * scale;
    assert (128 * a) * scale == a * (128 * scale);
  }

  /** Seven bits of a varint in their place: (byte & 0x7F) << (7 * n). */
  function Part(byte: Byte, n: nat): nat { byte % 128 * Scale(n) }

  /** The bits read so far and those of one more byte do not overflow. */
  lemma {:induction false} PartFits(v: nat, result: nat, left: nat, scale: nat, part: nat)
    requires v == result + left * scale && part == left % 128 * scale
    ensures result + part <= v && (left < 128 ==> result + part == v)
  {
    SplitProduct(left, scale);
    if left < 128 { assert left % 128 == left; }
  }

  /** One more byte of a varint. */
  lemma {:induction false} NextPart(data: seq<Byte>, q: nat, limit: nat, v: nat, result: nat, left: nat, n: nat, end: nat)
    requires Reading(data, q, limit, v, result, left, n, end)
    ensures q < limit <= |data| && result + Part(data[q], n) <= v
    ensures if left < 128 then data[q] < 128 && result + Part(data[q], n) == v && q + 1 == end
            else data[q] >= 128 && Reading(data, q + 1, limit, v, result + Part(data[q], n), left / 128, n + 1, end)
  {
    hide VarintAt, Varint, Scale;
    ReadingOn(data, q, limit, v, result, left, n, end);
    PartFits(v, result, left, Scale(n), left % 128 * Scale(n));
    assert data[q] % 128 == left % 128;
  }

  lemma {:induction false} StartReadingAt(data: seq<Byte>, p: nat, limit: nat, v: nat)
    requires VarintAt(data, p, limit, v)
    ensures Reading(data, p, limit, v, 0, v, 0, p + |Varint(v)|)
  {
    hide Varint, VarintAt;
    ScaleOfZero();
  }

  /** GetVarint32PtrFallback; `ok` is false where it returns nullptr. */
  method GetVarint32Ptr(data: seq<Byte>, p: nat, limit: nat, ghost v: nat) returns (ok: bool, value: Word, q: nat)
    requires limit <= |data|
    ensures ok ==> p < q <= limit
    ensures v < 0x1_0000_0000 && VarintAt(data, p, limit, v) ==> ok && value == v && q == p + |Varint(v)|
  {
    hide VarintAt, Varint, Scale, Reading, Part;
    ghost var good, left: nat, end := v < 0x1_0000_0000 && VarintAt(data, p, limit, v), v, p + |Varint(v)|;
    if good { StartReadingAt(data, p, limit, v); }
    var result: nat := 0;
    var n := 0;
    q := p;
    while n <= 4 && q < limit
      invariant 0 <= n <= 5 && (n == 0 ==> q == p) && (n > 0 ==> p < q <= limit)
      invariant good ==> Reading(data, q, limit, v, result, left, n, end) && (n > 0 ==> left > 0)
      decreases 5 - n
    {
      if good { NextPart(data, q, limit, v, result, left, n, end); }
      var byte := data[q];
      result := (result + Part(byte, n)) % 0x1_0000_0000;
      q := q + 1;
      if byte < 128 {
        return true, result, q;
      }
      n := n + 1;
      left := left / 128;
    }
    if good {
      NextPart(data, q, limit, v, result, left, n, end);
      FiveBytes(data, q, limit, v, result, left, end);
    }
    return false, 0, q;
  }

  const UINT64: nat := 0x1_0000_0000_0000_0000

  /** GetVarint64Ptr; `ok` is false where it returns nullptr. */
  method GetVarint64Ptr(data: seq<Byte>, p: nat, limit: nat, ghost v: nat) returns (ok: bool, value: nat, q: nat)
    requires limit <= |data|
    ensures ok ==> p < q <= limit && value < UINT64
    ensures v < UINT64 && VarintAt(data, p, limit, v) ==> ok && value == v && q == p + |Varint(v)|
  {
    hide VarintAt, Varint, Scale, Reading, Part;
    ghost var good, left: nat, end := v < UINT64 && VarintAt(data, p, limit, v), v, p + |Varint(v)|;
    if good { StartReadingAt(data, p, limit, v); }
    value := 0;
    var n := 0;
    q := p;
    while n <= 9 && q < limit
      invariant 0 <= n <= 10 && (n == 0 ==> q == p) && (n > 0 ==> p < q <= limit) && value < UINT64
      invariant good ==> Reading(data, q, limit, v, value, left, n, end) && (n > 0 ==> left > 0)
      decreases 10 - n
    {
      if good { NextPart(data, q, limit, v, value, left, n, end); }
      var byte := data[q];
      value := (value + Part(byte, n)) % UINT64;
      q := q + 1;
      if byte < 128 {
        return true, value, q;
      }
      n := n + 1;
      left := left / 128;
    }
    if good {
      NextPart(data, q, limit, v, value, left, n, end);
      TenBytes(data, q, limit, v, value, left, end);
    }
    return false, 0, q;
  }

  lemma {:induction false} TenBytes(data: seq<Byte>, q: nat, limit: nat, v: nat, result: nat, left: nat, end: nat)
    requires v < UINT64 && Reading(data, q, limit, v, result, left, 10, end)
    ensures left == 0
  {
    hide VarintAt, Varint;
    assert Scale(10) == 0x40_0000_0000_0000_0000 by {
      assert Scale(1) == 128 && Scale(2) == 16384 && Scale(3) == 2097152 && Scale(4) == 268435456;
      assert Scale(5) == 0x8_0000_0000 && Scale(6) == 0x400_0000_0000 && Scale(7) == 0x2_0000_0000_0000;
      assert Scale(8) == 0x100_0000_0000_0000 && Scale(9) == 0x8000_0000_0000_0000;
    }
  }

  lemma {:induction false} ScaleOfZero()
    ensures Scale(0) == 1
  {
  }

  lemma {:induction false} FiveBytes(data: seq<Byte>, q: nat, limit: nat, v: nat, result: nat, left: nat, end: nat)
    requires v < 0x1_0000_0000 && Reading(data, q, limit, v, result, left, 5, end)
    ensures left == 0
  {
    hide VarintAt, Varint;
    assert Scale(5) == 128 * 128 * 128 * 128 * 128 by {
      assert Scale(1) == 128 && Scale(2) == 16384 && Scale(3) == 2097152 && Scale(4) == 268435456;
    }
  }
}
