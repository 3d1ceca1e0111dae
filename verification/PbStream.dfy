/** Input streams and the primitive decoders (nanopb: pb_decode.c). */
module PbStream {
  import opened Coding
  import opened PbFormat

  predicate Begins(rest: seq<Byte>, e: seq<Byte>) { |e| <= |rest| && rest[..|e|] == e }

  lemma {:induction false} BeginsParts(rest: seq<Byte>, e: seq<Byte>, f: seq<Byte>)
    requires Begins(rest, e + f)
    ensures Begins(rest, e) && Begins(rest[|e|..], f) && rest[|e|..][|f|..] == rest[|e + f|..]
  {
    assert rest[..|e|] == rest[..|e + f|][..|e|] == e;
    assert rest[|e|..][..|f|] == rest[..|e + f|][|e|..] == f;
  }

  lemma {:induction false} DelimitedBegins(rest: seq<Byte>, e: seq<Byte>)
    requires Begins(rest, Delimited(e))
    ensures Begins(rest, Varint(|e|)) && |Varint(|e|)| <= |rest|
  {
    hide Varint;
    BeginsParts(rest, Varint(|e|), e);
  }

  /** Behind the length come the bytes, and then what follows. */
  lemma {:induction false} BehindLength(rest: seq<Byte>, e: seq<Byte>, data: seq<Byte>, p: nat, end: nat)
    requires Begins(rest, Delimited(e)) && p <= end <= |data|
    requires |Varint(|e|)| <= |rest| && data[p..end] == rest[|Varint(|e|)|..]
    ensures p + |e| <= end && data[p..p + |e|] == e && data[p + |e|..end] == rest[|Delimited(e)|..]
  {
    hide Varint;
    BeginsParts(rest, Varint(|e|), e);
    assert data[p..p + |e|] == data[p..end][..|e|];
    assert data[p + |e|..end] == data[p..end][|e|..];
  }

  lemma {:induction false} BeginsVarint(data: seq<Byte>, p: nat, limit: nat, v: nat)
    requires p <= limit <= |data| && Begins(data[p..limit], Varint(v))
    ensures VarintAt(data, p, limit, v)
    ensures data[p..limit][|Varint(v)|..] == data[p + |Varint(v)|..limit]
  {
    hide Varint;
    assert data[p..p + |Varint(v)|] == data[p..limit][..|Varint(v)|];
  }

  lemma {:induction false} Scale4()
    ensures Scale(0) == 1 && Scale(1) == 0x80 && Scale(4) == 0x1000_0000
  {
    assert Scale(1) == 128 && Scale(2) == 16384 && Scale(3) == 2097152;
  }

  lemma {:induction false} FifthPart(v: nat, result: nat, left: nat)
    requires v < UINT32 && v == result + left * Scale(4)
    ensures left < 16
  {
    Scale4();
  }

  /** One more byte of a varint. */
  lemma {:induction false} Step(data: seq<Byte>, q: nat, limit: nat, v: nat, result: nat, left: nat, n: nat, end: nat)
    requires Reading(data, q, limit, v, result, left, n, end)
    ensures q < limit <= |data| && result + Part(data[q], n) <= v
    ensures if left < 128 then data[q] < 128 && result + Part(data[q], n) == v && q + 1 == end
            else data[q] >= 128 && Reading(data, q + 1, limit, v, result + Part(data[q], n), left / 128, n + 1, end)
    ensures n == 4 && v < UINT32 ==> left < 16
    ensures n == 4 && v < UINT32 && left < 128 ==> data[q] < 16
    ensures n == 10 && v < UINT64 ==> left == 0
  {
    hide VarintAt, Varint, Scale;
    NextPart(data, q, limit, v, result, left, n, end);
    ReadingOn(data, q, limit, v, result, left, n, end);
    if n == 4 && v < UINT32 { FifthPart(v, result, left); }
    if n == 10 && v < UINT64 { TenBytes(data, q, limit, v, result, left, end); }
  }

  /** A varint's reading begins. */
  lemma {:induction false} StartReading(data: seq<Byte>, p: nat, limit: nat, v: nat)
    requires p <= limit <= |data| && Begins(data[p..limit], Varint(v))
    ensures Reading(data, p, limit, v, 0, v, 0, p + |Varint(v)|)
    ensures data[p..limit][|Varint(v)|..] == data[p + |Varint(v)|..limit]
  {
    hide Varint;
    BeginsVarint(data, p, limit, v);
    Scale4();
  }

  // ----- what pb_decode_varint32_eof takes -----

  /** Seven-bit group `i` of a number. */
  function Group(v: nat, i: nat): nat { v / Scale(i) % 128 }

  /** A group above the 32 bits that is zero or continues a negative sign. */
  predicate Extends(v: nat, i: nat) {
    Group(v, i) == 0 || (Group(v, i) == 127 && v % UINT32 >= 0x8000_0000)
  }

  /** The numbers accepted: those of 32 bits, and ten-byte ones that end a negative sign in
      bit 63.  Bits 32 to 34 are not looked at there. */
  predicate Fits32(v: nat) {
    v < UINT32 || (v % UINT32 >= 0x8000_0000 && v / Scale(9) == 1 && forall i :: 5 <= i < 9 ==> Extends(v, i))
  }

  lemma {:induction false} MoreTimes(d: nat, q: nat, m: nat)
    requires d < q
    ensures d * m + m <= q * m
  {
    assert q * m == d * m + m + (q - d - 1) * m;
  }

  lemma {:induction false} DivisionIs(v: nat, rest: nat, q: nat, m: nat)
    requires v == rest + q * m && rest < m
    ensures v / m == q && v % m == rest
  {
    var d, r := v / m, v % m;
    assert v == d * m + r;
    if d < q { MoreTimes(d, q, m); }
    if q < d { MoreTimes(q, d, m); }
  }

  lemma {:induction false} GroupSum(v: nat, low: nat, left: nat, m: nat)
    requires v == low + left * m && low < m
    ensures low + left % 128 * m < 128 * m && v / (128 * m) == left / 128
  {
    var g, h := left % 128, left / 128;
    MoreTimes(g, 128, m);
    SplitProduct(left, m);
    DivisionIs(v, low + g * m, h, 128 * m);
  }

  lemma {:induction false} NextScale(n: nat)
    ensures Scale(n + 1) == 128 * Scale(n)
  {
  }

  /** `n` groups of `v` are read; the bits of 32 are in `value`. */
  ghost predicate Reads32(data: seq<Byte>, q: nat, limit: nat, v: nat, value: nat, low: nat, left: nat, n: nat, end: nat) {
    && Reading(data, q, limit, v, low, left, n, end) && low < Scale(n) && left == v / Scale(n)
    && value == (if n < 5 then low else v % UINT32)
    && forall i :: 5 <= i < n ==> Extends(v, i)
  }

  lemma {:induction false} StartReads32(data: seq<Byte>, p: nat, limit: nat, v: nat)
    requires p <= limit <= |data| && Begins(data[p..limit], Varint(v))
    ensures Reads32(data, p, limit, v, 0, 0, v, 0, p + |Varint(v)|)
  {
    hide Varint, Reading;
    StartReading(data, p, limit, v);
    Scale4();
  }

  /** The next group, wherever it is. */
  lemma {:induction false} NextGroup(data: seq<Byte>, q: nat, limit: nat, v: nat, value: nat, low: nat, left: nat, n: nat,
      end: nat)
    requires Reads32(data, q, limit, v, value, low, left, n, end)
    ensures q < limit <= |data| && data[q] % 128 == Group(v, n) && (data[q] < 128 <==> left < 128)
    ensures low + Part(data[q], n) < Scale(n + 1)
    ensures left < 128 ==> low + Part(data[q], n) == v && q + 1 == end && data[q] == left
    ensures left >= 128 ==> Reading(data, q + 1, limit, v, low + Part(data[q], n), left / 128, n + 1, end)
    ensures left / 128 == v / Scale(n + 1)
  {
    hide VarintAt, Varint, Scale;
    NextPart(data, q, limit, v, low, left, n, end);
    ReadingOn(data, q, limit, v, low, left, n, end);
    NextScale(n);
    GroupSum(v, low, left, Scale(n));
    assert data[q] % 128 == left % 128;
  }

  /** A group among the first five. */
  lemma {:induction false} LowGroup(data: seq<Byte>, q: nat, limit: nat, v: nat, value: nat, low: nat, left: nat, n: nat,
      end: nat)
    requires Reads32(data, q, limit, v, value, low, left, n, end) && n < 5
    ensures q < limit <= |data| && (data[q] < 128 <==> left < 128) && (left < 128 ==> q + 1 == end && data[q] == left)
    ensures left < 128 ==> (value + Part(data[q], n)) % UINT32 == v % UINT32 && (n < 4 ==> v < UINT32)
    ensures left < 128 && n == 4 ==> (data[q] / 16 % 8 != 0 <==> v >= UINT32) && v / Scale(9) == 0
    ensures left >= 128 ==>
      Reads32(data, q + 1, limit, v, (value + Part(data[q], n)) % UINT32, low + Part(data[q], n), left / 128, n + 1, end)
  {
    hide Reading, Part, Scale, VarintAt, Varint, Group;
    NextGroup(data, q, limit, v, value, low, left, n, end);
    LowScales(n);
    if left < 128 {
      if n == 4 { FifthGroup(v, low, left, data[q]); }
    } else if n == 4 {
      ReadingSum(data, q + 1, limit, v, low + Part(data[q], n), left / 128, 5, end);
      LowBits(v, low + Part(data[q], n), left / 128);
    }
  }

  lemma {:induction false} LowScales(n: nat)
    requires n < 5
    ensures n < 4 ==> Scale(n + 1) <= 0x1000_0000
    ensures n == 4 ==> Scale(n + 1) == 0x8_0000_0000
  {
    assert Scale(1) == 128 && Scale(2) == 16384 && Scale(3) == 2097152 && Scale(4) == 268435456;
  }

  lemma {:induction false} LowBits(v: nat, low: nat, left: nat)
    ensures v == low + left * 0x8_0000_0000 ==> low % UINT32 == v % UINT32
  {
    if v == low + left * 0x8_0000_0000 {
      var q, r := low / UINT32, low % UINT32;
      assert low == UINT32 * q + r;
      RemainderIs(v, q + 8 * left, r);
    }
  }

  lemma {:induction false} RemainderIs(v: nat, q: nat, r: nat)
    requires v == UINT32 * q + r && r < UINT32
    ensures v % UINT32 == r
  {
    var d := v / UINT32 - q;
    assert v % UINT32 == r - UINT32 * d;
    assert d == 0;
  }

  lemma {:induction false} ReadingSum(data: seq<Byte>, q: nat, limit: nat, v: nat, low: nat, left: nat, n: nat, end: nat)
    requires Reading(data, q, limit, v, low, left, n, end)
    ensures v == low + left * Scale(n)
  {
    hide VarintAt, Varint, Scale;
  }

  lemma {:induction false} FifthGroup(v: nat, low: nat, left: nat, byte: Byte)
    requires byte == left < 128 && v == low + Part(byte, 4) && low < Scale(4)
    ensures (byte / 16 % 8 != 0 <==> v >= UINT32) && v / Scale(9) == 0
  {
    Scale4();
    assert v == low + left * 0x1000_0000 < 128 * 0x1000_0000;
    BigScales();
  }

  lemma {:induction false} BigScales()
    ensures Scale(9) == 0x8000_0000_0000_0000 && Scale(5) == 0x8_0000_0000
    ensures forall n :: 5 <= n < 9 ==> Scale(n) >= 0x8_0000_0000 && 128 * Scale(n) <= Scale(9)
  {
    assert Scale(1) == 128 && Scale(2) == 16384 && Scale(3) == 2097152 && Scale(4) == 268435456;
    assert Scale(5) == 0x8_0000_0000 && Scale(6) == 0x400_0000_0000 && Scale(7) == 0x2_0000_0000_0000;
    assert Scale(8) == 0x100_0000_0000_0000 && Scale(9) == 0x8000_0000_0000_0000;
    forall n | 5 <= n < 9 ensures Scale(n) >= 0x8_0000_0000 && 128 * Scale(n) <= Scale(9) {
      assert n == 5 || n == 6 || n == 7 || n == 8;
    }
  }

  lemma {:induction false} Small(v: nat)
    ensures v < UINT32 ==> Fits32(v) && v % UINT32 == v
    ensures v >= UINT32 && v / Scale(9) == 0 ==> !Fits32(v)
  {
    hide Scale;
  }

  /** A group above the first five: it must extend the sign. */
  lemma {:induction false} HighGroup(data: seq<Byte>, q: nat, limit: nat, v: nat, value: nat, low: nat, left: nat, n: nat,
      end: nat)
    requires Reads32(data, q, limit, v, value, low, left, n, end) && n >= 5 && v < UINT64 && left > 0
    ensures q < limit <= |data| && n <= 9 && (data[q] < 128 <==> left < 128)
    ensures var sign := if 7 * n < 63 then 0xFF else 0x01;
            if data[q] % 0x80 != 0 && (value < 0x8000_0000 || data[q] != sign) then !Fits32(v)
            else if left < 128 then Fits32(v) && q + 1 == end && n == 9
            else Reads32(data, q + 1, limit, v, value, low + Part(data[q], n), left / 128, n + 1, end)
  {
    hide Reading, Part, VarintAt, Varint, Scale, Group;
    NextGroup(data, q, limit, v, value, low, left, n, end);
    ReadingSum(data, q, limit, v, low, left, n, end);
    TopGroups(v, low, left, n);
    if n < 9 && left >= 128 {
      assert data[q] == Group(v, n) + 128;
      if Group(v, n) != 0 && (value < 0x8000_0000 || Group(v, n) != 127) { assert !Extends(v, n); }
    }
  }

  /** Those are the groups of a number above 32 bits, and the last one is the tenth. */
  lemma {:induction false} SignGroups(data: seq<Byte>, q: nat, limit: nat, v: nat, value: nat, low: nat, left: nat, n: nat,
      end: nat)
    requires Reads32(data, q, limit, v, value, low, left, n, end) && n >= 5
    ensures value == v % UINT32
  {
    hide Reading, Scale, Extends;
  }

  lemma {:induction false} TopGroups(v: nat, low: nat, left: nat, n: nat)
    requires v == low + left * Scale(n) && low < Scale(n) && left == v / Scale(n) && left > 0 && n >= 5 && v < UINT64
    ensures n <= 9 && v >= UINT32 && (n == 9 ==> left == 1 && Group(v, 9) == 1)
    ensures n < 9 && left < 128 ==> v / Scale(9) == 0
  {
    hide Scale;
    BigScales();
    MoreTimes(0, left, Scale(n));
    if n >= 10 { TenScale(n); }
    if n < 9 && left < 128 { MoreTimes(left, 128, Scale(n)); }
  }

  lemma {:induction false} TenScale(n: nat)
    requires n >= 10
    ensures Scale(n) >= UINT64
  {
    BigScales();
    if n > 10 { TenScale(n - 1); }
  }

  lemma {:induction false} FirstPart(byte: Byte)
    ensures Part(byte, 0) == byte % 128
  {
    Scale4();
  }

  class IStream {
    const data: seq<Byte>
    var state: nat
    var bytesLeft: nat

    predicate Valid()
      reads this
    {
      state + bytesLeft <= |data|
    }

    function End(): nat
      reads this
    {
      state + bytesLeft
    }

    function Rest(): seq<Byte>
      requires Valid()
      reads this
    {
      data[state..state + bytesLeft]
    }

    lemma {:induction false} Extent()
      ensures Valid() <==> state + bytesLeft <= |data|
      ensures End() == state + bytesLeft && (Valid() ==> Rest() == data[state..state + bytesLeft])
    {
    }

    /** pb_istream_from_buffer */
    constructor (buf: seq<Byte>, at: nat, size: nat)
      requires at + size <= |buf|
      ensures Valid() && data == buf && state == at && bytesLeft == size
    {
      data, state, bytesLeft := buf, at, size;
    }

    /** pb_read */
    method Read(count: nat) returns (ok: bool, bytes: seq<Byte>)
      requires Valid()
      modifies this
      ensures Valid() && End() == old(End()) && ok == (count <= old(bytesLeft))
      ensures ok ==> bytesLeft == old(bytesLeft) - count
      ensures ok ==> bytes == old(Rest())[..count] && Rest() == old(Rest())[count..]
      ensures !ok ==> bytesLeft == old(bytesLeft)
    {
      if bytesLeft < count {
        return false, [];
      }
      bytes := data[state..state + count];
      state := state + count;
      bytesLeft := bytesLeft - count;
      return true, bytes;
    }

    /** pb_readbyte */
    method ReadByte() returns (ok: bool, byte: Byte)
      requires Valid()
      modifies this
      ensures Valid() && End() == old(End()) && ok == (old(bytesLeft) > 0)
      ensures ok ==> state == old(state) + 1 && byte == data[old(state)]
      ensures !ok ==> bytesLeft == old(bytesLeft)
    {
      if bytesLeft == 0 {
        return false, 0;
      }
      byte := data[state];
      state := state + 1;
      bytesLeft := bytesLeft - 1;
      return true, byte;
    }

    /** pb_decode_varint */
    method DecodeVarint(ghost v: nat) returns (ok: bool, value: nat)
      requires Valid()
      modifies this
      ensures Valid() && End() == old(End()) && bytesLeft <= old(bytesLeft) && value < UINT64
      ensures ok ==> bytesLeft < old(bytesLeft)
      ensures v < UINT64 && Begins(old(Rest()), Varint(v)) ==>
        ok && value == v && Rest() == old(Rest())[|Varint(v)|..]
    {
      hide Reading, Begins, VarintAt, Varint, Scale, Part;
      ghost var good, left: nat, end := v < UINT64 && Begins(Rest(), Varint(v)), v, state + |Varint(v)|;
      ghost var limit := state + bytesLeft;
      if good { StartReading(data, state, limit, v); }
      value := 0;
      var n := 0;
      while true
        invariant Valid() && End() == limit && limit == old(End()) && (n > 0 ==> state > old(state))
        invariant state >= old(state)
        invariant 0 <= n <= 10 && value < UINT64
        invariant good ==> Reading(data, state, limit, v, value, left, n, end) && (n > 0 ==> left > 0)
        decreases 10 - n
      {
        if good { Step(data, state, limit, v, value, left, n, end); }
        if 7 * n >= 64 {
          return false, value;
        }
        var byte: Byte;
        ok, byte := ReadByte();
        if !ok {
          return;
        }
        value := (value + Part(byte, n)) % UINT64;
        n := n + 1;
        if byte < 128 {
          return;
        }
        left := left / 128;
      }
    }

    /** One turn of the loop in pb_decode_varint32_eof: a byte, and whether it fits. */
    method NextOf32(value: Word, n: nat, ghost good: bool, ghost v: nat, ghost low: nat, ghost left: nat, ghost end: nat)
      returns (ok: bool, byte: Byte, fits: bool, value': Word)
      requires Valid() && n >= 1
      requires good ==> v < UINT64 && left > 0 && Reads32(data, state, End(), v, value, low, left, n, end)
      modifies this
      ensures Valid() && End() == old(End()) && (ok ==> bytesLeft < old(bytesLeft)) && bytesLeft <= old(bytesLeft)
      ensures good ==> ok && (byte < 0x80 <==> left < 128) && (!fits ==> !Fits32(v))
      ensures good && fits && left >= 128 ==>
        Reads32(data, state, End(), v, value', low + Part(byte, n), left / 128, n + 1, end)
      ensures good && fits && left < 128 ==> state == end && value' == v % UINT32
      ensures good && fits && left < 128 ==> (Fits32(v) <==> !(n == 4 && byte / 16 % 8 != 0))
    {
      hide Reads32, Part, Fits32, Scale;
      ghost var q := state;
      if good {
        Small(v);
        if n < 5 { LowGroup(data, q, End(), v, value, low, left, n, end); }
        else { HighGroup(data, q, End(), v, value, low, left, n, end); SignGroups(data, q, End(), v, value, low, left, n, end); }
      }
      fits, value' := true, value;
      ok, byte := ReadByte();
      if !ok {
        return;
      }
      if 7 * n >= 32 {
        var signExtension := if 7 * n < 63 then 0xFF else 0x01;
        fits := !(byte % 0x80 != 0 && (value < 0x8000_0000 || byte != signExtension));
      } else {
        value' := (value + Part(byte, n)) % UINT32;
      }
    }

    /** pb_decode_varint32_eof: of the 64-bit varints exactly those that fit are taken. */
    method DecodeVarint32Eof(ghost v: nat) returns (ok: bool, value: Word, eof: bool)
      requires Valid()
      modifies this
      ensures Valid() && End() == old(End()) && bytesLeft <= old(bytesLeft)
      ensures ok ==> bytesLeft < old(bytesLeft)
      ensures v < UINT64 && Begins(old(Rest()), Varint(v)) ==>
        (ok <==> Fits32(v)) && (ok ==> value == v % UINT32 && Rest() == old(Rest())[|Varint(v)|..])
    {
      hide Reads32, Begins, VarintAt, Varint, Scale, Part, Fits32, Reading;
      ghost var good, low: nat, left: nat, end := v < UINT64 && Begins(Rest(), Varint(v)), 0, v, state + |Varint(v)|;
      if good {
        StartReading(data, state, End(), v);
        StartReads32(data, state, End(), v);
        LowGroup(data, state, End(), v, 0, 0, v, 0, end);
        Small(v);
      }
      var byte: Byte;
      eof := false;
      ok, byte := ReadByte();
      if !ok {
        return false, 0, bytesLeft == 0;
      }
      FirstPart(byte);
      if byte < 0x80 {
        return true, byte, false;
      }
      value := byte % 0x80;
      var n := 1;
      low, left := Part(byte, 0), left / 128;
      var more := true;
      while more
        invariant Valid() && End() == old(End()) && bytesLeft < old(bytesLeft) && n >= 1
        invariant good && more ==> Reads32(data, state, End(), v, value, low, left, n, end) && left > 0
        invariant good && !more ==> state == end && value == v % UINT32 && (Fits32(v) <==> !(n == 5 && byte / 16 % 8 != 0))
        decreases more, bytesLeft
      {
        var fits;
        ok, byte, fits, value := NextOf32(value, n, good, v, low, left, end);
        if !ok || !fits {
          return false, value, eof;
        }
        low, left := low + Part(byte, n), left / 128;
        n := n + 1;
        more := byte >= 0x80;
      }
      ok := !(7 * n == 35 && byte / 16 % 8 != 0);
    }

    /** pb_decode_varint32 */
    method DecodeVarint32(ghost v: nat) returns (ok: bool, value: Word)
      requires Valid()
      modifies this
      ensures Valid() && End() == old(End()) && bytesLeft <= old(bytesLeft)
      ensures ok ==> bytesLeft < old(bytesLeft)
      ensures v < UINT32 && Begins(old(Rest()), Varint(v)) ==>
        ok && value == v && Rest() == old(Rest())[|Varint(v)|..]
    {
      hide Begins, Varint, Fits32;
      Small(v);
      var eof;
      ok, value, eof := DecodeVarint32Eof(v);
    }

    /** pb_decode_tag; tag 0 is left to the caller. */
    method DecodeTag(ghost t: nat, ghost w: nat) returns (ok: bool, wire: nat, tag: nat, eof: bool)
      requires Valid()
      modifies this
      ensures Valid() && End() == old(End()) && bytesLeft <= old(bytesLeft) && tag < 0x2000_0000
      ensures ok ==> bytesLeft < old(bytesLeft)
      ensures 0 < t < 0x2000_0000 && w < 8 && Begins(old(Rest()), TagBytes(t, w)) ==>
        ok && wire == w && tag == t && Rest() == old(Rest())[|TagBytes(t, w)|..]
    {
      hide Begins, Varint, Fits32;
      Small(8 * t + w);
      var temp;
      ok, temp, eof := DecodeVarint32Eof(8 * t + w);
      if !ok {
        return false, 0, 0, eof;
      }
      if temp == 0 { // a message may end with a zero
        return false, 0, 0, true;
      }
      return true, temp % 8, temp / 8, false;
    }

    /** pb_make_string_substream: afterwards this stream's `state` lags behind. */
    method MakeSubstream(ghost e: seq<Byte>) returns (ok: bool, sub: IStream)
      requires Valid()
      modifies this
      ensures Valid() && End() <= old(End()) && bytesLeft <= old(bytesLeft) && fresh(sub)
      ensures ok ==> sub.Valid() && sub.data == data && sub.End() + bytesLeft == old(End())
      ensures |e| < UINT32 && Begins(old(Rest()), Delimited(e)) ==>
        && ok && sub.Rest() == e
        && data[sub.End()..old(End())] == old(Rest())[|Delimited(e)|..]
    {
      hide *;
      ghost var rest := Rest();
      ghost var good := |e| < UINT32 && Begins(rest, Delimited(e));
      if good { DelimitedBegins(rest, e); }
      Extent();
      var size;
      ok, size := DecodeVarint32(|e|);
      Extent();
      if good { BehindLength(rest, e, data, state, state + bytesLeft); }
      sub := new IStream(data, state, 0);
      sub.Extent();
      if !ok || bytesLeft < size {
        return false, sub;
      }
      sub.bytesLeft := size;
      bytesLeft := bytesLeft - size;
      Extent();
      sub.Extent();
      return true, sub;
    }

    /** pb_close_string_substream */
    method CloseSubstream(sub: IStream)
      requires sub != this && sub.Valid() && sub.data == data && sub.End() + bytesLeft <= |data|
      modifies this, sub
      ensures Valid() && state == old(sub.End()) && bytesLeft == old(bytesLeft)
    {
      if sub.bytesLeft > 0 {
        var _, _ := sub.Read(sub.bytesLeft);
      }
      state := sub.state;
    }

    /** pb_skip_varint */
    method SkipVarint() returns (ok: bool)
      requires Valid()
      modifies this
      ensures Valid() && End() == old(End()) && bytesLeft <= old(bytesLeft)
    {
      while true
        invariant Valid() && End() == old(End()) && bytesLeft <= old(bytesLeft)
        decreases bytesLeft
      {
        var byte;
        ok, byte := ReadByte();
        if !ok || byte < 0x80 {
          return;
        }
      }
    }

    /** pb_skip_field */
    method SkipField(wire: nat) returns (ok: bool)
      requires Valid()
      modifies this
      ensures Valid() && End() == old(End()) && bytesLeft <= old(bytesLeft)
    {
      var skipped;
      if wire == 0 {
        ok := SkipVarint();
      } else if wire == 1 {
        ok, skipped := Read(8);
      } else if wire == 2 {
        var size;
        ok, size := DecodeVarint32(0);
        if ok {
          ok, skipped := Read(size);
        }
      } else if wire == 5 {
        ok, skipped := Read(4);
      } else {
        return false;
      }
    }
  }
}
