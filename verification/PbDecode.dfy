/** The decoder (nanopb: pb_decode.c). Whatever the bytes are, the message stays within
    the memory its descriptor reserves; an encoded message comes back as it was. */
module PbDecode {
  import opened Coding
  import opened PbFormat
  import opened PbIterator
  import opened PbMeaning
  import opened PbStream

  // ----- messages within their memory -----

  predicate Held(t: LType, v: Value)
    decreases t
  {
    match t
    case BytesType(n) => v.Bytes? && (|v.bytes| > 0 ==> |v.bytes| + 4 <= n)
    case StringType(n) => v.Bytes? && 0 !in v.bytes && (|v.bytes| > 0 ==> |v.bytes| < n)
    case SubmessageType(d) => v.Message? && HeldMessage(d, v.slots)
    case _ => ValueOk(t, v)
  }

  predicate HeldSlot(f: Field, s: Slot)
    decreases f
  {
    match f.htype
    case Required => s.One? && Held(f.ltype, s.value)
    case Optional(hasField) => (if hasField then s.Maybe? else s.One?) && Held(f.ltype, s.value)
    case Repeated(max, counted) =>
      && s.Many? && (if counted then |s.items| <= max else |s.items| == max)
      && forall i :: 0 <= i < |s.items| ==> Held(f.ltype, s.items[i])
    case Oneof => s.Which? && s.tag < UINT32 && (s.tag == f.tag ==> Held(f.ltype, s.value))
  }

  predicate HeldMessage(d: Descriptor, slots: seq<Slot>)
    decreases d
  {
    && |slots| == SlotCount(d)
    && forall i :: 0 <= i < |d.fields| ==> SlotOf(d, i) < |slots| && HeldSlot(d.fields[i], slots[SlotOf(d, i)])
  }

  lemma {:induction false} DefaultHeld(t: LType)
    ensures Held(t, DefaultValue(t))
    decreases t
  {
    if t.SubmessageType? { DefaultsHeld(t.message); }
  }

  lemma {:induction false} DefaultsHeld(d: Descriptor)
    ensures HeldMessage(d, Defaults(d))
    decreases d
  {
    forall i | 0 <= i < |d.fields|
      ensures SlotOf(d, i) < SlotCount(d) && HeldSlot(d.fields[i], Defaults(d)[SlotOf(d, i)])
    {
      SlotIsPlace(d, i);
      DefaultAt(d, |d.fields|, i);
      DefaultHeld(d.fields[i].ltype);
    }
  }

  /** A place rewritten for one field is fit for the others that share it. */
  lemma {:induction false} HeldUpdate(d: Descriptor, slots: seq<Slot>, k: nat, s: Slot)
    requires DescriptorOk(d) && HeldMessage(d, slots) && k < |d.fields| && HeldSlot(d.fields[k], s)
    requires d.fields[k].htype.Oneof? ==> s.tag == d.fields[k].tag
    ensures SlotOf(d, k) < |slots| && HeldMessage(d, slots[SlotOf(d, k) := s])
  {
    hide Held, DescriptorOk, SlotOf;
    SlotIsPlace(d, k);
    var after := slots[SlotOf(d, k) := s];
    forall i | 0 <= i < |d.fields|
      ensures SlotOf(d, i) < |after| && HeldSlot(d.fields[i], after[SlotOf(d, i)])
    {
      SlotIsPlace(d, i);
      if i != k && SlotOf(d, i) == SlotOf(d, k) {
        SharedSlot(d, i, k);
        TagsDiffer(d, i, k);
      }
    }
  }

  lemma {:induction false} TagsDiffer(d: Descriptor, i: nat, k: nat)
    requires DescriptorOk(d) && i < |d.fields| && k < |d.fields| && i != k
    ensures d.fields[i].tag != d.fields[k].tag
  {
    if i < k { assert d.fields[i].tag != d.fields[k].tag; } else { assert d.fields[k].tag != d.fields[i].tag; }
  }

  lemma {:induction false} TagsTell(d: Descriptor, i: nat, k: nat)
    requires DescriptorOk(d) && i < |d.fields| && k < |d.fields| && d.fields[i].tag == d.fields[k].tag
    ensures i == k
  {
    if i != k { TagsDiffer(d, i, k); }
  }

  // ----- integers: the casts of pb_dec_varint and its relatives -----

  function Signed(u: int, half: int): int { if u < half then u else u - 2 * half }

  /** Stored in a field of `size` bytes and read back. */
  function Narrow(size: nat, x: int): int
    requires SizeOk(size)
  {
    Signed(x % (2 * Half(size)), Half(size))
  }

  function Unzigzag(u: nat): int { if u % 2 == 1 then Signed(UINT64 - 1 - u / 2, Half(8)) else u / 2 }

  lemma {:induction false} IntsRoundTrip(size: nat, i: int)
    requires SizeOk(size) && -Half(size) <= i < Half(size)
    ensures (if size == 8 then Signed(Unsigned(i), Half(8)) else Signed(Unsigned(i) % UINT32, Half(4))) == i
    ensures Narrow(size, i) == i && Zigzag(i) < UINT64 && Unzigzag(Zigzag(i)) == i
  {
    hide Narrow, Unsigned, Signed, Zigzag, Unzigzag, Half;
    IntCast(size, i);
    NarrowIs(size, i);
    ZigzagBack(size, i);
  }

  lemma {:induction false} IntCast(size: nat, i: int)
    requires SizeOk(size) && -Half(size) <= i < Half(size)
    ensures (if size == 8 then Signed(Unsigned(i), Half(8)) else Signed(Unsigned(i) % UINT32, Half(4))) == i
  {
    hide Unsigned;
    UnsignedIs(i);
  }

  lemma {:induction false} ZigzagBack(size: nat, i: int)
    requires SizeOk(size) && -Half(size) <= i < Half(size)
    ensures Zigzag(i) < UINT64 && Unzigzag(Zigzag(i)) == i
  {
  }

  lemma {:induction false} UnsignedIs(i: int)
    requires -Half(8) <= i < Half(8)
    ensures Unsigned(i) == if i < 0 then i + UINT64 else i
    ensures -Half(4) <= i < Half(4) ==> Unsigned(i) % UINT32 == if i < 0 then i + UINT32 else i
  {
    if -Half(4) <= i < 0 { assert i + UINT64 == (UINT32 - 1) * UINT32 + (i + UINT32); }
  }

  lemma {:induction false} NarrowIs(size: nat, i: int)
    requires SizeOk(size) && -Half(size) <= i < Half(size)
    ensures Narrow(size, i) == i
  {
    var half := Half(size);
    if i < 0 { assert i % (2 * half) == i + 2 * half; } else { assert i % (2 * half) == i; }
  }

  lemma {:induction false} NarrowInRange(size: nat, x: int)
    requires SizeOk(size)
    ensures -Half(size) <= Narrow(size, x) < Half(size)
  {
  }

  // ----- values -----

  /** A value the decoder reads back. */
  ghost predicate Good(t: LType, v: Value) {
    TypeOk(t) && ValueOk(t, v) && CanEncode(t, v) && Readable(t, v) && |EncodeValue(t, v)| < UINT32
  }

  /** pb_dec_varint */
  method DecodeInt(s: IStream, size: nat, ghost i: int) returns (ok: bool, value: int)
    requires s.Valid()
    modifies s
    ensures s.Valid() && s.End() == old(s.End()) && s.bytesLeft <= old(s.bytesLeft)
    ensures ok ==> SizeOk(size) && -Half(size) <= value < Half(size)
    ensures SizeOk(size) && -Half(size) <= i < Half(size) && Begins(old(s.Rest()), Varint(Unsigned(i))) ==>
      ok && value == i && s.Rest() == old(s.Rest())[|Varint(Unsigned(i))|..]
  {
    hide Begins, Varint;
    var u;
    ok, u := s.DecodeVarint(Unsigned(i));
    if !ok || !SizeOk(size) {
      return false, 0;
    }
    var signed := if size == 8 then Signed(u, Half(8)) else Signed(u % UINT32, Half(4));
    value := Narrow(size, signed);
    NarrowInRange(size, signed);
    if -Half(size) <= i < Half(size) { IntsRoundTrip(size, i); }
    ok := value == signed;
  }

  /** pb_dec_svarint */
  method DecodeSInt(s: IStream, size: nat, ghost i: int) returns (ok: bool, value: int)
    requires s.Valid()
    modifies s
    ensures s.Valid() && s.End() == old(s.End()) && s.bytesLeft <= old(s.bytesLeft)
    ensures ok ==> SizeOk(size) && -Half(size) <= value < Half(size)
    ensures SizeOk(size) && -Half(size) <= i < Half(size) && Begins(old(s.Rest()), Varint(Zigzag(i))) ==>
      ok && value == i && s.Rest() == old(s.Rest())[|Varint(Zigzag(i))|..]
  {
    hide Begins, Varint;
    var u;
    ok, u := s.DecodeVarint(Zigzag(i));
    if !ok || !SizeOk(size) {
      return false, 0;
    }
    value := Narrow(size, Unzigzag(u));
    NarrowInRange(size, Unzigzag(u));
    if -Half(size) <= i < Half(size) { IntsRoundTrip(size, i); }
    ok := value == Unzigzag(u);
  }

  /** pb_dec_uvarint */
  method DecodeUInt(s: IStream, size: nat, ghost i: int) returns (ok: bool, value: int)
    requires s.Valid()
    modifies s
    ensures s.Valid() && s.End() == old(s.End()) && s.bytesLeft <= old(s.bytesLeft)
    ensures ok ==> SizeOk(size) && 0 <= value < 2 * Half(size)
    ensures SizeOk(size) && 0 <= i < 2 * Half(size) && Begins(old(s.Rest()), Varint(Unsigned(i))) ==>
      ok && value == i && s.Rest() == old(s.Rest())[|Varint(Unsigned(i))|..]
  {
    hide Begins, Varint;
    var u;
    ok, u := s.DecodeVarint(Unsigned(i));
    if !ok || !SizeOk(size) {
      return false, 0;
    }
    value := u % (2 * Half(size));
    ok := value == u;
  }

  lemma {:induction false} Fixed64RoundTrip(w: nat)
    requires w < UINT64
    ensures |EncodeFixed64(w)| == 8
    ensures DecodeFixed32(EncodeFixed64(w)[..4]) + UINT32 * DecodeFixed32(EncodeFixed64(w)[4..]) == w
  {
    var low, high := EncodeFixed32(w % UINT32), EncodeFixed32(w / UINT32 % UINT32);
    assert EncodeFixed64(w)[..4] == low + [] && EncodeFixed64(w)[4..] == high + [];
    Fixed32RoundTrip(w % UINT32, []);
    Fixed32RoundTrip(w / UINT32 % UINT32, []);
  }

  /** A C string ends before its first zero. */
  function UpToNul(bytes: seq<Byte>): (r: seq<Byte>)
    ensures |r| <= |bytes| && 0 !in r && (0 !in bytes ==> r == bytes)
  {
    if |bytes| == 0 || bytes[0] == 0 then [] else [bytes[0]] + UpToNul(bytes[1..])
  }

  /** The length and the bytes of a delimited value: pb_dec_bytes, pb_dec_string, pb_dec_fixed_length_bytes. */
  method DecodeBytes(s: IStream, t: LType, ghost b: seq<Byte>) returns (ok: bool, bytes: seq<Byte>)
    requires s.Valid() && (t.BytesType? || t.StringType? || t.FixedBytesType?)
    modifies s
    ensures s.Valid() && s.End() == old(s.End()) && s.bytesLeft <= old(s.bytesLeft)
    ensures ok ==> Held(t, Bytes(bytes))
    ensures (
      && |Delimited(b)| < UINT32 && Begins(old(s.Rest()), Delimited(b))
      && ValueOk(t, Bytes(b)) && CanEncode(t, Bytes(b)) && Readable(t, Bytes(b))) ==>
      ok && bytes == b && s.Rest() == old(s.Rest())[|Delimited(b)|..]
    ensures t.StringType? && |b| >= t.size && |b| < UINT32 && Begins(old(s.Rest()), Delimited(b)) ==> !ok
  {
    hide Varint, Begins, Delimited;
    if Begins(s.Rest(), Delimited(b)) { DelimitedParts(s.Rest(), b); }
    var size;
    ok, size := s.DecodeVarint32(|b|);
    if !ok {
      return false, [];
    }
    if t.FixedBytesType? && size == 0 {
      return true, seq(t.size, _ => 0);
    }
    var fits := if t.BytesType? then size + 4 <= t.size else if t.StringType? then size + 1 <= t.size else size == t.size;
    if !fits {
      return false, [];
    }
    ok, bytes := s.Read(size);
    if t.StringType? {
      bytes := UpToNul(bytes);
    }
  }

  lemma {:induction false} DelimitedParts(rest: seq<Byte>, b: seq<Byte>)
    requires Begins(rest, Delimited(b))
    ensures Begins(rest, Varint(|b|)) && |b| < |Delimited(b)|
    ensures |Varint(|b|)| <= |rest|
    ensures var tail := rest[|Varint(|b|)|..];
      |b| <= |tail| && tail[..|b|] == b && tail[|b|..] == rest[|Delimited(b)|..]
  {
    hide Varint;
    BeginsParts(rest, Varint(|b|), b);
  }

  /** pb_dec_bool, the integers and the fixed-width numbers */
  method DecodeNumber(s: IStream, t: LType, ghost v: Value) returns (ok: bool, value: Value)
    requires s.Valid() && Packable(t)
    modifies s
    ensures s.Valid() && s.End() == old(s.End()) && s.bytesLeft <= old(s.bytesLeft)
    ensures ok ==> ValueOk(t, value)
    ensures ValueOk(t, v) && CanEncode(t, v) && Begins(old(s.Rest()), EncodeValue(t, v)) ==>
      ok && value == v && s.Rest() == old(s.Rest())[|EncodeValue(t, v)|..]
  {
    hide *;
    OnlyNumbers(t);
    RestLength(s);
    match t
    case BoolType =>
      var x;
      ok, x := s.DecodeVarint32(if IntIn(v) != 0 then 1 else 0);
      value := Int(if x != 0 then 1 else 0);
      BoolIs(v, x);
    case IntType(n) =>
      var i;
      ok, i := DecodeInt(s, n, IntIn(v));
      value := Int(i);
      IntIs(t, v, i);
    case UIntType(n) =>
      var i;
      ok, i := DecodeUInt(s, n, IntIn(v));
      value := Int(i);
      IntIs(t, v, i);
    case SIntType(n) =>
      var i;
      ok, i := DecodeSInt(s, n, IntIn(v));
      value := Int(i);
      IntIs(t, v, i);
    case Fixed32Type =>
      var bytes;
      ok, bytes := s.Read(4);
      bytes := if ok then bytes else [0, 0, 0, 0];
      value := Int(DecodeFixed32(bytes));
      Fixed32Is(old(s.Rest()), bytes, v);
    case Fixed64Type =>
      var bytes;
      ok, bytes := s.Read(8);
      bytes := if ok then bytes else [0, 0, 0, 0, 0, 0, 0, 0];
      value := Int(DecodeFixed32(bytes[..4]) + UINT32 * DecodeFixed32(bytes[4..]));
      Fixed64Is(old(s.Rest()), bytes, v);
  }

  lemma {:induction false} RestLength(s: IStream)
    requires s.Valid()
    ensures |s.Rest()| == s.bytesLeft
  {
  }

  lemma {:induction false} OnlyNumbers(t: LType)
    requires Packable(t)
    ensures t.BoolType? || t.IntType? || t.UIntType? || t.SIntType? || t.Fixed32Type? || t.Fixed64Type?
  {
  }

  lemma {:induction false} BoolIs(v: Value, x: Word)
    ensures ValueOk(BoolType, Int(if x != 0 then 1 else 0))
    ensures var b := if IntIn(v) != 0 then 1 else 0; b < UINT32 && EncodeValue(BoolType, v) == Varint(b) && (ValueOk(BoolType, v) ==> v == Int(b))
  {
    hide Varint;
  }

  lemma {:induction false} IntIs(t: LType, v: Value, i: int)
    requires t.IntType? || t.UIntType? || t.SIntType?
    ensures SizeOk(t.size) && (if t.UIntType? then 0 <= i < 2 * Half(t.size) else -Half(t.size) <= i < Half(t.size)) ==> ValueOk(t, Int(i))
    ensures ValueOk(t, v) && CanEncode(t, v) ==>
      && v == Int(IntIn(v)) && SizeOk(t.size)
      && (if t.UIntType? then 0 <= IntIn(v) < 2 * Half(t.size) else -Half(t.size) <= IntIn(v) < Half(t.size))
      && EncodeValue(t, v) == Varint(if t.SIntType? then Zigzag(IntIn(v)) else Unsigned(IntIn(v)))
  {
    hide Varint, Half, Zigzag, Unsigned;
  }

  /** The PB_DECODERS table. `held` is what the destination holds; an array entry that is a
      submessage (`repeated`) is set to defaults first. */
  method DecodeItem(s: IStream, t: LType, repeated: bool, held: Value, ghost v: Value) returns (ok: bool, value: Value)
    requires s.Valid() && TypeOk(t) && (t.SubmessageType? && !repeated ==> Held(t, held))
    modifies s
    ensures s.Valid() && s.End() <= old(s.End()) && s.bytesLeft <= old(s.bytesLeft)
    ensures ok ==> s.End() == old(s.End()) && Held(t, value)
    ensures (
      && Good(t, v) && Begins(old(s.Rest()), EncodeValue(t, v))
      && (t.SubmessageType? && !repeated ==> held == DefaultValue(t))) ==>
      ok && value == Decoded(t, v) && s.Rest() == old(s.Rest())[|EncodeValue(t, v)|..]
    decreases t, 2
  {
    hide Begins, Varint, DescriptorOk, HeldMessage, MessageOk, EncodeMessage, CanEncodeMessage, ReadableMessage, State,
      Half, SizeOk, Unsigned, Zigzag, EncodeFixed32, EncodeFixed64;
    if t.SubmessageType? {
      var slots;
      ok, slots := DecodeSubmessage(s, t.message, repeated, SlotsIn(held), SlotsIn(v));
      value := Message(slots);
    } else if Packable(t) {
      ok, value := DecodeNumber(s, t, v);
    } else {
      var bytes;
      ok, bytes := DecodeBytes(s, t, BytesIn(v));
      value := Bytes(bytes);
    }
  }

  lemma {:induction false} Fixed32Is(rest: seq<Byte>, bytes: seq<Byte>, v: Value)
    requires |bytes| == 4
    ensures ValueOk(Fixed32Type, Int(DecodeFixed32(bytes)))
    ensures ValueOk(Fixed32Type, v) && Begins(rest, EncodeValue(Fixed32Type, v)) ==>
      |rest| >= 4 && |EncodeValue(Fixed32Type, v)| == 4 && (bytes == rest[..4] ==> Int(DecodeFixed32(bytes)) == v)
  {
    hide EncodeFixed32, DecodeFixed32;
    if ValueOk(Fixed32Type, v) {
      Fixed32RoundTrip(v.i, []);
      assert EncodeFixed32(v.i) + [] == EncodeFixed32(v.i);
    }
  }

  lemma {:induction false} Fixed64Is(rest: seq<Byte>, bytes: seq<Byte>, v: Value)
    requires |bytes| == 8
    ensures var n := DecodeFixed32(bytes[..4]) + UINT32 * DecodeFixed32(bytes[4..]);
      && ValueOk(Fixed64Type, Int(n))
      && (ValueOk(Fixed64Type, v) && Begins(rest, EncodeValue(Fixed64Type, v)) ==>
            |rest| >= 8 && |EncodeValue(Fixed64Type, v)| == 8 && (bytes == rest[..8] ==> Int(n) == v))
  {
    hide EncodeFixed64, DecodeFixed32;
    if ValueOk(Fixed64Type, v) { Fixed64RoundTrip(v.i); }
  }

  /** A message the decoder reads back. */
  ghost predicate GoodMessage(d: Descriptor, slots: seq<Slot>) {
    && DescriptorOk(d) && MessageOk(d, slots) && CanEncodeMessage(d, slots) && ReadableMessage(d, slots)
    && |EncodeMessage(d, slots)| < UINT32
  }

  /** pb_dec_submessage */
  method DecodeSubmessage(s: IStream, d: Descriptor, repeated: bool, held: seq<Slot>, ghost slots: seq<Slot>)
    returns (ok: bool, dest: seq<Slot>)
    requires s.Valid() && DescriptorOk(d) && (repeated || HeldMessage(d, held))
    modifies s
    ensures s.Valid() && s.End() <= old(s.End()) && s.bytesLeft <= old(s.bytesLeft)
    ensures ok ==> s.End() == old(s.End()) && HeldMessage(d, dest)
    ensures (
      && GoodMessage(d, slots) && Begins(old(s.Rest()), Delimited(EncodeMessage(d, slots)))
      && (repeated || held == Defaults(d))) ==>
      ok && dest == State(d, slots, |d.fields|, 0) && s.Rest() == old(s.Rest())[|Delimited(EncodeMessage(d, slots))|..]
    decreases d, 3
  {
    hide Begins, Varint, DescriptorOk, HeldMessage, MessageOk, EncodeMessage, CanEncodeMessage, ReadableMessage, State;
    var sub;
    ok, sub := s.MakeSubstream(EncodeMessage(d, slots));
    if !ok {
      return false, held;
    }
    if repeated {
      ok, dest := Decode(sub, d, slots);
    } else {
      ok, dest := DecodeNoinit(sub, d, held, slots);
    }
    s.CloseSubstream(sub);
  }

  /** pb_decode */
  method Decode(s: IStream, d: Descriptor, ghost slots: seq<Slot>) returns (ok: bool, dest: seq<Slot>)
    requires s.Valid() && DescriptorOk(d)
    modifies s
    ensures s.Valid() && s.End() <= old(s.End()) && s.bytesLeft <= old(s.bytesLeft)
    ensures ok ==> s.End() == old(s.End()) && HeldMessage(d, dest)
    ensures GoodMessage(d, slots) && old(s.Rest()) == EncodeMessage(d, slots) ==>
      ok && dest == State(d, slots, |d.fields|, 0) && s.bytesLeft == 0
    decreases d, 2
  {
    DefaultsHeld(d);
    ok, dest := DecodeNoinit(s, d, Defaults(d), slots);
  }

  // ----- fields -----

  predicate IsFixed(f: Field) { f.htype.Repeated? && !f.htype.counted }

  /** How many entries an array has so far; one without a `_count` is counted in `size`. */
  function Count(f: Field, slot: Slot, size: nat): nat { if IsFixed(f) then size else |ItemsIn(slot)| }

  /** A place is ready for the item with index `j`. */
  predicate Ready(f: Field, slot: Slot, size: nat, j: nat) {
    match f.htype
    case Repeated(max, _) => Count(f, slot, size) == j < max
    case Oneof => true
    case _ => f.ltype.SubmessageType? ==> ValueIn(slot) == DefaultValue(f.ltype)
  }

  function PutAll(f: Field, slot: Slot, items: seq<Value>, n: nat): Slot
    requires n <= |items|
  {
    if n == 0 then slot else PutItem(f, PutAll(f, slot, items, n - 1), n - 1, Decoded(f.ltype, items[n - 1]))
  }

  /** decode_static_field, for all but packed arrays */
  method DecodeSingle(s: IStream, f: Field, held: Slot, size: nat, ghost v: Value, ghost j: nat)
    returns (ok: bool, slot: Slot, size': nat)
    requires s.Valid() && TypeOk(f.ltype) && HeldSlot(f, held)
    modifies s
    ensures s.Valid() && s.End() <= old(s.End()) && s.bytesLeft <= old(s.bytesLeft)
    ensures ok ==> s.End() == old(s.End()) && HeldSlot(f, slot) && (f.htype.Oneof? ==> slot.tag == f.tag)
    ensures ok && f.htype.Repeated? ==> Count(f, slot, size') == Count(f, held, size) + 1 <= f.htype.max
    ensures f.htype.Repeated? && Ready(f, held, size, j) && ok ==> Count(f, slot, size') == j + 1
    ensures Good(f.ltype, v) && Begins(old(s.Rest()), EncodeValue(f.ltype, v)) && Ready(f, held, size, j) ==>
      && ok && slot == PutItem(f, held, j, Decoded(f.ltype, v))
      && s.Rest() == old(s.Rest())[|EncodeValue(f.ltype, v)|..]
    decreases f, 0
  {
    hide Good, Begins, EncodeValue, Decoded, DefaultValue, Held, TypeOk;
    var value;
    size' := size;
    match f.htype
    case Required =>
      ok, value := DecodeItem(s, f.ltype, false, held.value, v);
      slot := One(value);
    case Optional(hasField) =>
      ok, value := DecodeItem(s, f.ltype, false, held.value, v);
      slot := if hasField then Maybe(true, value) else One(value);
    case Repeated(max, counted) =>
      var at := if counted then |held.items| else size;
      if at >= max {
        return false, held, size;
      }
      ok, value := DecodeItem(s, f.ltype, true, Int(0), v);
      slot := Many(if counted then held.items + [value] else held.items[at := value]);
      size' := if counted then size else size + 1;
    case Oneof =>
      DefaultHeld(f.ltype);
      ok, value := DecodeItem(s, f.ltype, false, DefaultValue(f.ltype), v);
      slot := Which(f.tag, value);
  }

  /** `c` entries of a packed array have come in. */
  ghost predicate Coming(f: Field, held: Slot, items: seq<Value>, c: nat, rest: seq<Byte>, slot: Slot, size: nat) {
    && (forall i :: 0 <= i < |items| ==> Good(f.ltype, items[i]))
    && f.htype.Repeated? && c <= |items| <= f.htype.max
    && rest == EncodeAll(f.ltype, items[c..])
    && slot == PutAll(f, held, items, c) && Count(f, slot, size) == c
  }

  lemma {:induction false} ComingStart(f: Field, held: Slot, items: seq<Value>, size: nat)
    requires (forall i :: 0 <= i < |items| ==> Good(f.ltype, items[i]))
    requires f.htype.Repeated? && |items| <= f.htype.max && Count(f, held, size) == 0
    ensures Coming(f, held, items, 0, EncodeAll(f.ltype, items), held, size)
  {
    hide Good, EncodeAll;
    assert items[0..] == items;
  }

  lemma {:induction false} ComingHere(f: Field, held: Slot, items: seq<Value>, c: nat, rest: seq<Byte>, slot: Slot,
      size: nat)
    requires Coming(f, held, items, c, rest, slot, size)
    ensures |rest| == 0 ==> slot == PutAll(f, held, items, |items|) && Count(f, slot, size) == |items|
    ensures |rest| > 0 ==> c < |items| && Count(f, slot, size) < f.htype.max
    ensures c < |items| ==>
      Good(f.ltype, items[c]) && Begins(rest, EncodeValue(f.ltype, items[c])) && Ready(f, slot, size, c)
  {
    hide Good, EncodeAll, PutAll, Begins;
    EntryHere(f.ltype, items, c, rest);
  }

  lemma {:induction false} ComingNext(f: Field, held: Slot, items: seq<Value>, c: nat, rest: seq<Byte>, slot: Slot, size: nat,
    rest': seq<Byte>, slot': Slot, size': nat)
    requires Coming(f, held, items, c, rest, slot, size) && c < |items| && Count(f, slot', size') == c + 1
    requires |EncodeValue(f.ltype, items[c])| <= |rest| && rest' == rest[|EncodeValue(f.ltype, items[c])|..]
    requires slot' == PutItem(f, slot, c, Decoded(f.ltype, items[c]))
    ensures Coming(f, held, items, c + 1, rest', slot', size')
  {
    hide Good, EncodeAll, Begins, Decoded, PutItem;
    EntryHere(f.ltype, items, c, rest);
  }

  /** The entries of a packed array, until the substream ends or the array is full. */
  method DecodeEntries(sub: IStream, f: Field, held: Slot, size: nat, ghost good: bool, ghost items: seq<Value>)
    returns (ok: bool, slot: Slot, size': nat)
    requires sub.Valid() && TypeOk(f.ltype) && HeldSlot(f, held) && f.htype.Repeated?
    requires good ==> Coming(f, held, items, 0, sub.Rest(), held, size)
    modifies sub
    ensures sub.Valid() && (ok ==> sub.End() == old(sub.End())) && sub.End() <= old(sub.End())
    ensures HeldSlot(f, slot)
    ensures good ==> ok && sub.bytesLeft == 0 && slot == PutAll(f, held, items, |items|) && Count(f, slot, size') == |items|
    decreases f, 1
  {
    hide Good, Begins, EncodeValue, Decoded, Held, TypeOk, PutItem, HeldSlot, EncodeAll, Coming, PutAll, Ready, Count;
    ghost var c := 0;
    ok, slot, size' := true, held, size;
    while sub.bytesLeft > 0 && Count(f, slot, size') < f.htype.max
      invariant sub.Valid() && sub.End() == old(sub.End()) && HeldSlot(f, slot) && ok
      invariant good ==> Coming(f, held, items, c, sub.Rest(), slot, size')
      decreases f.htype.max - Count(f, slot, size')
    {
      ghost var rest := sub.Rest();
      if good {
        ComingHere(f, held, items, c, rest, slot, size');
        BeginsLength(rest, EncodeValue(f.ltype, items[c]));
      }
      var slot1, size1;
      ok, slot1, size1 := DecodeSingle(sub, f, slot, size', if good then items[c] else Int(0), c);
      if !ok {
        return;
      }
      if good { ComingNext(f, held, items, c, rest, slot, size', sub.Rest(), slot1, size1); }
      slot, size' := slot1, size1;
      c := c + 1;
    }
    if good { ComingHere(f, held, items, c, sub.Rest(), slot, size'); }
  }

  /** decode_static_field, for packed arrays */
  method DecodePacked(s: IStream, f: Field, held: Slot, size: nat, ghost items: seq<Value>)
    returns (ok: bool, slot: Slot, size': nat)
    requires s.Valid() && TypeOk(f.ltype) && HeldSlot(f, held) && f.htype.Repeated?
    modifies s
    ensures s.Valid() && s.End() <= old(s.End()) && s.bytesLeft <= old(s.bytesLeft)
    ensures ok ==> s.End() == old(s.End()) && HeldSlot(f, slot)
    ensures (
      && (forall i :: 0 <= i < |items| ==> Good(f.ltype, items[i]))
      && |items| <= f.htype.max && Count(f, held, size) == 0 && |EncodeAll(f.ltype, items)| < UINT32
      && Begins(old(s.Rest()), Delimited(EncodeAll(f.ltype, items)))) ==>
      && ok && slot == PutAll(f, held, items, |items|) && Count(f, slot, size') == |items|
      && s.Rest() == old(s.Rest())[|Delimited(EncodeAll(f.ltype, items))|..]
    decreases f, 2
  {
    hide Good, Begins, EncodeValue, Decoded, Held, TypeOk, Delimited, PutItem, HeldSlot, EncodeAll, Coming, PutAll, Ready, Count;
    ghost var e := EncodeAll(f.ltype, items);
    ghost var good :=
      && (forall i :: 0 <= i < |items| ==> Good(f.ltype, items[i]))
      && |items| <= f.htype.max && Count(f, held, size) == 0 && |e| < UINT32 && Begins(s.Rest(), Delimited(e));
    var sub;
    ok, sub := s.MakeSubstream(e);
    if !ok {
      return false, held, size;
    }
    if good { ComingStart(f, held, items, size); }
    ok, slot, size' := DecodeEntries(sub, f, held, size, good, items);
    if !ok || sub.bytesLeft != 0 {
      return false, slot, size';
    }
    s.CloseSubstream(sub);
  }

  lemma {:induction false} EntryHere(t: LType, items: seq<Value>, c: nat, rest: seq<Byte>)
    requires c <= |items| && rest == EncodeAll(t, items[c..])
    ensures |rest| > 0 <==> c < |items|
    ensures c < |items| ==> Begins(rest, EncodeValue(t, items[c]))
    ensures c < |items| ==> rest[|EncodeValue(t, items[c])|..] == EncodeAll(t, items[c + 1..])
  {
    hide EncodeValue;
    if c < |items| {
      assert items[c..][1..] == items[c + 1..];
      ValueIsSome(t, items[c]);
    }
  }

  lemma {:induction false} ValueIsSome(t: LType, v: Value)
    ensures |EncodeValue(t, v)| > 0
  {
    if t.Fixed64Type? { assert |EncodeFixed64(Unsigned(IntIn(v)))| == 8; }
  }

  // ----- how far the decoding of an encoded message has come -----

  function RestItems(f: Field, items: seq<Value>, j: nat): seq<Byte>
    requires j <= |items|
  {
    if !Packed(f) then EncodeEach(f.tag, f.ltype, items[j..]) else if j == 0 then EncodeItems(f, items) else []
  }

  function RestFrom(d: Descriptor, slots: seq<Slot>, k: nat, j: nat): seq<Byte>
    requires k <= |d.fields| && j <= |ItemsAt(d, slots, k)|
  {
    if k == |d.fields| then [] else RestItems(d.fields[k], ItemsAt(d, slots, k), j) + EncodeFrom(d, slots, k + 1)
  }

  /** How many required fields have come in. */
  function RequiredDone(d: Descriptor, k: nat, j: nat): nat
    requires k <= |d.fields|
  {
    RequiredBefore(d, k) + if k < |d.fields| && j > 0 && d.fields[k].htype.Required? then 1 else 0
  }

  function SeenAfter(q: nat): seq<bool> { seq(64, b => b < q) }

  /** The bookkeeping for arrays without a `_count`: the last one met is complete, unless it is still coming in. */
  predicate FixedOk(d: Descriptor, k: nat, j: nat, field: int, size: nat)
    requires k <= |d.fields|
  {
    if k < |d.fields| && j > 0 && IsFixed(d.fields[k]) then field == k && size == j
    else field == -1 || (0 <= field < k && IsFixed(d.fields[field]) && size == d.fields[field].htype.max)
  }

  /** Just before item `j` of field `k`. */
  ghost predicate Midway(d: Descriptor, slots: seq<Slot>, rest: seq<Byte>, dest: seq<Slot>, k: nat, j: nat,
    field: int, size: nat, seen: seq<bool>)
  {
    && k <= |d.fields| && j <= |ItemsAt(d, slots, k)|
    && |rest| < UINT32 && rest == RestFrom(d, slots, k, j)
    && dest == State(d, slots, k, j)
    && FixedOk(d, k, j, field, size)
    && seen == SeenAfter(RequiredDone(d, k, j))
    && (k < |d.fields| && Packed(d.fields[k]) && j > 0 ==> j == |ItemsAt(d, slots, k)|)
  }

  lemma {:induction false} GoodField(d: Descriptor, slots: seq<Slot>, k: nat)
    requires GoodMessage(d, slots) && k < |d.fields|
    ensures SlotOf(d, k) < |slots| == SlotCount(d)
    ensures var f, items := d.fields[k], ItemsAt(d, slots, k);
      && f.tag < 0x2000_0000 && TypeOk(f.ltype)
      && (f.htype.Repeated? ==> |items| <= f.htype.max && (!f.htype.counted ==> |items| == f.htype.max))
      && forall j :: 0 <= j < |items| ==>
        ValueOk(f.ltype, items[j]) && CanEncode(f.ltype, items[j]) && Readable(f.ltype, items[j])
  {
    hide ValueOk, CanEncode, Readable, TypeOk;
    FieldFacts(d, slots, k);
    ItemsOk(d.fields[k], slots[SlotOf(d, k)]);
    assert CanEncodeField(d.fields[k], slots[SlotOf(d, k)]);
  }

  lemma {:induction false} StartMidway(d: Descriptor, slots: seq<Slot>)
    requires GoodMessage(d, slots)
    ensures Midway(d, slots, EncodeMessage(d, slots), Defaults(d), 0, 0, -1, 0, seq(64, _ => false))
  {
    hide Items, EncodeEach, EncodeValue, EncodeAll, CanEncodeMessage, MessageOk, ReadableMessage, DescriptorOk;
    if |d.fields| > 0 {
      GoodField(d, slots, 0);
      RestIsAll(d.fields[0], ItemsAt(d, slots, 0));
    }
  }

  lemma {:induction false} RestIsAll(f: Field, items: seq<Value>)
    ensures RestItems(f, items, 0) == EncodeItems(f, items)
    ensures RestItems(f, items, |items|) == []
  {
    assert items[0..] == items;
  }

  /** From the end of a field's items to the start of the next field's. */
  lemma {:induction false} NextField(d: Descriptor, slots: seq<Slot>, rest: seq<Byte>, dest: seq<Slot>, k: nat, j: nat,
    field: int, size: nat, seen: seq<bool>)
    requires GoodMessage(d, slots) && Midway(d, slots, rest, dest, k, j, field, size, seen)
    requires k < |d.fields| && j == |ItemsAt(d, slots, k)|
    ensures Midway(d, slots, rest, dest, k + 1, 0, field, size, seen)
  {
    hide Items, EncodeEach, EncodeValue, EncodeAll, EncodeItems, GoodMessage, DescriptorOk, SeenAfter, RestItems;
    GoodField(d, slots, k);
    RestIsAll(d.fields[k], ItemsAt(d, slots, k));
    assert rest == [] + EncodeFrom(d, slots, k + 1) == EncodeFrom(d, slots, k + 1);
    if k + 1 < |d.fields| {
      GoodField(d, slots, k + 1);
      RestIsAll(d.fields[k + 1], ItemsAt(d, slots, k + 1));
    }
    RequiredHasItem(d, slots, k);
  }

  lemma {:induction false} RequiredHasItem(d: Descriptor, slots: seq<Slot>, k: nat)
    requires k < |d.fields| && SlotOf(d, k) < |slots|
    ensures d.fields[k].htype.Required? ==> |ItemsAt(d, slots, k)| == 1
    ensures RequiredDone(d, k, |ItemsAt(d, slots, k)|) == RequiredDone(d, k + 1, 0)
  {
  }

  /** The next item to come in, or the end of the message. */
  lemma {:induction false} FindNext(d: Descriptor, slots: seq<Slot>, rest: seq<Byte>, dest: seq<Slot>, k: nat, j: nat,
    field: int, size: nat, seen: seq<bool>)
    returns (k': nat, j': nat)
    requires GoodMessage(d, slots) && Midway(d, slots, rest, dest, k, j, field, size, seen)
    ensures Midway(d, slots, rest, dest, k', j', field, size, seen)
    ensures if k' < |d.fields| then j' < |ItemsAt(d, slots, k')| else j' == 0
    decreases |d.fields| - k
  {
    hide GoodMessage, RestFrom, State, FixedOk, SeenAfter, RequiredDone, Items;
    k', j' := k, j;
    if k < |d.fields| && j == |ItemsAt(d, slots, k)| {
      NextField(d, slots, rest, dest, k, j, field, size, seen);
      k', j' := FindNext(d, slots, rest, dest, k + 1, 0, field, size, seen);
    }
  }

  /** What stands in the stream where an item is next. */
  lemma {:induction false} ItemHere(d: Descriptor, slots: seq<Slot>, rest: seq<Byte>, dest: seq<Slot>, k: nat, j: nat,
    field: int, size: nat, seen: seq<bool>)
    requires GoodMessage(d, slots) && Midway(d, slots, rest, dest, k, j, field, size, seen)
    requires k < |d.fields| && j < |ItemsAt(d, slots, k)|
    ensures var f, items := d.fields[k], ItemsAt(d, slots, k);
      var tag := TagBytes(f.tag, if Packed(f) then 2 else WireType(f.ltype));
      && |rest| > 0 && Begins(rest, tag)
      && if Packed(f) then
           && j == 0 && Begins(rest[|tag|..], Delimited(EncodeAll(f.ltype, items)))
           && |EncodeAll(f.ltype, items)| < UINT32
           && rest[|tag|..][|Delimited(EncodeAll(f.ltype, items))|..] == RestFrom(d, slots, k, |items|)
           && forall m :: 0 <= m < |items| ==> Good(f.ltype, items[m])
         else
           && Begins(rest[|tag|..], EncodeValue(f.ltype, items[j])) && Good(f.ltype, items[j])
           && rest[|tag|..][|EncodeValue(f.ltype, items[j])|..] == RestFrom(d, slots, k, j + 1)
  {
    hide GoodMessage, EncodeValue, Varint, EncodeAll, State, FixedOk, SeenAfter, RequiredDone, Items, ItemsAt;
    var f, items := d.fields[k], ItemsAt(d, slots, k);
    GoodField(d, slots, k);
    if Packed(f) {
      PackedHere(f, items, EncodeFrom(d, slots, k + 1));
    } else {
      SingleHere(f, items, j, EncodeFrom(d, slots, k + 1));
    }
  }

  lemma {:induction false} SingleHere(f: Field, items: seq<Value>, j: nat, more: seq<Byte>)
    requires j < |items| && !Packed(f)
    ensures var rest, tag, e := RestItems(f, items, j) + more, TagBytes(f.tag, WireType(f.ltype)), EncodeValue(f.ltype, items[j]);
      && |rest| > 0 && Begins(rest, tag) && Begins(rest[|tag|..], e) && |e| <= |rest|
      && rest[|tag|..][|e|..] == RestItems(f, items, j + 1) + more
  {
    hide EncodeValue, Varint;
    assert items[j..][1..] == items[j + 1..];
    var tag, e, after := TagBytes(f.tag, WireType(f.ltype)), EncodeValue(f.ltype, items[j]), RestItems(f, items, j + 1) + more;
    assert RestItems(f, items, j) + more == tag + (e + after);
    assert (tag + (e + after))[|tag|..] == e + after;
  }

  lemma {:induction false} PackedHere(f: Field, items: seq<Value>, more: seq<Byte>)
    requires |items| > 0 && Packed(f)
    ensures var rest, tag, e := RestItems(f, items, 0) + more, TagBytes(f.tag, 2), Delimited(EncodeAll(f.ltype, items));
      && |rest| > 0 && Begins(rest, tag) && Begins(rest[|tag|..], e) && |e| <= |rest|
      && rest[|tag|..][|e|..] == RestItems(f, items, |items|) + more
    ensures forall m :: 0 <= m < |items| ==> |EncodeValue(f.ltype, items[m])| <= |EncodeAll(f.ltype, items)|
  {
    hide EncodeValue, EncodeAll, Varint;
    var tag, e := TagBytes(f.tag, 2), Delimited(EncodeAll(f.ltype, items));
    assert RestItems(f, items, 0) + more == tag + (e + more);
    assert (tag + (e + more))[|tag|..] == e + more;
    assert [] + more == more;
    forall m | 0 <= m < |items| ensures |EncodeValue(f.ltype, items[m])| <= |EncodeAll(f.ltype, items)| {
      EntryFits(f.ltype, items, m);
    }
  }

  lemma {:induction false} EntryFits(t: LType, items: seq<Value>, m: nat)
    requires m < |items|
    ensures |EncodeValue(t, items[m])| <= |EncodeAll(t, items)|
  {
    hide EncodeValue;
    if m > 0 {
      EntryFits(t, items[1..], m - 1);
    }
  }

  /** The place of the field whose item is next is ready for it. */
  lemma {:induction false} PlaceReady(d: Descriptor, slots: seq<Slot>, k: nat, j: nat, size: nat)
    requires GoodMessage(d, slots) && k < |d.fields| && j < |ItemsAt(d, slots, k)|
    requires IsFixed(d.fields[k]) ==> size == j
    ensures SlotOf(d, k) < SlotCount(d) && Ready(d.fields[k], State(d, slots, k, j)[SlotOf(d, k)], size, j)
    ensures Packed(d.fields[k]) ==> Count(d.fields[k], State(d, slots, k, j)[SlotOf(d, k)], size) == j
  {
    hide GoodMessage, State;
    GoodField(d, slots, k);
    if d.fields[k].htype.Repeated? {
      Arriving(d, slots, k, j);
    } else if !d.fields[k].htype.Oneof? {
      assert j == 0 by { hide *; AtMostOne(d.fields[k], slots, d, k); }
      NotYet(d, slots, k, 0, k);
    }
  }

  lemma {:induction false} AtMostOne(f: Field, slots: seq<Slot>, d: Descriptor, k: nat)
    requires k < |d.fields| && f == d.fields[k] && !f.htype.Repeated?
    ensures |ItemsAt(d, slots, k)| <= 1
  {
  }

  lemma {:induction false} StateIsPutAll(d: Descriptor, slots: seq<Slot>, k: nat, j: nat)
    requires k < |d.fields| && j <= |ItemsAt(d, slots, k)|
    ensures SlotOf(d, k) < SlotCount(d)
    ensures State(d, slots, k, j) ==
      State(d, slots, k, 0)[SlotOf(d, k) := PutAll(d.fields[k], State(d, slots, k, 0)[SlotOf(d, k)], ItemsAt(d, slots, k), j)]
    decreases j
  {
    hide Items, Decoded, PutItem;
    SlotIsPlace(d, k);
    if j > 0 { StateIsPutAll(d, slots, k, j - 1); }
  }

  lemma {:induction false} SomethingLeft(d: Descriptor, slots: seq<Slot>, rest: seq<Byte>, dest: seq<Slot>, k: nat, j: nat,
    field: int, size: nat, seen: seq<bool>)
    requires Midway(d, slots, rest, dest, k, j, field, size, seen) && |rest| > 0
    ensures k < |d.fields| && |seen| == 64 && FixedOk(d, k, j, field, size)
  {
    hide State, Items, FixedOk;
  }

  lemma {:induction false} FixedFacts(d: Descriptor, k: nat, j: nat, field: int, size: nat)
    requires k < |d.fields| && FixedOk(d, k, j, field, size) && IsFixed(d.fields[k])
    ensures if field == k then size == j
      else j == 0 && (field == -1 || (0 <= field < |d.fields| && IsFixed(d.fields[field]) && size == d.fields[field].htype.max))
  {
  }

  predicate UnionFits(f: Field, s: Slot) { f.htype.Oneof? ==> s.Which? && (s.tag == 0 || s.tag == f.tag) }

  lemma {:induction false} UnionReady(d: Descriptor, slots: seq<Slot>, dest: seq<Slot>, k: nat, j: nat)
    requires GoodMessage(d, slots) && k < |d.fields| && j < |ItemsAt(d, slots, k)| && dest == State(d, slots, k, j)
    ensures SlotOf(d, k) < |dest| && UnionFits(d.fields[k], dest[SlotOf(d, k)])
  {
    hide State, DescriptorOk, MessageOk, CanEncodeMessage, ReadableMessage, EncodeMessage;
    GoodField(d, slots, k);
    if d.fields[k].htype.Oneof? { UnionHolds(d, slots, k, j, k); }
  }

  /** Nothing is left: everything has come in. */
  lemma {:induction false} Finished(d: Descriptor, slots: seq<Slot>, rest: seq<Byte>, dest: seq<Slot>, k: nat, j: nat,
    field: int, size: nat, seen: seq<bool>)
    requires GoodMessage(d, slots) && Midway(d, slots, rest, dest, k, j, field, size, seen) && |rest| == 0
    ensures dest == State(d, slots, |d.fields|, 0)
    ensures field == -1 || (0 <= field < |d.fields| && IsFixed(d.fields[field]) && size == d.fields[field].htype.max)
    ensures seen == SeenAfter(RequiredBefore(d, |d.fields|))
  {
    hide GoodMessage, State, ItemsAt, SeenAfter;
    var k', j' := FindNext(d, slots, rest, dest, k, j, field, size, seen);
    if k' < |d.fields| { ItemHere(d, slots, rest, dest, k', j', field, size, seen); }
  }

  lemma {:induction false} MidwayDest(d: Descriptor, slots: seq<Slot>, rest: seq<Byte>, dest: seq<Slot>, k: nat, j: nat,
    field: int, size: nat, seen: seq<bool>)
    requires Midway(d, slots, rest, dest, k, j, field, size, seen)
    ensures k <= |d.fields| && j <= |ItemsAt(d, slots, k)| && dest == State(d, slots, k, j)
  {
    hide State;
  }

  lemma {:induction false} HeldHere(d: Descriptor, slots: seq<Slot>, k: nat)
    requires HeldMessage(d, slots) && DescriptorOk(d) && k < |d.fields|
    ensures SlotOf(d, k) < |slots| && HeldSlot(d.fields[k], slots[SlotOf(d, k)]) && TypeOk(d.fields[k].ltype)
    ensures d.fields[k].htype.Oneof? ==> slots[SlotOf(d, k)].Which?
  {
  }

  function Mark(seen: seq<bool>, f: Field, index: nat): (r: seq<bool>)
    ensures |r| == |seen|
  {
    if f.htype.Required? && index < 64 && index < |seen| then seen[index := true] else seen
  }

  lemma {:induction false} MarkNext(q: nat, f: Field)
    ensures Mark(SeenAfter(q), f, q) == SeenAfter(if f.htype.Required? then q + 1 else q)
  {
  }

  /** One item has come in. */
  lemma {:induction false} AfterSingle(d: Descriptor, slots: seq<Slot>, rest: seq<Byte>, dest: seq<Slot>, k: nat, j: nat,
    field: int, size: nat, seen: seq<bool>, rest': seq<Byte>, slot: Slot, size': nat)
    requires GoodMessage(d, slots) && Midway(d, slots, rest, dest, k, j, field, size, seen)
    requires k < |d.fields| && j < |ItemsAt(d, slots, k)| && !Packed(d.fields[k])
    requires SlotOf(d, k) < |dest| && |rest'| <= |rest| && rest' == RestFrom(d, slots, k, j + 1)
    requires var f := d.fields[k];
      && slot == PutItem(f, dest[SlotOf(d, k)], j, Decoded(f.ltype, ItemsAt(d, slots, k)[j]))
      && (IsFixed(f) ==> size' == j + 1)
    ensures var f := d.fields[k];
      Midway(d, slots, rest', dest[SlotOf(d, k) := slot], k, j + 1, if IsFixed(f) then k else field,
        if IsFixed(f) then size' else size, Mark(seen, f, RequiredBefore(d, k)))
  {
    hide GoodMessage, SeenAfter, Items, PutItem, Decoded, RestItems, EncodeFrom, Mark;
    var f := d.fields[k];
    MarkNext(RequiredBefore(d, k), f);
    if !f.htype.Repeated? { assert j == 0 by { hide *; AtMostOne(f, slots, d, k); } }
    assert State(d, slots, k, j + 1) == dest[SlotOf(d, k) := slot] by { hide PutItem, Decoded, Items; }
    if !f.htype.Required? { assert Mark(seen, f, RequiredBefore(d, k)) == seen by { hide *; MarkOther(seen, f, RequiredBefore(d, k)); } }
  }

  lemma {:induction false} MarkOther(seen: seq<bool>, f: Field, index: nat)
    requires !f.htype.Required?
    ensures Mark(seen, f, index) == seen
  {
  }

  /** A packed array has come in. */
  lemma {:induction false} AfterPacked(d: Descriptor, slots: seq<Slot>, rest: seq<Byte>, dest: seq<Slot>, k: nat,
    field: int, size: nat, seen: seq<bool>, rest': seq<Byte>, slot: Slot, size': nat)
    requires GoodMessage(d, slots) && Midway(d, slots, rest, dest, k, 0, field, size, seen)
    requires k < |d.fields| && 0 < |ItemsAt(d, slots, k)| && Packed(d.fields[k])
    requires SlotOf(d, k) < |dest| && |rest'| <= |rest| && rest' == RestFrom(d, slots, k, |ItemsAt(d, slots, k)|)
    requires slot == PutAll(d.fields[k], dest[SlotOf(d, k)], ItemsAt(d, slots, k), |ItemsAt(d, slots, k)|)
    requires IsFixed(d.fields[k]) ==> size' == |ItemsAt(d, slots, k)|
    ensures var f := d.fields[k];
      Midway(d, slots, rest', dest[SlotOf(d, k) := slot], k, |ItemsAt(d, slots, k)|, if IsFixed(f) then k else field,
        if IsFixed(f) then size' else size, seen)
  {
    hide GoodMessage, SeenAfter, Items, PutAll, Decoded, RestItems, EncodeFrom, State;
    StateIsPutAll(d, slots, k, |ItemsAt(d, slots, k)|);
  }

  lemma {:induction false} AfterItem(d: Descriptor, slots: seq<Slot>, rest: seq<Byte>, dest: seq<Slot>, k: nat, j: nat,
    field: int, size: nat, seen: seq<bool>, rest': seq<Byte>, slot: Slot, size': nat)
    returns (j': nat)
    requires GoodMessage(d, slots) && Midway(d, slots, rest, dest, k, j, field, size, seen)
    requires k < |d.fields| && j < |ItemsAt(d, slots, k)| && SlotOf(d, k) < |dest| && |rest'| <= |rest|
    requires var f, items := d.fields[k], ItemsAt(d, slots, k);
      if Packed(f) then
        && j == 0 && rest' == RestFrom(d, slots, k, |items|) && (IsFixed(f) ==> size' == |items|)
        && slot == PutAll(f, dest[SlotOf(d, k)], items, |items|)
      else
        && rest' == RestFrom(d, slots, k, j + 1) && (IsFixed(f) ==> size' == j + 1)
        && slot == PutItem(f, dest[SlotOf(d, k)], j, Decoded(f.ltype, items[j]))
    ensures var f := d.fields[k];
      Midway(d, slots, rest', dest[SlotOf(d, k) := slot], k, j', if IsFixed(f) then k else field,
        if IsFixed(f) then size' else size, Mark(seen, f, RequiredBefore(d, k)))
  {
    hide GoodMessage, Midway, RestFrom, PutAll, PutItem, Decoded, SlotOf, ItemsAt, RequiredBefore, Mark;
    var f := d.fields[k];
    if Packed(f) {
      AfterPacked(d, slots, rest, dest, k, field, size, seen, rest', slot, size');
      MarkOther(seen, f, RequiredBefore(d, k));
      j' := |ItemsAt(d, slots, k)|;
    } else {
      AfterSingle(d, slots, rest, dest, k, j, field, size, seen, rest', slot, size');
      j' := j + 1;
    }
  }

  /** decode_field */
  method DecodeField(s: IStream, f: Field, wire: nat, held: Slot, size: nat, ghost items: seq<Value>, ghost j: nat)
    returns (ok: bool, slot: Slot, size': nat)
    requires s.Valid() && TypeOk(f.ltype) && HeldSlot(f, held)
    modifies s
    ensures s.Valid() && s.End() <= old(s.End()) && s.bytesLeft <= old(s.bytesLeft)
    ensures ok ==> s.End() == old(s.End()) && HeldSlot(f, slot) && (f.htype.Oneof? ==> slot.tag == f.tag)
    ensures (
      && !Packed(f) && wire == WireType(f.ltype) && j < |items| && Good(f.ltype, items[j])
      && Begins(old(s.Rest()), EncodeValue(f.ltype, items[j])) && Ready(f, held, size, j)) ==>
      && ok && slot == PutItem(f, held, j, Decoded(f.ltype, items[j])) && (IsFixed(f) ==> size' == j + 1)
      && s.Rest() == old(s.Rest())[|EncodeValue(f.ltype, items[j])|..]
    ensures (
      && Packed(f) && wire == 2 && (forall i :: 0 <= i < |items| ==> Good(f.ltype, items[i]))
      && |items| <= f.htype.max && Count(f, held, size) == 0 && |EncodeAll(f.ltype, items)| < UINT32
      && Begins(old(s.Rest()), Delimited(EncodeAll(f.ltype, items)))) ==>
      && ok && slot == PutAll(f, held, items, |items|) && (IsFixed(f) ==> size' == |items|)
      && s.Rest() == old(s.Rest())[|Delimited(EncodeAll(f.ltype, items))|..]
    decreases f, 3
  {
    hide Good, Begins, EncodeValue, Decoded, Held, TypeOk, Delimited, PutItem, PutAll, HeldSlot, EncodeAll;
    if f.htype.Repeated? && wire == 2 && Packable(f.ltype) {
      ok, slot, size' := DecodePacked(s, f, held, size, items);
    } else {
      ok, slot, size' := DecodeSingle(s, f, held, size, if j < |items| then items[j] else Int(0), j);
    }
  }

  /** pb_release_union_field, where nothing was allocated: the old member must be known. */
  method ReleaseUnionField(iter: FieldIter, held: Slot) returns (ok: bool)
    requires iter.Valid() && DescriptorOk(iter.message) && iter.pos < |iter.message.fields|
    requires HeldSlot(iter.message.fields[iter.pos], held) && held.Which?
    modifies iter
    ensures iter.Valid() && iter.pos == old(iter.pos)
    ensures ok <==> held.tag == 0 || exists i :: 0 <= i < |iter.message.fields| && iter.message.fields[i].tag == held.tag
  {
    var tag := iter.message.fields[iter.pos].tag;
    ghost var at := iter.pos;
    if held.tag == 0 || held.tag == tag {
      return true;
    }
    HeldTag(iter.message.fields[iter.pos], held);
    ok := iter.Find(held.tag);
    if ok {
      var back := iter.Find(tag);
      TagsTell(iter.message, iter.pos, at);
    }
  }

  lemma {:induction false} HeldTag(f: Field, s: Slot)
    requires HeldSlot(f, s) && s.Which?
    ensures s.tag < UINT32
  {
  }

  lemma {:induction false} CountIs(d: Descriptor)
    ensures var n := |d.fields|;
      RequiredBefore(d, n) == if n == 0 then 0 else RequiredBefore(d, n - 1) + if d.fields[n - 1].htype.Required? then 1 else 0
  {
  }

  /** Of the 32-bit words that hold a bit of the first `required`, 64 at most, these bits are
      set and no other. */
  predicate RequiredSeen(seen: seq<bool>, required: nat)
    requires |seen| == 64
  {
    var count := if required > 64 then 64 else required;
    forall b :: 0 <= b < 64 && b < (count + 31) / 32 * 32 ==> (seen[b] <==> b < count)
  }

  lemma {:induction false} SeenIsRequired(required: nat)
    ensures RequiredSeen(SeenAfter(required), required)
  {
  }

  lemma {:induction false} WholeWord(seen: seq<bool>, i: nat)
    requires |seen| == 64 && i < 2
    ensures seen[32 * i..32 * i + 32] == seq(32, _ => true) <==> forall b :: 32 * i <= b < 32 * i + 32 ==> seen[b]
  {
    var word := seen[32 * i..32 * i + 32];
    assert forall b :: 32 * i <= b < 32 * i + 32 ==> seen[b] == word[b - 32 * i];
  }

  lemma {:induction false} PartWord(seen: seq<bool>, i: nat, left: nat)
    requires |seen| == 64 && i < 2 && left < 32
    ensures seen[32 * i..32 * i + 32] == seq(32, b => b < left) <==>
            forall b :: 32 * i <= b < 32 * i + 32 ==> (seen[b] <==> b < 32 * i + left)
  {
    var word, mask := seen[32 * i..32 * i + 32], seq(32, b => b < left);
    assert forall b :: 32 * i <= b < 32 * i + 32 ==> seen[b] == word[b - 32 * i];
    if forall b :: 32 * i <= b < 32 * i + 32 ==> (seen[b] <==> b < 32 * i + left) {
      assert forall b :: 0 <= b < 32 ==> word[b] == seen[32 * i + b];
      assert word == mask;
    }
  }

  /** The number of required fields, found by going to the end of the fields. */
  method RequiredCount(iter: FieldIter) returns (count: nat)
    requires iter.Valid()
    modifies iter
    ensures iter.Valid() && count == RequiredBefore(iter.message, |iter.message.fields|)
  {
    hide RequiredBefore, SlotOf;
    var n := |iter.message.fields|;
    var lastRequired := false;
    count := 0;
    var more := n > 0;
    while more
      invariant iter.Valid() && (more ==> n > 0)
      invariant !more && n > 0 ==> count == RequiredBefore(iter.message, n - 1)
      invariant !more && n > 0 ==> lastRequired == iter.message.fields[n - 1].htype.Required?
      invariant n == 0 ==> count == 0 && !lastRequired
      decreases more, n - iter.pos
    {
      count, lastRequired := iter.requiredIndex, iter.message.fields[iter.pos].htype.Required?;
      more := iter.Next();
    }
    if lastRequired {
      count := count + 1;
    }
    CountIs(iter.message);
  }

  /** Are the required fields there? The bits are checked a word at a time. */
  method CheckRequired(iter: FieldIter, seen: seq<bool>) returns (ok: bool)
    requires iter.Valid() && |seen| == 64
    modifies iter
    ensures ok <==> RequiredSeen(seen, RequiredBefore(iter.message, |iter.message.fields|))
  {
    hide RequiredBefore, SlotOf;
    var count := RequiredCount(iter);
    if count > 64 {
      count := 64;
    }
    for i := 0 to count / 32
      invariant forall b :: 0 <= b < 32 * i ==> seen[b]
    {
      WholeWord(seen, i);
      if seen[32 * i..32 * i + 32] != seq(32, _ => true) {
        return false;
      }
    }
    if count % 32 != 0 {
      PartWord(seen, count / 32, count % 32);
      if seen[32 * (count / 32)..32 * (count / 32) + 32] != seq(32, b => b < count % 32) {
        return false;
      }
    }
    return true;
  }

  function WireOf(f: Field): (r: nat)
    ensures r < 8
  {
    if Packed(f) then 2 else WireType(f.ltype)
  }

  /** Something is left, so an item is next. */
  lemma {:induction false} NextRecord(d: Descriptor, slots: seq<Slot>, rest: seq<Byte>, dest: seq<Slot>, k: nat, j: nat,
    field: int, size: nat, seen: seq<bool>)
    returns (k': nat, j': nat)
    requires GoodMessage(d, slots) && Midway(d, slots, rest, dest, k, j, field, size, seen) && |rest| > 0
    ensures Midway(d, slots, rest, dest, k', j', field, size, seen)
    ensures k' < |d.fields| && j' < |ItemsAt(d, slots, k')|
    ensures d.fields[k'].tag < 0x2000_0000 && Begins(rest, TagBytes(d.fields[k'].tag, WireOf(d.fields[k'])))
  {
    hide GoodMessage, Midway, ItemsAt, Begins, TagBytes, Good, EncodeAll, EncodeValue, RestFrom, Delimited;
    k', j' := FindNext(d, slots, rest, dest, k, j, field, size, seen);
    SomethingLeft(d, slots, rest, dest, k', j', field, size, seen);
    GoodField(d, slots, k');
    ItemHere(d, slots, rest, dest, k', j', field, size, seen);
  }

  /** What one item of field `k` changes, whatever its bytes: its place in the message, its
      required bit, and the count of its array if nothing else counts that; an array that
      was being counted is complete, and a union held a member or nothing. */
  ghost predicate OneCameIn(d: Descriptor, k: nat, held: seq<Slot>, field: int, size: nat, seen: seq<bool>,
                            dest: seq<Slot>, field': int, size': nat, seen': seq<bool>)
    requires k < |d.fields| && |seen| == 64
    requires field == -1 || 0 <= field < |d.fields|
  {
    var f, place := d.fields[k], SlotOf(d, k);
    && place < |held| == |dest| && dest == held[place := dest[place]]
    && seen' == Mark(seen, f, RequiredBefore(d, k))
    && (if IsFixed(f) then field' == k && (field != k && field != -1 && d.fields[field].htype.Repeated? ==> size == d.fields[field].htype.max)
        else field' == field && size' == size)
    && (f.htype.Oneof? && held[place].Which? ==>
          dest[place].Which? && dest[place].tag == f.tag
          && (held[place].tag == 0 || exists i :: 0 <= i < |d.fields| && d.fields[i].tag == held[place].tag))
  }

  /** A field that the descriptor has: the rest of one turn of the loop in pb_decode_noinit. */
  method DecodeKnown(s: IStream, iter: FieldIter, wire: nat, held: seq<Slot>, field: int, size: nat, seen: seq<bool>,
    ghost good: bool, ghost slots: seq<Slot>, ghost rest: seq<Byte>, ghost j: nat)
    returns (ok: bool, dest: seq<Slot>, field': int, size': nat, seen': seq<bool>, ghost j': nat)
    requires s.Valid() && iter.Valid() && iter.pos < |iter.message.fields|
    requires DescriptorOk(iter.message) && HeldMessage(iter.message, held) && |seen| == 64
    requires field == -1 || (0 <= field < |iter.message.fields| && IsFixed(iter.message.fields[field]))
    requires good ==> (
      var d, k := iter.message, iter.pos;
      && GoodMessage(d, slots) && Midway(d, slots, rest, held, k, j, field, size, seen) && j < |ItemsAt(d, slots, k)|
      && |rest| > 0 && wire == WireOf(d.fields[k]) && |TagBytes(d.fields[k].tag, wire)| <= |rest|
      && s.Rest() == rest[|TagBytes(d.fields[k].tag, wire)|..])
    modifies s, iter
    ensures s.Valid() && s.End() <= old(s.End()) && s.bytesLeft <= old(s.bytesLeft)
    ensures iter.Valid() && iter.pos == old(iter.pos) && |seen'| == 64
    ensures ok ==> s.End() == old(s.End()) && HeldMessage(iter.message, dest)
    ensures field' == -1 || (0 <= field' < |iter.message.fields| && IsFixed(iter.message.fields[field']))
    ensures ok ==> OneCameIn(iter.message, iter.pos, held, field, size, seen, dest, field', size', seen')
    ensures good ==> ok && Midway(iter.message, slots, s.Rest(), dest, iter.pos, j', field', size', seen')
    decreases iter.message, 0
  {
    hide GoodMessage, Midway, HeldMessage, HeldSlot, State, EncodeMessage, Begins, Good, Ready, PutItem, PutAll,
      EncodeValue, EncodeAll, Decoded, DescriptorOk, RestFrom, TagBytes, Delimited, ItemsAt, SlotOf, RequiredBefore, Mark,
      FixedOk, Count;
    ghost var d, k := iter.message, iter.pos;
    var f, place := iter.message.fields[iter.pos], iter.place;
    dest, field', size', seen', j' := held, field, size, Mark(seen, f, iter.requiredIndex), j;
    HeldHere(d, held, k);
    if good {
      SomethingLeft(d, slots, rest, held, k, j, field, size, seen);
      MidwayDest(d, slots, rest, held, k, j, field, size, seen);
      UnionReady(d, slots, held, k, j);
      ItemHere(d, slots, rest, held, k, j, field, size, seen);
      if IsFixed(f) { FixedFacts(d, k, j, field, size); }
      GoodField(d, slots, k);
    }
    if IsFixed(f) && field != iter.pos {
      if field != -1 && size != iter.message.fields[field].htype.max {
        return false, dest, field', size', seen', j;
      }
      field', size' := iter.pos, 0;
    }
    if f.htype.Oneof? {
      ok := ReleaseUnionField(iter, held[place]);
      if !ok { return; }
    }
    if good { PlaceReady(d, slots, k, j, size'); }
    var slot, count;
    ok, slot, count := DecodeField(s, f, wire, held[place], size', ItemsAt(d, slots, k), j);
    if !ok { return; }
    HeldUpdate(d, held, k, slot);
    if IsFixed(f) { size' := count; }
    if good { j' := AfterItem(d, slots, rest, held, k, j, field, size, seen, s.Rest(), slot, count); }
    dest := held[place := slot];
    HeldHere(d, dest, k);
  }

  /** pb_decode_noinit */
  method DecodeNoinit(s: IStream, d: Descriptor, held: seq<Slot>, ghost slots: seq<Slot>)
    returns (ok: bool, dest: seq<Slot>)
    requires s.Valid() && DescriptorOk(d) && HeldMessage(d, held)
    modifies s
    ensures s.Valid() && s.End() <= old(s.End()) && s.bytesLeft <= old(s.bytesLeft)
    ensures ok ==> s.End() == old(s.End()) && HeldMessage(d, dest)
    ensures GoodMessage(d, slots) && old(s.Rest()) == EncodeMessage(d, slots) && held == Defaults(d) ==>
      ok && dest == State(d, slots, |d.fields|, 0) && s.bytesLeft == 0
    decreases d, 1
  {
    hide GoodMessage, Midway, HeldMessage, State, EncodeMessage, Begins, TagBytes, ItemsAt, SlotOf, RequiredBefore, DescriptorOk;
    dest := held;
    var iter := new FieldIter(d);
    var seen := seq(64, _ => false);
    var fixedField: int, fixedSize: nat := -1, 0;
    ghost var good := GoodMessage(d, slots) && s.Rest() == EncodeMessage(d, slots) && held == Defaults(d);
    ghost var k: nat, j: nat := 0, 0;
    if good { StartMidway(d, slots); }
    while s.bytesLeft > 0
      invariant s.Valid() && s.End() == old(s.End()) && s.bytesLeft <= old(s.bytesLeft)
      invariant iter.Valid() && iter.message == d && fresh(iter)
      invariant HeldMessage(d, dest) && |seen| == 64
      invariant fixedField == -1 || (0 <= fixedField < |d.fields| && IsFixed(d.fields[fixedField]))
      invariant good ==> Midway(d, slots, s.Rest(), dest, k, j, fixedField, fixedSize, seen)
    {
      ghost var rest, t: nat, w: nat := s.Rest(), 0, 0;
      if good {
        k, j := NextRecord(d, slots, rest, dest, k, j, fixedField, fixedSize, seen);
        t, w := d.fields[k].tag, WireOf(d.fields[k]);
        BeginsLength(rest, TagBytes(t, w));
      }
      var wire, tag, eof;
      ok, wire, tag, eof := s.DecodeTag(t, w);
      if !ok {
        if eof { break; }
        return;
      }
      var found := false;
      if tag > 0 {
        found := iter.Find(tag);
      }
      assert good ==> found by { if good { assert tag == d.fields[k].tag; } }
      if !found {
        ok := s.SkipField(wire);
        if !ok { return; }
        continue;
      }
      if good { TagsTell(d, iter.pos, k); }
      ok, dest, fixedField, fixedSize, seen, j :=
        DecodeKnown(s, iter, wire, dest, fixedField, fixedSize, seen, good, slots, rest, j);
      if !ok { return; }
    }
    if good { Finished(d, slots, s.Rest(), dest, k, j, fixedField, fixedSize, seen); }
    if fixedField != -1 && fixedSize != d.fields[fixedField].htype.max {
      return false, dest;
    }
    SeenIsRequired(RequiredBefore(d, |d.fields|));
    ok := CheckRequired(iter, seen);
  }

  lemma {:induction false} BeginsLength(rest: seq<Byte>, e: seq<Byte>)
    requires Begins(rest, e)
    ensures |e| <= |rest|
  {
  }
}
