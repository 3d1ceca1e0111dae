/** Messages, their descriptors and their wire format (nanopb: pb.h, pb_encode.c,
    pb_decode.c), after the Protocol Buffers Encoding specification. Fields are
    statically allocated; `pb_size_t` has 32 bits, as this repository builds it. */
module PbFormat {
  import opened Coding

  const UINT32 := 0x1_0000_0000

  /** A descriptor array ends at tag 0, so no field in it has that tag. */
  type Tag = t: int | 0 < t < 0x1_0000_0000 witness 1

  datatype LType =
    | BoolType
    | IntType(size: nat)
    | UIntType(size: nat)
    | SIntType(size: nat)
    | Fixed32Type
    | Fixed64Type
    | BytesType(size: nat)
    | StringType(size: nat)
    | SubmessageType(message: Descriptor)
    | FixedBytesType(size: nat)

  /** `hasField`: there is a `has_` flag; `counted`: there is a `_count`. */
  datatype HType = Required | Optional(hasField: bool) | Repeated(max: nat, counted: bool) | Oneof

  /** `joins`: the field lies in the union the field before it lies in. */
  datatype Field = Field(tag: Tag, ltype: LType, htype: HType, joins: bool)
  datatype Descriptor = Descriptor(fields: seq<Field>)

  /** A string is what stands before its terminator. */
  datatype Value = Int(i: int) | Bytes(bytes: seq<Byte>) | Message(slots: seq<Slot>)
  /** What one member of the C struct holds, with the flag or count that goes with it. */
  datatype Slot = One(value: Value) | Maybe(has: bool, value: Value) | Many(items: seq<Value>) | Which(tag: nat, value: Value)

  // ----- where the fields lie -----

  predicate JoinsUnion(d: Descriptor, i: nat)
    requires i < |d.fields|
  {
    i > 0 && d.fields[i - 1].htype.Oneof? && d.fields[i].htype.Oneof? && d.fields[i].joins
  }

  function SlotOf(d: Descriptor, i: nat): (r: nat)
    requires i < |d.fields|
    ensures r <= i
  {
    if i == 0 then 0 else SlotOf(d, i - 1) + if JoinsUnion(d, i) then 0 else 1
  }

  function SlotCount(d: Descriptor): nat {
    if |d.fields| == 0 then 0 else SlotOf(d, |d.fields| - 1) + 1
  }

  function RequiredBefore(d: Descriptor, i: nat): (r: nat)
    requires i <= |d.fields|
    ensures r <= i
  {
    if i == 0 then 0 else RequiredBefore(d, i - 1) + if d.fields[i - 1].htype.Required? then 1 else 0
  }

  lemma {:induction false} SlotsAscend(d: Descriptor, i: nat, j: nat)
    requires i <= j < |d.fields|
    ensures SlotOf(d, i) <= SlotOf(d, j)
    ensures SlotOf(d, i) == SlotOf(d, j) && i < j ==> d.fields[i].htype.Oneof? && d.fields[j].htype.Oneof?
    decreases j - i
  {
    if i < j { SlotsAscend(d, i, j - 1); }
  }

  lemma {:induction false} SlotIsPlace(d: Descriptor, i: nat)
    requires i < |d.fields|
    ensures SlotOf(d, i) < SlotCount(d)
  {
    SlotsAscend(d, i, |d.fields| - 1);
  }

  lemma {:induction false} RequiredInOrder(d: Descriptor, i: nat, j: nat)
    requires i <= j <= |d.fields|
    ensures RequiredBefore(d, i) <= RequiredBefore(d, j)
    ensures i < j && d.fields[i].htype.Required? ==> RequiredBefore(d, i) < RequiredBefore(d, j)
    decreases j - i
  {
    if i < j { RequiredInOrder(d, i, j - 1); }
  }

  /** Only members of one union share their place. */
  lemma {:induction false} SharedSlot(d: Descriptor, i: nat, j: nat)
    requires i < |d.fields| && j < |d.fields| && i != j && SlotOf(d, i) == SlotOf(d, j)
    ensures d.fields[i].htype.Oneof? && d.fields[j].htype.Oneof?
  {
    if i < j { SlotsAscend(d, i, j); } else { SlotsAscend(d, j, i); }
  }

  // ----- what the C types can hold -----

  predicate SizeOk(size: nat) { size == 1 || size == 2 || size == 4 || size == 8 }

  function Half(size: nat): int {
    if size == 1 then 0x80 else if size == 2 then 0x8000 else if size == 4 then 0x8000_0000 else 0x8000_0000_0000_0000
  }

  predicate ValueOk(t: LType, v: Value)
    decreases t
  {
    match t
    case BoolType => v.Int? && 0 <= v.i <= 1
    case IntType(n) => v.Int? && (SizeOk(n) ==> -Half(n) <= v.i < Half(n))
    case UIntType(n) => v.Int? && (SizeOk(n) ==> 0 <= v.i < 2 * Half(n))
    case SIntType(n) => v.Int? && (SizeOk(n) ==> -Half(n) <= v.i < Half(n))
    case Fixed32Type => v.Int? && 0 <= v.i < UINT32
    case Fixed64Type => v.Int? && 0 <= v.i < UINT64
    case BytesType(_) => v.Bytes? && |v.bytes| < UINT32
    case StringType(n) => v.Bytes? && |v.bytes| <= n && 0 !in v.bytes
    case SubmessageType(d) => v.Message? && MessageOk(d, v.slots)
    case FixedBytesType(n) => v.Bytes? && |v.bytes| == n
  }

  predicate SlotOk(f: Field, s: Slot)
    decreases f
  {
    match f.htype
    case Required => s.One? && ValueOk(f.ltype, s.value)
    case Optional(hasField) => (if hasField then s.Maybe? else s.One?) && ValueOk(f.ltype, s.value)
    case Repeated(max, counted) =>
      s.Many? && (!counted ==> |s.items| == max) && forall i :: 0 <= i < |s.items| ==> ValueOk(f.ltype, s.items[i])
    case Oneof => s.Which? && (s.tag == f.tag ==> ValueOk(f.ltype, s.value))
  }

  predicate MessageOk(d: Descriptor, slots: seq<Slot>)
    decreases d
  {
    && |slots| == SlotCount(d)
    && forall i :: 0 <= i < |d.fields| ==> SlotOf(d, i) < |slots| && SlotOk(d.fields[i], slots[SlotOf(d, i)])
  }

  // ----- which values a field puts on the wire -----

  function IntIn(v: Value): int { if v.Int? then v.i else 0 }
  function BytesIn(v: Value): seq<Byte> { if v.Bytes? then v.bytes else [] }
  function SlotsIn(v: Value): seq<Slot> { if v.Message? then v.slots else [] }
  function ValueIn(s: Slot): Value { if s.Many? then Int(0) else s.value }
  function ItemsIn(s: Slot): seq<Value> { if s.Many? then s.items else [] }

  /** pb_check_proto3_default_value: the field, a member of a submessage, says nothing. */
  predicate IsDefault(f: Field, s: Slot)
    decreases f
  {
    match f.htype
    case Required => false
    case Repeated(_, counted) => counted && |ItemsIn(s)| == 0
    case Oneof => s.Which? && s.tag == 0
    case Optional(hasField) => if hasField then s.Maybe? && !s.has else IsZero(f.ltype, ValueIn(s))
  }

  predicate IsZero(t: LType, v: Value)
    decreases t
  {
    match t
    case BytesType(_) => |BytesIn(v)| == 0
    case StringType(_) => |BytesIn(v)| == 0
    case FixedBytesType(n) => n == 0
    case SubmessageType(d) => AllDefault(d, SlotsIn(v))
    case _ => IntIn(v) == 0
  }

  predicate AllDefault(d: Descriptor, slots: seq<Slot>)
    decreases d
  {
    forall i :: 0 <= i < |d.fields| ==> SlotOf(d, i) < |slots| ==> IsDefault(d.fields[i], slots[SlotOf(d, i)])
  }

  function Items(f: Field, s: Slot): seq<Value> {
    match f.htype
    case Required => [ValueIn(s)]
    case Optional(true) => if s.Maybe? && s.has then [s.value] else []
    case Optional(false) => if IsDefault(f, s) then [] else [ValueIn(s)]
    case Repeated(_, _) => ItemsIn(s)
    case Oneof => if s.Which? && s.tag == f.tag then [s.value] else []
  }

  lemma {:induction false} ItemsOk(f: Field, s: Slot)
    requires SlotOk(f, s)
    ensures forall i :: 0 <= i < |Items(f, s)| ==> ValueOk(f.ltype, Items(f, s)[i])
  {
  }

  // ----- the wire format -----

  function WireType(t: LType): nat {
    match t
    case BoolType => 0 case IntType(_) => 0 case UIntType(_) => 0 case SIntType(_) => 0
    case Fixed32Type => 5
    case Fixed64Type => 1
    case _ => 2
  }

  predicate Packable(t: LType) { WireType(t) != 2 }

  function TagBytes(tag: nat, wire: nat): seq<Byte> { Varint(8 * tag + wire) }

  /** (uint64_t)i */
  function Unsigned(i: int): nat { i % UINT64 }

  function Zigzag(i: int): nat { if i < 0 then -2 * i - 1 else 2 * i }

  function EncodeFixed64(w: nat): seq<Byte> {
    EncodeFixed32(w % UINT32) + EncodeFixed32(w / UINT32 % UINT32)
  }

  function Delimited(bytes: seq<Byte>): seq<Byte> { Varint(|bytes|) + bytes }

  function EncodeValue(t: LType, v: Value): seq<Byte>
    decreases t, 0
  {
    match t
    case BoolType => Varint(if IntIn(v) != 0 then 1 else 0)
    case IntType(_) => Varint(Unsigned(IntIn(v)))
    case UIntType(_) => Varint(Unsigned(IntIn(v)))
    case SIntType(_) => Varint(Zigzag(IntIn(v)))
    case Fixed32Type => EncodeFixed32(IntIn(v) % UINT32)
    case Fixed64Type => EncodeFixed64(Unsigned(IntIn(v)))
    case SubmessageType(d) => Delimited(EncodeMessage(d, SlotsIn(v)))
    case _ => Delimited(BytesIn(v))
  }

  /** Values one after the other, as in a packed array. */
  function EncodeAll(t: LType, items: seq<Value>): seq<Byte>
    decreases t, |items| + 1
  {
    if |items| == 0 then [] else EncodeValue(t, items[0]) + EncodeAll(t, items[1..])
  }

  /** Values each with its tag. */
  function EncodeEach(tag: nat, t: LType, items: seq<Value>): seq<Byte>
    decreases t, |items| + 1
  {
    if |items| == 0 then []
    else TagBytes(tag, WireType(t)) + EncodeValue(t, items[0]) + EncodeEach(tag, t, items[1..])
  }

  predicate Packed(f: Field) { f.htype.Repeated? && Packable(f.ltype) }

  function EncodeItems(f: Field, items: seq<Value>): seq<Byte>
    decreases f
  {
    if !Packed(f) then EncodeEach(f.tag, f.ltype, items)
    else if |items| == 0 then []
    else TagBytes(f.tag, 2) + Delimited(EncodeAll(f.ltype, items))
  }

  function EncodeFrom(d: Descriptor, slots: seq<Slot>, k: nat): seq<Byte>
    decreases d, |d.fields| - k
  {
    if k >= |d.fields| then []
    else (if SlotOf(d, k) < |slots| then EncodeItems(d.fields[k], Items(d.fields[k], slots[SlotOf(d, k)])) else [])
         + EncodeFrom(d, slots, k + 1)
  }

  function EncodeMessage(d: Descriptor, slots: seq<Slot>): seq<Byte>
    decreases d
  {
    EncodeFrom(d, slots, 0)
  }

  // ----- what can be encoded -----

  predicate CanEncode(t: LType, v: Value)
    decreases t
  {
    match t
    case IntType(n) => SizeOk(n)
    case UIntType(n) => SizeOk(n)
    case SIntType(n) => SizeOk(n)
    case BytesType(n) => |BytesIn(v)| + 4 <= n
    case SubmessageType(d) => CanEncodeMessage(d, SlotsIn(v))
    case _ => true
  }

  predicate CanEncodeField(f: Field, s: Slot)
    decreases f
  {
    var items := Items(f, s);
    && (f.htype.Repeated? ==> |items| <= f.htype.max)
    && forall i :: 0 <= i < |items| ==> CanEncode(f.ltype, items[i])
  }

  predicate CanEncodeMessage(d: Descriptor, slots: seq<Slot>)
    decreases d
  {
    forall i :: 0 <= i < |d.fields| ==> SlotOf(d, i) < |slots| ==> CanEncodeField(d.fields[i], slots[SlotOf(d, i)])
  }
}
