/** The encoder (nanopb: pb_encode.c). Every operation runs against a buffer or, as a
    sizing pass, against none; both report the same size, and a buffer takes the
    bytes exactly when they fit. */
module PbEncode {
  import opened Coding
  import opened PbFormat
  import opened PbIterator

  /** What a stream and its buffer hold at one moment. */
  datatype Snapshot = Snapshot(sizing: bool, maxSize: nat, bytes: seq<Byte>, state: nat, written: nat)

  predicate StreamOk(a: Snapshot) {
    if a.sizing then a.bytes == []
    else a.written <= a.maxSize && a.state + (a.maxSize - a.written) <= |a.bytes|
  }

  predicate Fits(a: Snapshot, n: nat) { a.sizing || a.written + n <= a.maxSize }

  function Append(a: Snapshot, e: seq<Byte>): Snapshot
    requires StreamOk(a) && Fits(a, |e|)
  {
    if a.sizing then a.(written := a.written + |e|)
    else a.(bytes := a.bytes[..a.state] + e + a.bytes[a.state + |e|..], state := a.state + |e|, written := a.written + |e|)
  }

  /** Only bytes between the write position and the limit have changed. */
  predicate KeepsOutside(a: Snapshot, b: Snapshot)
    requires StreamOk(a)
  {
    && b.sizing == a.sizing && b.maxSize == a.maxSize
    && (!a.sizing ==> (
      && |b.bytes| == |a.bytes|
      && b.bytes[..a.state] == a.bytes[..a.state]
      && b.bytes[a.state + (a.maxSize - a.written)..] == a.bytes[a.state + (a.maxSize - a.written)..]))
  }

  /** What an encoder does that has the bytes `e` to write if `can`. */
  predicate Writes(a: Snapshot, b: Snapshot, ok: bool, can: bool, e: seq<Byte>) {
    && StreamOk(a) && StreamOk(b) && KeepsOutside(a, b)
    && (ok <==> can && Fits(a, |e|))
    && (ok ==> b == Append(a, e))
  }

  lemma {:induction false} AppendTwice(a: Snapshot, e: seq<Byte>, f: seq<Byte>)
    requires StreamOk(a) && Fits(a, |e|)
    ensures StreamOk(Append(a, e)) && Fits(Append(a, e), |f|) == Fits(a, |e + f|)
    ensures Fits(a, |e + f|) ==> Append(Append(a, e), f) == Append(a, e + f)
    ensures KeepsOutside(a, Append(a, e))
  {
    if !a.sizing {
      var b := Append(a, e);
      assert b.bytes[..a.state] == a.bytes[..a.state];
      assert b.bytes[a.state + (a.maxSize - a.written)..] == a.bytes[a.state + (a.maxSize - a.written)..];
      if Fits(a, |e + f|) {
        assert Append(b, f).bytes == Append(a, e + f).bytes;
      }
    }
  }

  lemma {:induction false} KeepsTwice(a: Snapshot, b: Snapshot, c: Snapshot, e: seq<Byte>)
    requires StreamOk(a) && Fits(a, |e|) && b == Append(a, e) && StreamOk(b) && KeepsOutside(b, c)
    ensures KeepsOutside(a, c)
  {
    if !a.sizing {
      assert b.bytes[..a.state] == a.bytes[..a.state];
      assert c.bytes[..a.state] == c.bytes[..b.state][..a.state];
      var end := a.state + (a.maxSize - a.written);
      assert end == b.state + (b.maxSize - b.written);
      assert c.bytes[end..] == b.bytes[end..] == a.bytes[end..];
    }
  }

  /** One encoder after another. */
  lemma {:induction false} WritesMore(a: Snapshot, b: Snapshot, c: Snapshot, ok: bool, e: seq<Byte>, can: bool,
      f: seq<Byte>)
    requires Writes(a, b, true, true, e) && Writes(b, c, ok, can, f)
    ensures Writes(a, c, ok, can, e + f)
  {
    AppendTwice(a, e, f);
    KeepsTwice(a, b, c, e);
  }

  /** An encoder that fails leaves nothing for those after it to do. */
  lemma {:induction false} WritesNoMore(a: Snapshot, b: Snapshot, can: bool, e: seq<Byte>, can': bool, f: seq<Byte>)
    requires Writes(a, b, false, can, e) && (can' ==> can)
    ensures Writes(a, b, false, can', e + f)
  {
  }

  /** One step of several, each with its bytes: what has been written, or that not all
      of them can be. */
  lemma {:induction false} NextWritten(a: Snapshot, b: Snapshot, c: Snapshot, ok: bool, done: seq<Byte>, can: bool, e: seq<Byte>,
                                       all: bool, rest: seq<Byte>)
    requires Writes(a, b, true, true, done) && Writes(b, c, ok, can, e) && (all ==> can)
    ensures ok ==> can && Writes(a, c, true, true, done + e)
    ensures !ok ==> Writes(a, c, false, all, done + (e + rest))
    ensures done + (e + rest) == done + e + rest
  {
    hide Writes;
    WritesMore(a, b, c, ok, done, can, e);
    if ok {
      WrittenCould(b, c, can, e);
    } else {
      WritesNoMore(a, c, can, done + e, all, rest);
      assert done + (e + rest) == done + e + rest;
    }
  }

  lemma {:induction false} WritesNothing(a: Snapshot)
    requires StreamOk(a)
    ensures Writes(a, a, true, true, [])
  {
    if !a.sizing { assert Append(a, []).bytes == a.bytes; }
  }

  lemma {:induction false} WritesIfItFits(a: Snapshot, e: seq<Byte>)
    requires StreamOk(a)
    ensures if Fits(a, |e|) then Writes(a, Append(a, e), true, true, e) else Writes(a, a, false, true, e)
    ensures |e| == 0 ==> Fits(a, |e|) && Append(a, e) == a
  {
    if Fits(a, |e|) { AppendTwice(a, e, []); }
    if |e| == 0 && !a.sizing { assert Append(a, e).bytes == a.bytes; }
  }

  class OStream {
    /** null: a stream that only counts */
    const buf: array?<Byte>
    const maxSize: nat
    var state: nat
    var bytesWritten: nat

    function Now(): Snapshot
      reads this, buf
    {
      Snapshot(buf == null, maxSize, if buf == null then [] else buf[..], state, bytesWritten)
    }

    /** PB_OSTREAM_SIZING */
    constructor Sizing()
      ensures buf == null && Now() == Snapshot(true, 0, [], 0, 0)
    {
      buf, maxSize, state, bytesWritten := null, 0, 0, 0;
    }

    /** A stream that writes into `b` from `at` on, `size` bytes at most. */
    constructor Into(b: array<Byte>, at: nat, size: nat)
      ensures buf == b && Now() == Snapshot(false, size, b[..], at, 0)
    {
      buf, maxSize, state, bytesWritten := b, size, at, 0;
    }

    /** buf_write */
    method BufWrite(bytes: seq<Byte>)
      requires buf != null && state + |bytes| <= buf.Length
      modifies `state, buf
      ensures state == old(state) + |bytes|
      ensures buf[..] == old(buf[..])[..old(state)] + bytes + old(buf[..])[old(state) + |bytes|..]
    {
      var dest := state;
      state := state + |bytes|;
      for i := 0 to |bytes|
        invariant buf[..] == old(buf[..])[..dest] + bytes[..i] + old(buf[..])[dest + i..]
        modifies buf
      {
        ghost var before := buf[..];
        buf[dest + i] := bytes[i];
        assert buf[..] == before[dest + i := bytes[i]];
        CopiedOne(old(buf[..]), dest, bytes, i, before);
      }
      assert bytes[..|bytes|] == bytes;
    }

    /** pb_write */
    method Write(bytes: seq<Byte>) returns (ok: bool)
      requires StreamOk(Now())
      modifies this, buf
      ensures Writes(old(Now()), Now(), ok, true, bytes)
    {
      hide Writes, KeepsOutside;
      ghost var a := Now();
      WritesIfItFits(a, bytes);
      if |bytes| > 0 && buf != null {
        if bytesWritten + |bytes| > maxSize {
          return false;
        }
        BufWrite(bytes);
      }
      bytesWritten := bytesWritten + |bytes|;
      return true;
    }

    /** pb_write with no bytes to hand, on a stream that only counts */
    method Count(ghost bytes: seq<Byte>, size: nat)
      requires StreamOk(Now()) && buf == null && size == |bytes|
      modifies this
      ensures Writes(old(Now()), Now(), true, true, bytes)
    {
      bytesWritten := bytesWritten + size;
    }

    /** pb_encode_varint */
    method EncodeVarint(value: nat) returns (ok: bool)
      requires StreamOk(Now()) && value < UINT64
      modifies this, buf
      ensures Writes(old(Now()), Now(), ok, true, Varint(value))
    {
      if value <= 0x7F {
        ok := Write([value]);
        return;
      }
      var buffer: seq<Byte> := [];
      var v := value;
      while v > 0
        invariant if v > 0 then buffer + Varint(v) == Varint(value)
                  else |buffer| > 0 && Ended(buffer) == Varint(value)
        modifies {}
      {
        var byte: Byte := v % 128 + 128;
        VarintStep(buffer, v, byte);
        buffer := buffer + [byte];
        v := v / 128;
      }
      ok := Write(Ended(buffer));
    }

    /** pb_encode_svarint */
    method EncodeSvarint(value: int) returns (ok: bool)
      requires StreamOk(Now()) && -0x8000_0000_0000_0000 <= value < 0x8000_0000_0000_0000
      modifies this, buf
      ensures Writes(old(Now()), Now(), ok, true, Varint(Zigzag(value)))
    {
      ZigzagBits(value);
      var shifted := Unsigned(value) * 2 % UINT64;
      var zigzagged := if value < 0 then UINT64 - 1 - shifted else shifted;
      ok := EncodeVarint(zigzagged);
    }

    /** pb_encode_fixed32 */
    method EncodeWord(value: Word) returns (ok: bool)
      requires StreamOk(Now())
      modifies this, buf
      ensures Writes(old(Now()), Now(), ok, true, EncodeFixed32(value))
    {
      ok := Write([value % 256, value / 256 % 256, value / 65536 % 256, value / 16777216 % 256]);
    }

    /** pb_encode_fixed64 */
    method EncodeLong(value: nat) returns (ok: bool)
      requires StreamOk(Now()) && value < UINT64
      modifies this, buf
      ensures Writes(old(Now()), Now(), ok, true, EncodeFixed64(value))
    {
      LongBytes(value);
      ok := Write([
        value % 256, value / 256 % 256, value / 65536 % 256, value / 16777216 % 256,
        value / 0x1_0000_0000 % 256, value / 0x100_0000_0000 % 256,
        value / 0x1_0000_0000_0000 % 256, value / 0x100_0000_0000_0000 % 256]);
    }

    /** pb_encode_tag */
    method EncodeTag(wire: nat, tag: Tag) returns (ok: bool)
      requires StreamOk(Now()) && wire < 8
      modifies this, buf
      ensures Writes(old(Now()), Now(), ok, true, TagBytes(tag, wire))
    {
      ok := EncodeVarint(8 * tag + wire);
    }

    /** pb_encode_string */
    method EncodeString(bytes: seq<Byte>) returns (ok: bool)
      requires StreamOk(Now()) && |bytes| < UINT64
      modifies this, buf
      ensures Writes(old(Now()), Now(), ok, true, Delimited(bytes))
    {
      ghost var a := Now();
      ok := EncodeVarint(|bytes|);
      ghost var b := Now();
      if !ok {
        WritesNoMore(a, b, true, Varint(|bytes|), true, bytes);
        return;
      }
      ok := Write(bytes);
      WritesMore(a, b, Now(), ok, Varint(|bytes|), true, bytes);
    }
  }

  // ----- values, fields and messages -----

  predicate ItemsCan(t: LType, items: seq<Value>) {
    forall i :: 0 <= i < |items| ==> CanEncode(t, items[i])
  }

  predicate ItemsAreOk(t: LType, items: seq<Value>) {
    forall i :: 0 <= i < |items| ==> ValueOk(t, items[i])
  }

  /** The PB_ENCODERS table. */
  method EncodeItem(s: OStream, t: LType, v: Value) returns (ok: bool)
    requires StreamOk(s.Now()) && ValueOk(t, v) && |EncodeValue(t, v)| < UINT64
    modifies s, s.buf
    ensures Writes(old(s.Now()), s.Now(), ok, CanEncode(t, v), EncodeValue(t, v))
    decreases t, 1
  {
    hide Writes, Varint, MessageOk, EncodeMessage, CanEncodeMessage, EncodeFixed32, EncodeFixed64;
    match t
    case BoolType =>
      ok := s.EncodeVarint(if v.i != 0 then 1 else 0);
    case IntType(n) =>
      if !SizeOk(n) { NoBytes(s.Now(), EncodeValue(t, v)); return false; }
      ok := s.EncodeVarint(Unsigned(v.i));
    case UIntType(n) =>
      if !SizeOk(n) { NoBytes(s.Now(), EncodeValue(t, v)); return false; }
      ok := s.EncodeVarint(Unsigned(v.i));
    case SIntType(n) =>
      if !SizeOk(n) { NoBytes(s.Now(), EncodeValue(t, v)); return false; }
      ok := s.EncodeSvarint(v.i);
    case Fixed32Type =>
      ok := s.EncodeWord(v.i);
    case Fixed64Type =>
      ok := s.EncodeLong(v.i);
    case BytesType(n) =>
      if |v.bytes| + 4 > n { NoBytes(s.Now(), EncodeValue(t, v)); return false; }
      ok := s.EncodeString(v.bytes);
    case StringType(_) =>
      DelimitedIsLonger(v.bytes);
      ok := s.EncodeString(v.bytes);
    case SubmessageType(d) =>
      ok := EncodeSubmessage(s, d, v.slots);
    case FixedBytesType(_) =>
      DelimitedIsLonger(v.bytes);
      ok := s.EncodeString(v.bytes);
  }

  /** pb_encode_submessage: a sizing pass, the size, and then a pass that writes. */
  method EncodeSubmessage(s: OStream, d: Descriptor, slots: seq<Slot>) returns (ok: bool)
    requires StreamOk(s.Now()) && MessageOk(d, slots) && |Delimited(EncodeMessage(d, slots))| < UINT64
    modifies s, s.buf
    ensures Writes(old(s.Now()), s.Now(), ok, CanEncodeMessage(d, slots), Delimited(EncodeMessage(d, slots)))
    decreases d, 1
  {
    hide CanEncodeMessage, MessageOk, EncodeMessage, Writes, Varint;
    ghost var e, can := EncodeMessage(d, slots), CanEncodeMessage(d, slots);
    ghost var a := s.Now();
    DelimitedIsLonger(e);
    var sizing := new OStream.Sizing();
    ok := Encode(sizing, d, slots);
    SizingIs(sizing.Now(), ok, can, e);
    if !ok {
      NoBytes(a, Delimited(e));
      return;
    }
    var size := sizing.bytesWritten;
    ok := s.EncodeVarint(size);
    ghost var b := s.Now();
    if !ok {
      WritesNoMore(a, b, true, Varint(size), true, e);
      return;
    }
    WritesOk(a, b, Varint(size));
    if s.buf == null {
      s.Count(e, size);
      WritesMore(a, b, s.Now(), true, Varint(size), true, e);
      return true;
    }
    if s.bytesWritten + size > s.maxSize {
      StreamFull(a, b, Varint(size), e);
      return false;
    }
    var sub := new OStream.Into(s.buf, s.state, size);
    ghost var p := sub.Now();
    ok := Encode(sub, d, slots);
    SubstreamIsExact(b, p, sub.Now(), ok, e);
    s.bytesWritten := s.bytesWritten + sub.bytesWritten;
    s.state := sub.state;
    WritesMore(a, b, s.Now(), true, Varint(size), true, e);
    if sub.bytesWritten != size { // "submsg size changed"
      assert false;
    }
  }

  /** The loop that runs one encoder over the entries of an array. */
  method EncodeEntries(s: OStream, t: LType, items: seq<Value>) returns (ok: bool)
    requires StreamOk(s.Now()) && ItemsAreOk(t, items) && |EncodeAll(t, items)| < UINT64
    modifies s, s.buf
    ensures Writes(old(s.Now()), s.Now(), ok, ItemsCan(t, items), EncodeAll(t, items))
    decreases t, 2
  {
    hide Writes, EncodeValue, CanEncode, ValueOk;
    ghost var a, done: seq<Byte> := s.Now(), [];
    WritesNothing(a);
    assert items[0..] == items;
    for i := 0 to |items|
      invariant Writes(a, s.Now(), true, true, done)
      invariant done + EncodeAll(t, items[i..]) == EncodeAll(t, items)
      invariant forall j :: 0 <= j < i ==> CanEncode(t, items[j])
    {
      ghost var b, e, rest := s.Now(), EncodeValue(t, items[i]), EncodeAll(t, items[i + 1..]);
      assert items[i..][1..] == items[i + 1..];
      WritesIsOk(a, b, done);
      ok := EncodeItem(s, t, items[i]);
      NextWritten(a, b, s.Now(), ok, done, CanEncode(t, items[i]), e, ItemsCan(t, items), rest);
      if !ok {
        return;
      }
      done := done + e;
    }
    assert done + [] == done;
    return true;
  }

  /** encode_array */
  method EncodeArray(s: OStream, f: Field, items: seq<Value>) returns (ok: bool)
    requires StreamOk(s.Now()) && f.htype.Repeated? && ItemsAreOk(f.ltype, items) && |EncodeItems(f, items)| < UINT64
    modifies s, s.buf
    ensures Writes(old(s.Now()), s.Now(), ok, |items| <= f.htype.max && ItemsCan(f.ltype, items), EncodeItems(f, items))
    decreases f, 2
  {
    hide Writes, EncodeValue, CanEncode, ValueOk, Varint;
    if |items| == 0 {
      WritesNothing(s.Now());
      return true;
    }
    if |items| > f.htype.max {
      NoBytes(s.Now(), EncodeItems(f, items));
      return false;
    }
    if Packable(f.ltype) {
      ok := EncodePacked(s, f, items);
    } else {
      ok := EncodeUnpacked(s, f, items);
    }
  }

  /** The size of a packed array's data: a multiplication, or a sizing pass. */
  method PackedSize(f: Field, items: seq<Value>) returns (ok: bool, size: nat)
    requires ItemsAreOk(f.ltype, items) && |EncodeAll(f.ltype, items)| < UINT64
    ensures ok <==> ItemsCan(f.ltype, items)
    ensures ok ==> size == |EncodeAll(f.ltype, items)|
    decreases f, 0
  {
    hide *;
    if f.ltype.Fixed32Type? {
      FixedSizes(f.ltype, items);
      return true, 4 * |items|;
    } else if f.ltype.Fixed64Type? {
      FixedSizes(f.ltype, items);
      return true, 8 * |items|;
    }
    var sizing := new OStream.Sizing();
    SizingStreamOk();
    ok := EncodeEntries(sizing, f.ltype, items);
    SizingIs(sizing.Now(), ok, ItemsCan(f.ltype, items), EncodeAll(f.ltype, items));
    size := sizing.bytesWritten;
    NowWritten(sizing);
  }

  method EncodePacked(s: OStream, f: Field, items: seq<Value>) returns (ok: bool)
    requires StreamOk(s.Now()) && Packed(f) && |items| > 0
    requires ItemsAreOk(f.ltype, items) && |EncodeItems(f, items)| < UINT64
    modifies s, s.buf
    ensures Writes(old(s.Now()), s.Now(), ok, ItemsCan(f.ltype, items), EncodeItems(f, items))
    decreases f, 1
  {
    hide *;
    ghost var a, tag, e := s.Now(), TagBytes(f.tag, 2), EncodeAll(f.ltype, items);
    ghost var can := ItemsCan(f.ltype, items);
    PackedParts(f, items);
    WritesNothing(a);
    ok := s.EncodeTag(2, f.tag);
    ghost var b := s.Now();
    NextWritten(a, a, b, ok, [], true, tag, can, Varint(|e|) + e);
    if !ok {
      return;
    }
    WritesIsOk(a, b, tag);
    var size;
    ok, size := PackedSize(f, items);
    if !ok {
      NoBytes(b, Varint(|e|) + e);
      assert Varint(|e|) + e + [] == Varint(|e|) + e;
      NextWritten(a, b, b, false, tag, can, Varint(|e|) + e, can, []);
      return;
    }
    ok := s.EncodeVarint(size);
    ghost var c := s.Now();
    NextWritten(a, b, c, ok, tag, true, Varint(|e|), can, e);
    if !ok {
      return;
    }
    WritesIsOk(a, c, tag + Varint(|e|));
    if s.buf == null {
      s.Count(e, size);
      WritesMore(a, c, s.Now(), true, tag + Varint(|e|), true, e);
      return true;
    }
    ok := EncodeEntries(s, f.ltype, items);
    WritesMore(a, c, s.Now(), ok, tag + Varint(|e|), can, e);
  }

  lemma {:induction false} SizingStreamOk()
    ensures StreamOk(Snapshot(true, 0, [], 0, 0))
  {
  }

  lemma {:induction false} NowWritten(s: OStream)
    ensures s.Now().written == s.bytesWritten
  {
  }

  lemma {:induction false} PackedParts(f: Field, items: seq<Value>)
    requires Packed(f) && |items| > 0
    ensures var e := EncodeAll(f.ltype, items);
            && EncodeItems(f, items) == TagBytes(f.tag, 2) + (Varint(|e|) + e) == TagBytes(f.tag, 2) + Varint(|e|) + e
            && |e| < |EncodeItems(f, items)| && [] + TagBytes(f.tag, 2) == TagBytes(f.tag, 2)
  {
    hide Varint, EncodeAll, TagBytes;
  }

  method EncodeUnpacked(s: OStream, f: Field, items: seq<Value>) returns (ok: bool)
    requires StreamOk(s.Now()) && !Packable(f.ltype)
    requires ItemsAreOk(f.ltype, items) && |EncodeEach(f.tag, f.ltype, items)| < UINT64
    modifies s, s.buf
    ensures Writes(old(s.Now()), s.Now(), ok, ItemsCan(f.ltype, items), EncodeEach(f.tag, f.ltype, items))
    decreases f, 0
  {
    hide Writes, EncodeValue, CanEncode, ValueOk, Varint;
    var t := f.ltype;
    ghost var a, done: seq<Byte> := s.Now(), [];
    WritesNothing(a);
    assert items[0..] == items;
    for i := 0 to |items|
      invariant Writes(a, s.Now(), true, true, done)
      invariant done + EncodeEach(f.tag, t, items[i..]) == EncodeEach(f.tag, t, items)
      invariant forall j :: 0 <= j < i ==> CanEncode(t, items[j])
    {
      ghost var b := s.Now();
      ghost var e, rest := TagBytes(f.tag, WireType(t)) + EncodeValue(t, items[i]), EncodeEach(f.tag, t, items[i + 1..]);
      assert items[i..][1..] == items[i + 1..];
      WritesIsOk(a, b, done);
      ok := EncodeTagged(s, f, items[i]);
      NextWritten(a, b, s.Now(), ok, done, CanEncode(t, items[i]), e, ItemsCan(t, items), rest);
      if !ok {
        return;
      }
      done := done + e;
    }
    assert done + [] == done;
    return true;
  }

  /** A value after its tag: pb_encode_tag_for_field and the encoder. */
  method EncodeTagged(s: OStream, f: Field, v: Value) returns (ok: bool)
    requires StreamOk(s.Now()) && ValueOk(f.ltype, v)
    requires |TagBytes(f.tag, WireType(f.ltype)) + EncodeValue(f.ltype, v)| < UINT64
    modifies s, s.buf
    ensures Writes(old(s.Now()), s.Now(), ok, CanEncode(f.ltype, v), TagBytes(f.tag, WireType(f.ltype)) + EncodeValue(f.ltype, v))
    decreases f.ltype, 2
  {
    hide Writes, EncodeValue, CanEncode, ValueOk, Varint;
    ghost var a, tag := s.Now(), TagBytes(f.tag, WireType(f.ltype));
    ok := s.EncodeTag(WireType(f.ltype), f.tag);
    ghost var b := s.Now();
    if !ok {
      WritesNoMore(a, b, true, tag, CanEncode(f.ltype, v), EncodeValue(f.ltype, v));
      return;
    }
    WritesOk(a, b, tag);
    ok := EncodeItem(s, f.ltype, v);
    WritesMore(a, b, s.Now(), ok, tag, CanEncode(f.ltype, v), EncodeValue(f.ltype, v));
  }

  /** encode_basic_field */
  method EncodeBasicField(s: OStream, f: Field, slot: Slot) returns (ok: bool)
    requires StreamOk(s.Now()) && SlotOk(f, slot) && |EncodeItems(f, Items(f, slot))| < UINT64
    modifies s, s.buf
    ensures Writes(old(s.Now()), s.Now(), ok, CanEncodeField(f, slot), EncodeItems(f, Items(f, slot)))
    decreases f, 3
  {
    hide Writes, EncodeValue, CanEncode, ValueOk, Varint;
    ItemsOk(f, slot);
    if f.htype.Repeated? {
      ok := EncodeArray(s, f, slot.items);
      return;
    }
    var present := match f.htype
      case Required => true
      case Optional(hasField) => if hasField then slot.has else !IsDefault(f, slot)
      case Oneof => slot.tag == f.tag
      case Repeated(_, _) => false;
    if !present {
      WritesNothing(s.Now());
      return true;
    }
    assert Items(f, slot) == [slot.value];
    OneItem(f, slot.value);
    ok := EncodeTagged(s, f, slot.value);
  }

  /** pb_encode */
  method Encode(s: OStream, d: Descriptor, slots: seq<Slot>) returns (ok: bool)
    requires StreamOk(s.Now()) && MessageOk(d, slots) && |EncodeMessage(d, slots)| < UINT64
    modifies s, s.buf
    ensures Writes(old(s.Now()), s.Now(), ok, CanEncodeMessage(d, slots), EncodeMessage(d, slots))
    decreases d, 0
  {
    hide *;
    ghost var a, done: seq<Byte> := s.Now(), [];
    WritesNothing(a);
    var iter := new FieldIter(d);
    CanIsAll(d, slots, 0);
    AllLeft(d, slots);
    if |d.fields| == 0 {
      return true;
    }
    var more := true;
    ghost var k := 0;
    while more
      invariant iter.Valid() && iter.message == d && fresh(iter)
      invariant 0 <= k <= |d.fields| && (if more then k == iter.pos < |d.fields| else k == |d.fields|)
      invariant Writes(a, s.Now(), true, true, done)
      invariant done + EncodeFrom(d, slots, k) == EncodeMessage(d, slots)
      invariant CanBefore(d, slots, k)
      decreases |d.fields| - k
    {
      FieldHere(d, slots, k, iter, done);
      var field, slot := d.fields[iter.pos], slots[iter.place];
      ghost var b, e, rest := s.Now(), EncodeItems(field, Items(field, slot)), EncodeFrom(d, slots, k + 1);
      WritesIsOk(a, b, done);
      ok := EncodeBasicField(s, field, slot);
      CanIsAll(d, slots, k);
      NextWritten(a, b, s.Now(), ok, done, CanEncodeField(field, slot), e, CanEncodeMessage(d, slots), rest);
      if !ok {
        return;
      }
      done := done + e;
      CanOneMore(d, slots, k);
      more := iter.Next();
      k := k + 1;
    }
    CanIsAll(d, slots, k);
    NoneLeft(d, slots, done);
    return true;
  }

  lemma {:induction false} AllLeft(d: Descriptor, slots: seq<Slot>)
    ensures EncodeFrom(d, slots, 0) == EncodeMessage(d, slots) == [] + EncodeFrom(d, slots, 0) && CanBefore(d, slots, 0)
    ensures |d.fields| == 0 ==> EncodeMessage(d, slots) == [] && CanEncodeMessage(d, slots)
  {
    hide EncodeItems, CanEncodeField;
  }

  lemma {:induction false} NoneLeft(d: Descriptor, slots: seq<Slot>, done: seq<Byte>)
    ensures done + EncodeFrom(d, slots, |d.fields|) == done
  {
    hide EncodeItems;
  }

  ghost predicate CanBefore(d: Descriptor, slots: seq<Slot>, k: nat) {
    && k <= |d.fields|
    && forall i :: 0 <= i < k ==> SlotOf(d, i) < |slots| ==> CanEncodeField(d.fields[i], slots[SlotOf(d, i)])
  }

  lemma {:induction false} CanIsAll(d: Descriptor, slots: seq<Slot>, k: nat)
    ensures k == |d.fields| && CanBefore(d, slots, k) ==> CanEncodeMessage(d, slots)
    ensures k < |d.fields| && SlotOf(d, k) < |slots| && CanEncodeMessage(d, slots) ==>
      CanEncodeField(d.fields[k], slots[SlotOf(d, k)])
  {
  }

  lemma {:induction false} CanOneMore(d: Descriptor, slots: seq<Slot>, k: nat)
    requires CanBefore(d, slots, k) && k < |d.fields|
    requires SlotOf(d, k) < |slots| ==> CanEncodeField(d.fields[k], slots[SlotOf(d, k)])
    ensures CanBefore(d, slots, k + 1)
  {
  }

  /** The field the iterator stands at, and its part of the encoding. */
  lemma {:induction false} FieldHere(d: Descriptor, slots: seq<Slot>, k: nat, iter: FieldIter, done: seq<Byte>)
    requires MessageOk(d, slots) && k == iter.pos < |d.fields| && iter.Valid() && iter.message == d
    requires done + EncodeFrom(d, slots, k) == EncodeMessage(d, slots)
    ensures iter.place == SlotOf(d, k) < |slots| && SlotOk(d.fields[k], slots[SlotOf(d, k)])
    ensures var e := EncodeItems(d.fields[k], Items(d.fields[k], slots[SlotOf(d, k)]));
            && EncodeFrom(d, slots, k) == e + EncodeFrom(d, slots, k + 1)
            && |e| <= |EncodeMessage(d, slots)|
  {
    hide EncodeItems, Items, SlotOk, SlotOf, RequiredBefore, EncodeMessage;
  }

  /** pb_get_encoded_size */
  method GetEncodedSize(d: Descriptor, slots: seq<Slot>) returns (ok: bool, size: nat)
    requires MessageOk(d, slots) && |EncodeMessage(d, slots)| < UINT64
    ensures ok <==> CanEncodeMessage(d, slots)
    ensures ok ==> size == |EncodeMessage(d, slots)|
  {
    var s := new OStream.Sizing();
    ok := Encode(s, d, slots);
    SizingIs(s.Now(), ok, CanEncodeMessage(d, slots), EncodeMessage(d, slots));
    size := s.bytesWritten;
  }

  /** pb_ostream_from_buffer and pb_encode: the encoding goes through exactly when the
      sizing pass does and the size it gives fits, and it writes that many bytes. */
  method EncodeToBuffer(buf: array<Byte>, d: Descriptor, slots: seq<Slot>) returns (ok: bool, size: nat)
    requires MessageOk(d, slots) && |EncodeMessage(d, slots)| < UINT64
    modifies buf
    ensures ok <==> CanEncodeMessage(d, slots) && |EncodeMessage(d, slots)| <= buf.Length
    ensures ok ==> size == |EncodeMessage(d, slots)| && buf[..] == EncodeMessage(d, slots) + old(buf[..])[size..]
  {
    hide Writes, EncodeMessage, CanEncodeMessage, MessageOk, KeepsOutside;
    var s := new OStream.Into(buf, 0, buf.Length);
    ghost var a := s.Now();
    ok := Encode(s, d, slots);
    WritesFromStart(a, s.Now(), ok, CanEncodeMessage(d, slots), EncodeMessage(d, slots));
    size := s.bytesWritten;
  }

  lemma {:induction false} WritesFromStart(a: Snapshot, b: Snapshot, ok: bool, can: bool, e: seq<Byte>)
    requires Writes(a, b, ok, can, e) && !a.sizing && a.state == 0 == a.written && a.maxSize == |a.bytes|
    ensures ok <==> can && |e| <= |a.bytes|
    ensures ok ==> b.written == |e| && b.bytes == e + a.bytes[|e|..]
  {
    hide KeepsOutside;
  }

  // ----- steps of the proofs -----

  lemma {:induction false} CopiedOne(was: seq<Byte>, dest: nat, bytes: seq<Byte>, i: nat, before: seq<Byte>)
    requires i < |bytes| && dest + |bytes| <= |was| && before == was[..dest] + bytes[..i] + was[dest + i..]
    ensures before[dest + i := bytes[i]] == was[..dest] + bytes[..i + 1] + was[dest + i + 1..]
  {
    assert bytes[..i + 1] == bytes[..i] + [bytes[i]];
    assert was[dest + i..] == [was[dest + i]] + was[dest + i + 1..];
  }

  lemma {:induction false} NoBytes(a: Snapshot, e: seq<Byte>)
    requires StreamOk(a)
    ensures Writes(a, a, false, false, e)
  {
  }

  lemma {:induction false} DelimitedIsLonger(bytes: seq<Byte>)
    ensures |bytes| < |Delimited(bytes)|
  {
  }

  lemma {:induction false} WritesIsOk(a: Snapshot, b: Snapshot, e: seq<Byte>)
    requires Writes(a, b, true, true, e)
    ensures StreamOk(b) && b.sizing == a.sizing
  {
  }

  lemma {:induction false} WritesOk(a: Snapshot, b: Snapshot, e: seq<Byte>)
    requires Writes(a, b, true, true, e)
    ensures StreamOk(a) && StreamOk(b) && b.sizing == a.sizing && Fits(a, |e|) && b == Append(a, e)
  {
  }

  lemma {:induction false} WrittenCould(a: Snapshot, b: Snapshot, can: bool, e: seq<Byte>)
    requires Writes(a, b, true, can, e)
    ensures can
  {
  }

  lemma {:induction false} SizingIs(b: Snapshot, ok: bool, can: bool, e: seq<Byte>)
    requires Writes(Snapshot(true, 0, [], 0, 0), b, ok, can, e)
    ensures ok == can && (ok ==> b.written == |e|)
  {
  }

  lemma {:induction false} StreamFull(a: Snapshot, b: Snapshot, e: seq<Byte>, f: seq<Byte>)
    requires Writes(a, b, true, true, e) && !Fits(b, |f|)
    ensures Writes(a, b, false, true, e + f)
  {
  }

  /** The substream takes exactly the size it was promised. */
  lemma {:induction false} SubstreamIsExact(b: Snapshot, p: Snapshot, q: Snapshot, ok: bool, e: seq<Byte>)
    requires StreamOk(b) && !b.sizing && Fits(b, |e|)
    requires p == Snapshot(false, |e|, b.bytes, b.state, 0) && Writes(p, q, ok, true, e)
    ensures ok && q.written == |e|
    ensures Writes(b, Snapshot(false, b.maxSize, q.bytes, q.state, b.written + q.written), true, true, e)
  {
    AppendTwice(b, e, []);
  }

  lemma {:induction false} FixedSizes(t: LType, items: seq<Value>)
    requires t.Fixed32Type? || t.Fixed64Type?
    ensures |EncodeAll(t, items)| == (if t.Fixed32Type? then 4 else 8) * |items|
    ensures ItemsCan(t, items)
  {
    if |items| > 0 { FixedSizes(t, items[1..]); }
  }

  lemma {:induction false} OneItem(f: Field, v: Value)
    requires !f.htype.Repeated?
    ensures EncodeItems(f, [v]) == TagBytes(f.tag, WireType(f.ltype)) + EncodeValue(f.ltype, v)
  {
    var e := TagBytes(f.tag, WireType(f.ltype)) + EncodeValue(f.ltype, v);
    assert [v][1..] == [];
    assert EncodeEach(f.tag, f.ltype, [v]) == e + [] == e;
  }

  /** A varint's bytes once the last one's top bit is unset. */
  function Ended(buffer: seq<Byte>): seq<Byte>
    requires |buffer| > 0
  {
    buffer[..|buffer| - 1] + [buffer[|buffer| - 1] % 128]
  }

  lemma {:induction false} ZigzagBits(value: int)
    requires -0x8000_0000_0000_0000 <= value < 0x8000_0000_0000_0000
    ensures Zigzag(value) < UINT64
    ensures Zigzag(value) == if value < 0 then UINT64 - 1 - Unsigned(value) * 2 % UINT64 else Unsigned(value) * 2 % UINT64
  {
    assert Unsigned(value) == if value < 0 then value + UINT64 else value;
    if value < 0 { assert Unsigned(value) * 2 == UINT64 + (UINT64 + 2 * value); }
  }

  lemma {:induction false} VarintStep(buffer: seq<Byte>, v: nat, byte: Byte)
    requires v > 0 && byte == v % 128 + 128
    ensures if v >= 128 then buffer + Varint(v) == buffer + [byte] + Varint(v / 128)
            else v / 128 == 0 && Ended(buffer + [byte]) == buffer + Varint(v)
  {
    if v >= 128 {
      assert buffer + ([byte] + Varint(v / 128)) == (buffer + [byte]) + Varint(v / 128);
    } else {
      assert byte % 128 == v;
    }
  }

  lemma {:induction false} LongBytes(value: nat)
    requires value < UINT64
    ensures EncodeFixed64(value) == [
      value % 256, value / 256 % 256, value / 65536 % 256, value / 16777216 % 256,
      value / 0x1_0000_0000 % 256, value / 0x100_0000_0000 % 256,
      value / 0x1_0000_0000_0000 % 256, value / 0x100_0000_0000_0000 % 256]
  {
    var low, high := value % UINT32, value / UINT32;
    SecondByte(value, low, high);
    ThirdByte(value, low, high);
    FourthByte(value, low, high);
    HighBytes(value, high);
  }

  lemma {:induction false} SecondByte(value: nat, low: nat, high: nat)
    requires value == high * UINT32 + low && low < UINT32
    ensures low % 256 == value % 256 && low / 256 % 256 == value / 256 % 256
  {
    assert value / 256 == high * 16777216 + low / 256;
  }

  lemma {:induction false} ThirdByte(value: nat, low: nat, high: nat)
    requires value == high * UINT32 + low && low < UINT32
    ensures low / 65536 % 256 == value / 65536 % 256
  {
    assert value / 65536 == high * 65536 + low / 65536;
  }

  lemma {:induction false} FourthByte(value: nat, low: nat, high: nat)
    requires value == high * UINT32 + low && low < UINT32
    ensures low / 16777216 == value / 16777216 % 256
  {
    assert value / 16777216 == high * 256 + low / 16777216;
  }

  lemma {:induction false} HighBytes(value: nat, high: nat)
    requires high == value / UINT32 && high < UINT32
    ensures high % UINT32 == high && high % 256 == value / 0x1_0000_0000 % 256
    ensures high / 256 == value / 0x100_0000_0000
    ensures high / 65536 == value / 0x1_0000_0000_0000
    ensures high / 16777216 == value / 0x100_0000_0000_0000 == value / 0x100_0000_0000_0000 % 256
  {
  }
}
