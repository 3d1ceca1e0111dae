/** What decoding an encoded message must give (nanopb: pb_decode.c): the items on the
    wire put, one by one, into a message that holds the default values. */
module PbMeaning {
  import opened Coding
  import opened PbFormat

  // ----- default values: pb_message_set_to_defaults -----

  function DefaultValue(t: LType): Value
    decreases t
  {
    match t
    case BytesType(_) => Bytes([])
    case StringType(_) => Bytes([])
    case FixedBytesType(n) => Bytes(seq(n, _ => 0))
    case SubmessageType(d) => Message(Defaults(d))
    case _ => Int(0)
  }

  function DefaultSlot(f: Field): Slot
    decreases f
  {
    match f.htype
    case Required => One(DefaultValue(f.ltype))
    case Optional(hasField) => if hasField then Maybe(false, DefaultValue(f.ltype)) else One(DefaultValue(f.ltype))
    case Repeated(max, counted) => Many(if counted then [] else var v := DefaultValue(f.ltype); seq(max, _ => v))
    case Oneof => Which(0, Int(0))
  }

  /** The places of the first `k` fields. */
  function DefaultsUpTo(d: Descriptor, k: nat): (r: seq<Slot>)
    requires k <= |d.fields|
    ensures |r| == if k == 0 then 0 else SlotOf(d, k - 1) + 1
    decreases d, k
  {
    if k == 0 then []
    else DefaultsUpTo(d, k - 1) + if JoinsUnion(d, k - 1) then [] else [DefaultSlot(d.fields[k - 1])]
  }

  function Defaults(d: Descriptor): (r: seq<Slot>)
    ensures |r| == SlotCount(d)
    decreases d
  {
    DefaultsUpTo(d, |d.fields|)
  }

  lemma {:induction false} DefaultAt(d: Descriptor, k: nat, i: nat)
    requires i < k <= |d.fields|
    ensures SlotOf(d, i) < |DefaultsUpTo(d, k)| && DefaultsUpTo(d, k)[SlotOf(d, i)] == DefaultSlot(d.fields[i])
    decreases k
  {
    SlotsAscend(d, i, k - 1);
    if i < k - 1 {
      DefaultAt(d, k - 1, i);
    } else if JoinsUnion(d, i) {
      DefaultAt(d, k - 1, i - 1);
    }
  }

  // ----- putting items in -----

  function PutItem(f: Field, s: Slot, j: nat, c: Value): Slot {
    match f.htype
    case Required => One(c)
    case Optional(hasField) => if hasField then Maybe(true, c) else One(c)
    case Repeated(_, counted) =>
      Many(if counted then ItemsIn(s) + [c] else if j < |ItemsIn(s)| then ItemsIn(s)[j := c] else ItemsIn(s))
    case Oneof => Which(f.tag, c)
  }

  function ItemsAt(d: Descriptor, slots: seq<Slot>, k: nat): seq<Value> {
    if k < |d.fields| && SlotOf(d, k) < |slots| then Items(d.fields[k], slots[SlotOf(d, k)]) else []
  }

  /** What decoding makes of a value. */
  function Decoded(t: LType, v: Value): Value
    decreases t
  {
    match t
    case SubmessageType(d) => Message(State(d, SlotsIn(v), |d.fields|, 0))
    case _ => v
  }

  /** The message when the fields before `k` and the first `j` items of field `k` are in. */
  function State(d: Descriptor, slots: seq<Slot>, k: nat, j: nat): (r: seq<Slot>)
    requires k <= |d.fields| && j <= |ItemsAt(d, slots, k)|
    ensures |r| == SlotCount(d)
    decreases d, k, j
  {
    if j > 0 then
      SlotIsPlace(d, k);
      var before := State(d, slots, k, j - 1);
      var f, at := d.fields[k], SlotOf(d, k);
      before[at := PutItem(f, before[at], j - 1, Decoded(f.ltype, ItemsAt(d, slots, k)[j - 1]))]
    else if k > 0 then State(d, slots, k - 1, |ItemsAt(d, slots, k - 1)|)
    else Defaults(d)
  }

  // ----- descriptors and messages that decoding is made for -----

  /** Tags are distinct and fit beside a wire type in 32 bits. */
  predicate DescriptorOk(d: Descriptor)
    decreases d
  {
    && (forall i, j :: 0 <= i < j < |d.fields| ==> d.fields[i].tag != d.fields[j].tag)
    && forall i :: 0 <= i < |d.fields| ==> d.fields[i].tag < 0x2000_0000 && TypeOk(d.fields[i].ltype)
  }

  predicate TypeOk(t: LType)
    decreases t
  {
    t.SubmessageType? ==> DescriptorOk(t.message)
  }

  /** Strings are terminated within their arrays, and a `which_` names a member of its union or none. */
  predicate Readable(t: LType, v: Value)
    decreases t
  {
    match t
    case StringType(n) => |BytesIn(v)| < n
    case SubmessageType(d) => ReadableMessage(d, SlotsIn(v))
    case _ => true
  }

  predicate ReadableMessage(d: Descriptor, slots: seq<Slot>)
    decreases d
  {
    forall i :: 0 <= i < |d.fields| ==> ReadableItems(d.fields[i], ItemsAt(d, slots, i)) && WhichOk(d, slots, i)
  }

  predicate ReadableItems(f: Field, items: seq<Value>)
    decreases f
  {
    forall j :: 0 <= j < |items| ==> Readable(f.ltype, items[j])
  }

  predicate WhichOk(d: Descriptor, slots: seq<Slot>, i: nat)
    requires i < |d.fields|
  {
    d.fields[i].htype.Oneof? && SlotOf(d, i) < |slots| && slots[SlotOf(d, i)].Which? && slots[SlotOf(d, i)].tag != 0 ==>
      exists m :: 0 <= m < |d.fields| && SlotOf(d, m) == SlotOf(d, i) && d.fields[m].tag == slots[SlotOf(d, i)].tag
  }

  // ----- messages that say the same -----

  predicate SameValue(t: LType, a: Value, b: Value)
    decreases t
  {
    if t.SubmessageType? then SameMessage(t.message, SlotsIn(a), SlotsIn(b)) else a == b
  }

  predicate SameItems(f: Field, a: seq<Value>, b: seq<Value>)
    decreases f
  {
    |a| == |b| && forall j :: 0 <= j < |a| ==> SameValue(f.ltype, a[j], b[j])
  }

  /** The same fields are present and hold the same values. */
  predicate SameMessage(d: Descriptor, a: seq<Slot>, b: seq<Slot>)
    decreases d
  {
    forall i :: 0 <= i < |d.fields| ==> SameItems(d.fields[i], ItemsAt(d, a, i), ItemsAt(d, b, i))
  }

  // ----- what the states hold -----

  /** Nothing has been put into a field's place before the field's turn. */
  lemma {:induction false} NotYet(d: Descriptor, slots: seq<Slot>, k: nat, j: nat, i: nat)
    requires k <= |d.fields| && j <= |ItemsAt(d, slots, k)|
    requires i < |d.fields| && !d.fields[i].htype.Oneof? && (k < i || (k == i && j == 0))
    ensures SlotOf(d, i) < SlotCount(d) && State(d, slots, k, j)[SlotOf(d, i)] == DefaultSlot(d.fields[i])
    decreases k, j
  {
    SlotIsPlace(d, i);
    if j > 0 {
      NotYet(d, slots, k, j - 1, i);
      if SlotOf(d, k) == SlotOf(d, i) { SharedSlot(d, k, i); }
    } else if k > 0 {
      NotYet(d, slots, k - 1, |ItemsAt(d, slots, k - 1)|, i);
    } else {
      DefaultAt(d, |d.fields|, i);
    }
  }

  /** What is in a field's place after its turn stays there. */
  lemma {:induction false} NoMore(d: Descriptor, slots: seq<Slot>, k: nat, j: nat, i: nat)
    requires i < k <= |d.fields| && j <= |ItemsAt(d, slots, k)| && !d.fields[i].htype.Oneof?
    ensures SlotOf(d, i) < SlotCount(d)
    ensures State(d, slots, k, j)[SlotOf(d, i)] == State(d, slots, i, |ItemsAt(d, slots, i)|)[SlotOf(d, i)]
    decreases k, j
  {
    SlotIsPlace(d, i);
    if j > 0 {
      NoMore(d, slots, k, j - 1, i);
      if SlotOf(d, k) == SlotOf(d, i) { SharedSlot(d, k, i); }
    } else if k - 1 > i {
      NoMore(d, slots, k - 1, |ItemsAt(d, slots, k - 1)|, i);
    }
  }

  function DecodedAll(t: LType, items: seq<Value>): (r: seq<Value>)
    ensures |r| == |items|
    ensures forall j :: 0 <= j < |items| ==> r[j] == Decoded(t, items[j])
  {
    if |items| == 0 then [] else DecodedAll(t, items[..|items| - 1]) + [Decoded(t, items[|items| - 1])]
  }

  /** An array while its items come in. */
  lemma {:induction false} Arriving(d: Descriptor, slots: seq<Slot>, k: nat, j: nat)
    requires k < |d.fields| && j <= |ItemsAt(d, slots, k)| && d.fields[k].htype.Repeated?
    requires !d.fields[k].htype.counted ==> |ItemsAt(d, slots, k)| <= d.fields[k].htype.max
    ensures SlotOf(d, k) < SlotCount(d) && State(d, slots, k, j)[SlotOf(d, k)].Many?
    ensures var held := State(d, slots, k, j)[SlotOf(d, k)].items;
      && |held| == (if d.fields[k].htype.counted then j else d.fields[k].htype.max)
      && forall m :: 0 <= m < j ==> held[m] == Decoded(d.fields[k].ltype, ItemsAt(d, slots, k)[m])
    decreases j
  {
    SlotIsPlace(d, k);
    if j == 0 {
      NotYet(d, slots, k, 0, k);
    } else {
      Arriving(d, slots, k, j - 1);
    }
  }

  /** A union: it stays empty until the member that `which_` names has come in. */
  lemma {:induction false} UnionHolds(d: Descriptor, slots: seq<Slot>, k: nat, j: nat, i: nat)
    requires DescriptorOk(d) && k <= |d.fields| && j <= |ItemsAt(d, slots, k)|
    requires i < |d.fields| && d.fields[i].htype.Oneof? && SlotOf(d, i) < |slots| && slots[SlotOf(d, i)].Which?
    ensures SlotOf(d, i) < SlotCount(d)
    ensures var held, which := State(d, slots, k, j)[SlotOf(d, i)], slots[SlotOf(d, i)];
      && held.Which? && (held.tag == 0 || held.tag == which.tag)
      && (which.tag == d.fields[i].tag && (i < k || (i == k && j > 0)) ==>
            held == Which(which.tag, Decoded(d.fields[i].ltype, which.value)))
    decreases k, j
  {
    SlotIsPlace(d, i);
    if j > 0 {
      UnionHolds(d, slots, k, j - 1, i);
      if SlotOf(d, k) == SlotOf(d, i) && k != i {
        SharedSlot(d, k, i);
        if k < i { assert d.fields[k].tag != d.fields[i].tag; } else { assert d.fields[i].tag != d.fields[k].tag; }
      }
    } else if k > 0 {
      UnionHolds(d, slots, k - 1, |ItemsAt(d, slots, k - 1)|, i);
      if i == k - 1 && slots[SlotOf(d, i)].tag == d.fields[i].tag {
        assert |ItemsAt(d, slots, i)| == 1;
      }
    } else {
      DefaultAt(d, |d.fields|, i);
    }
  }

  /** A place once everything has come in. */
  predicate Arrived(f: Field, was: Slot, now: Slot) {
    match f.htype
    case Required => was.One? && now == One(Decoded(f.ltype, was.value))
    case Optional(true) =>
      was.Maybe? && now == if was.has then Maybe(true, Decoded(f.ltype, was.value)) else Maybe(false, DefaultValue(f.ltype))
    case Optional(false) =>
      was.One? && now == One(if IsDefault(f, was) then DefaultValue(f.ltype) else Decoded(f.ltype, was.value))
    case Repeated(_, _) => was.Many? && now.Many? && now.items == DecodedAll(f.ltype, was.items)
    case Oneof =>
      && was.Which? && now.Which? && (now.tag == 0 || now.tag == was.tag)
      && (was.tag == f.tag ==> now == Which(f.tag, Decoded(f.ltype, was.value)))
  }

  lemma {:induction false} AllArrive(d: Descriptor, slots: seq<Slot>, i: nat)
    requires DescriptorOk(d) && MessageOk(d, slots) && i < |d.fields|
    ensures SlotOf(d, i) < |slots| == SlotCount(d)
    ensures Arrived(d.fields[i], slots[SlotOf(d, i)], State(d, slots, |d.fields|, 0)[SlotOf(d, i)])
  {
    hide ValueOk, IsDefault;
    var n, f, was := |d.fields|, d.fields[i], slots[SlotOf(d, i)];
    SlotIsPlace(d, i);
    assert SlotOk(f, was);
    if f.htype.Oneof? {
      UnionHolds(d, slots, n, 0, i);
    } else {
      NoMore(d, slots, n, 0, i);
      if f.htype.Repeated? {
        Arriving(d, slots, i, |ItemsAt(d, slots, i)|);
      } else {
        NotYet(d, slots, i, 0, i);
      }
    }
  }

  // ----- decoding keeps the meaning -----

  /** A value that says nothing can be left out: the default says nothing either. */
  lemma {:induction false} ZeroIsDefault(t: LType, v: Value)
    requires ValueOk(t, v) && IsZero(t, v)
    ensures IsZero(t, DefaultValue(t))
    decreases t
  {
    if t.SubmessageType? {
      var d, slots := t.message, v.slots;
      forall i | 0 <= i < |d.fields|
        ensures SlotOf(d, i) < SlotCount(d) && IsDefault(d.fields[i], Defaults(d)[SlotOf(d, i)])
      {
        SlotIsPlace(d, i);
        DefaultAt(d, |d.fields|, i);
        var f := d.fields[i];
        assert SlotOk(f, slots[SlotOf(d, i)]) && IsDefault(f, slots[SlotOf(d, i)]);
        if f.htype == Optional(false) { ZeroIsDefault(f.ltype, slots[SlotOf(d, i)].value); }
      }
    }
  }

  /** Decoding keeps whether a value says anything. */
  lemma {:induction false} ZeroKept(t: LType, v: Value)
    requires TypeOk(t) && ValueOk(t, v) && Readable(t, v)
    ensures IsZero(t, Decoded(t, v)) == IsZero(t, v)
    decreases t
  {
    if t.SubmessageType? {
      var d, slots := t.message, v.slots;
      forall i | 0 <= i < |d.fields|
        ensures SlotOf(d, i) < SlotCount(d)
        ensures IsDefault(d.fields[i], State(d, slots, |d.fields|, 0)[SlotOf(d, i)]) == IsDefault(d.fields[i], slots[SlotOf(d, i)])
      {
        DefaultKept(d, slots, i);
      }
      AllDefaultKept(d, slots);
    }
  }

  lemma {:induction false} AllDefaultKept(d: Descriptor, slots: seq<Slot>)
    requires |slots| == SlotCount(d)
    requires forall i :: 0 <= i < |d.fields| ==> SlotOf(d, i) < SlotCount(d)
    requires forall i :: 0 <= i < |d.fields| ==>
      IsDefault(d.fields[i], State(d, slots, |d.fields|, 0)[SlotOf(d, i)]) == IsDefault(d.fields[i], slots[SlotOf(d, i)])
    ensures AllDefault(d, State(d, slots, |d.fields|, 0)) == AllDefault(d, slots)
  {
    hide IsDefault, SlotOf, State;
  }

  lemma {:induction false} DefaultKept(d: Descriptor, slots: seq<Slot>, i: nat)
    requires DescriptorOk(d) && MessageOk(d, slots) && ReadableMessage(d, slots) && i < |d.fields|
    ensures SlotOf(d, i) < |slots| == SlotCount(d)
    ensures IsDefault(d.fields[i], State(d, slots, |d.fields|, 0)[SlotOf(d, i)]) == IsDefault(d.fields[i], slots[SlotOf(d, i)])
    decreases d
  {
    hide State, MessageOk, ReadableMessage, DescriptorOk, IsZero, DefaultsUpTo, Decoded, ValueOk;
    AllArrive(d, slots, i);
    FieldFacts(d, slots, i);
    var f, was, now := d.fields[i], slots[SlotOf(d, i)], State(d, slots, |d.fields|, 0)[SlotOf(d, i)];
    if f.htype == Optional(false) {
      if IsDefault(f, was) {
        ZeroIsDefault(f.ltype, was.value);
      } else {
        assert Items(f, was)[0] == was.value;
        ZeroKept(f.ltype, was.value);
      }
    } else if f.htype.Oneof? && was.tag != 0 {
      UnionFilled(d, slots, i);
    }
  }

  lemma {:induction false} FieldFacts(d: Descriptor, slots: seq<Slot>, i: nat)
    requires DescriptorOk(d) && MessageOk(d, slots) && ReadableMessage(d, slots) && i < |d.fields|
    ensures TypeOk(d.fields[i].ltype) && SlotOf(d, i) < |slots| == SlotCount(d)
    ensures SlotOk(d.fields[i], slots[SlotOf(d, i)]) && WhichOk(d, slots, i)
    ensures forall j :: 0 <= j < |Items(d.fields[i], slots[SlotOf(d, i)])| ==>
      Readable(d.fields[i].ltype, Items(d.fields[i], slots[SlotOf(d, i)])[j])
  {
    hide ValueOk, Readable, TypeOk;
    assert ReadableItems(d.fields[i], ItemsAt(d, slots, i));
  }

  lemma {:induction false} UnionFilled(d: Descriptor, slots: seq<Slot>, i: nat)
    requires DescriptorOk(d) && MessageOk(d, slots) && i < |d.fields| && d.fields[i].htype.Oneof?
    requires WhichOk(d, slots, i)
    requires SlotOf(d, i) < |slots| == SlotCount(d) && slots[SlotOf(d, i)].Which? && slots[SlotOf(d, i)].tag != 0
    ensures State(d, slots, |d.fields|, 0)[SlotOf(d, i)].Which?
    ensures State(d, slots, |d.fields|, 0)[SlotOf(d, i)].tag == slots[SlotOf(d, i)].tag
  {
    hide State, MessageOk, DescriptorOk;
    var m :| 0 <= m < |d.fields| && SlotOf(d, m) == SlotOf(d, i) && d.fields[m].tag == slots[SlotOf(d, i)].tag;
    if m != i { SharedSlot(d, m, i); }
    AllArrive(d, slots, m);
  }

  /** What decoding makes of a value says the same as the value. */
  lemma {:induction false} DecodedSame(t: LType, v: Value)
    requires TypeOk(t) && ValueOk(t, v) && Readable(t, v)
    ensures SameValue(t, Decoded(t, v), v)
    decreases t
  {
    if t.SubmessageType? { MeaningKept(t.message, v.slots); }
  }

  /** The same fields are present after the round trip, with the same values. */
  lemma {:induction false} MeaningKept(d: Descriptor, slots: seq<Slot>)
    requires DescriptorOk(d) && MessageOk(d, slots) && ReadableMessage(d, slots)
    ensures SameMessage(d, State(d, slots, |d.fields|, 0), slots)
    decreases d
  {
    hide State, MessageOk, ReadableMessage, DescriptorOk, SlotOf, Items, SameValue, Decoded, TypeOk, ValueOk, Readable;
    var now := State(d, slots, |d.fields|, 0);
    forall i | 0 <= i < |d.fields|
      ensures SameItems(d.fields[i], ItemsAt(d, now, i), ItemsAt(d, slots, i))
    {
      FieldFacts(d, slots, i);
      ItemsArrive(d, slots, i);
      var f, items := d.fields[i], ItemsAt(d, slots, i);
      ItemsOk(f, slots[SlotOf(d, i)]);
      forall j | 0 <= j < |items| ensures SameValue(f.ltype, DecodedAll(f.ltype, items)[j], items[j]) {
        DecodedSame(f.ltype, items[j]);
      }
    }
  }

  lemma {:induction false} ItemsArrive(d: Descriptor, slots: seq<Slot>, i: nat)
    requires DescriptorOk(d) && MessageOk(d, slots) && ReadableMessage(d, slots) && i < |d.fields|
    ensures ItemsAt(d, State(d, slots, |d.fields|, 0), i) == DecodedAll(d.fields[i].ltype, ItemsAt(d, slots, i))
  {
    hide State, MessageOk, ReadableMessage, DescriptorOk, IsZero, Decoded, ValueOk, Readable, DefaultValue, IsDefault;
    AllArrive(d, slots, i);
    FieldFacts(d, slots, i);
    DefaultKept(d, slots, i);
    var f, was, now := d.fields[i], slots[SlotOf(d, i)], State(d, slots, |d.fields|, 0)[SlotOf(d, i)];
    assert ItemsAt(d, slots, i) == Items(f, was);
    if |Items(f, was)| == 1 {
      assert DecodedAll(f.ltype, Items(f, was)) == [Decoded(f.ltype, Items(f, was)[0])];
    }
    match f.htype
    case Required => assert Items(f, now) == [now.value];
    case Optional(true) =>
    case Optional(false) =>
    case Repeated(_, _) =>
    case Oneof =>
  }
}
