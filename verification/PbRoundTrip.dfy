/** From a message to bytes and back (nanopb: pb_encode.c, pb_decode.c). */
module PbRoundTrip {
  import opened Coding
  import opened PbFormat
  import opened PbMeaning
  import opened PbStream
  import opened PbEncode
  import opened PbDecode

  /** pb_encode into a buffer and pb_decode of what is there: every message that fits comes
      back with the same fields present and the same values in them. */
  method RoundTrip(d: Descriptor, slots: seq<Slot>, buf: array<Byte>) returns (ok: bool, back: seq<Slot>)
    requires DescriptorOk(d) && MessageOk(d, slots) && ReadableMessage(d, slots) && |EncodeMessage(d, slots)| < UINT32
    modifies buf
    ensures ok <==> CanEncodeMessage(d, slots) && |EncodeMessage(d, slots)| <= buf.Length
    ensures ok ==> SameMessage(d, back, slots) && HeldMessage(d, back)
  {
    hide DescriptorOk, MessageOk, ReadableMessage, CanEncodeMessage, SameMessage, HeldMessage, State, EncodeMessage;
    var size;
    ok, size := EncodeToBuffer(buf, d, slots);
    back := [];
    if ok {
      assert buf[..size] == EncodeMessage(d, slots);
      var s := new IStream(buf[..size], 0, size);
      ok, back := Decode(s, d, slots);
      MeaningKept(d, slots);
    }
  }
}
