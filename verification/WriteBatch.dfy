/** WriteBatch (db/write_batch.cc): operations as bytes, and back. */
module WriteBatch {
  import opened Coding

  datatype BatchOp = Put(key: seq<Byte>, value: seq<Byte>) | Delete(key: seq<Byte>)

  datatype Status = Ok | Corruption(reason: string)

  /** kHeader: a sequence number in 8 bytes and a count in 4. */
  const HEADER: nat := 12
  const TYPE_DELETION: Byte := 0
  const TYPE_VALUE: Byte := 1

  function EncodeFixed64(v: nat): (r: seq<Byte>)
    requires v < 0x1_0000_0000_0000_0000
    ensures |r| == 8
  {
    EncodeFixed32(v % 0x1_0000_0000) + EncodeFixed32(v / 0x1_0000_0000)
  }

  function DecodeFixed64(s: seq<Byte>): nat
    requires |s| >= 8
  {
    DecodeFixed32(s) + 0x1_0000_0000 * DecodeFixed32(s[4..])
  }

  lemma {:induction false} Fixed64RoundTrip(v: nat, rest: seq<Byte>)
    requires v < 0x1_0000_0000_0000_0000
    ensures DecodeFixed64(EncodeFixed64(v) + rest) == v
  {
    hide EncodeFixed32, DecodeFixed32;
    var low, high := EncodeFixed32(v % 0x1_0000_0000), EncodeFixed32(v / 0x1_0000_0000);
    Fixed32RoundTrip(v % 0x1_0000_0000, high + rest);
    Fixed32RoundTrip(v / 0x1_0000_0000, rest);
    assert EncodeFixed64(v) + rest == low + (high + rest);
    assert (EncodeFixed64(v) + rest)[4..] == high + rest;
  }

  // ----- the format -----

  function LengthPrefixed(s: seq<Byte>): seq<Byte> {
    Varint(|s|) + s
  }

  function OpBytes(op: BatchOp): seq<Byte> {
    match op
    case Put(k, v) => [TYPE_VALUE] + LengthPrefixed(k) + LengthPrefixed(v)
    case Delete(k) => [TYPE_DELETION] + LengthPrefixed(k)
  }

  function Body(ops: seq<BatchOp>): seq<Byte> {
    if |ops| == 0 then [] else OpBytes(ops[0]) + Body(ops[1..])
  }

  lemma {:induction false} BodySum(a: seq<BatchOp>, b: seq<BatchOp>)
    ensures Body(a + b) == Body(a) + Body(b)
  {
    hide OpBytes;
    if |a| == 0 {
      assert a + b == b;
    } else {
      assert (a + b)[1..] == a[1..] + b;
      BodySum(a[1..], b);
    }
  }

  lemma {:induction false} BodySnoc(ops: seq<BatchOp>, op: BatchOp)
    ensures Body(ops + [op]) == Body(ops) + OpBytes(op)
  {
    BodySum(ops, [op]);
    assert [op][1..] == [];
    assert Body([op]) == OpBytes(op) + Body([]);
  }

  /** Slices have 32-bit lengths. */
  predicate Fits(op: BatchOp) {
    |op.key| < 0x1_0000_0000 && (op.Put? ==> |op.value| < 0x1_0000_0000)
  }

  /** `rep` is a well-formed batch of these operations. */
  ghost predicate Encodes(rep: seq<Byte>, sequence: nat, ops: seq<BatchOp>) {
    && sequence < 0x1_0000_0000_0000_0000 && |ops| < 0x1_0000_0000 && (forall op :: op in ops ==> Fits(op))
    && rep == EncodeFixed64(sequence) + EncodeFixed32(|ops|) + Body(ops)
  }

  lemma {:induction false} HeaderFields(rep: seq<Byte>, sequence: nat, ops: seq<BatchOp>)
    requires Encodes(rep, sequence, ops)
    ensures |rep| >= HEADER && DecodeFixed64(rep) == sequence && DecodeFixed32(rep[8..]) == |ops|
    ensures rep[HEADER..] == Body(ops)
    ensures rep == EncodeFixed64(sequence) + rep[8..] && rep == rep[..8] + EncodeFixed32(|ops|) + Body(ops)
  {
    hide EncodeFixed32, DecodeFixed32, EncodeFixed64, DecodeFixed64, Body;
    var count, body := EncodeFixed32(|ops|), Body(ops);
    assert rep == EncodeFixed64(sequence) + (count + body);
    Fixed64RoundTrip(sequence, count + body);
    assert rep[8..] == count + body;
    Fixed32RoundTrip(|ops|, body);
  }

  // ----- reading -----

  method GetLengthPrefixedSlice(rep: seq<Byte>, p: nat, ghost s: seq<Byte>) returns (ok: bool, slice: seq<Byte>, q: nat)
    requires p <= |rep|
    ensures ok ==> p < q <= |rep|
    ensures |s| < 0x1_0000_0000 && LengthPrefixed(s) <= rep[p..] ==> ok && slice == s && q == p + |LengthPrefixed(s)|
  {
    hide Varint;
    ghost var good := |s| < 0x1_0000_0000 && LengthPrefixed(s) <= rep[p..];
    if good { PrefixedParts(rep, p, s); }
    var len, r;
    ok, len, r := GetVarint32Ptr(rep, p, |rep|, |s|);
    if !ok || len > |rep| - r {
      return false, [], p;
    }
    return true, rep[r..r + len], r + len;
  }

  lemma {:induction false} PrefixedParts(rep: seq<Byte>, p: nat, s: seq<Byte>)
    requires p <= |rep| && LengthPrefixed(s) <= rep[p..]
    ensures VarintAt(rep, p, |rep|, |s|)
    ensures var r := p + |Varint(|s|)|; r + |s| <= |rep| && rep[r..r + |s|] == s
  {
    hide Varint;
    var v := Varint(|s|);
    var t := rep[p..];
    assert t[..|v|] == (v + s)[..|v|] == v;
    assert t[..|v|] == rep[p..p + |v|];
    assert t[|v|..|v| + |s|] == (v + s)[|v|..] == s;
    assert t[|v|..|v| + |s|] == rep[p + |v|..p + |v| + |s|];
  }

  /** The operation at the front of what is left, and the bytes after it. */
  lemma {:induction false} NextOp(rep: seq<Byte>, p: nat, ops: seq<BatchOp>)
    requires p <= |rep| && rep[p..] == Body(ops) && |ops| > 0
    ensures p < |rep| && rep[p] == (if ops[0].Put? then TYPE_VALUE else TYPE_DELETION)
    ensures LengthPrefixed(ops[0].key) <= rep[p + 1..]
    ensures var k := LengthPrefixed(ops[0].key);
            && p + 1 + |k| <= |rep|
            && if ops[0].Put? then var v := LengthPrefixed(ops[0].value);
                                   v <= rep[p + 1 + |k|..] && p + 1 + |k| + |v| <= |rep| && rep[p + 1 + |k| + |v|..] == Body(ops[1..])
               else rep[p + 1 + |k|..] == Body(ops[1..])
  {
    hide LengthPrefixed;
    var k, rest := LengthPrefixed(ops[0].key), Body(ops[1..]);
    if ops[0].Put? {
      PutParts(rep, p, k, LengthPrefixed(ops[0].value), rest);
    } else {
      TagAndKey(rep, p, TYPE_DELETION, k, rest);
    }
  }

  lemma {:induction false} TagAndKey(rep: seq<Byte>, p: nat, tag: Byte, k: seq<Byte>, rest: seq<Byte>)
    requires p <= |rep| && rep[p..] == [tag] + k + rest
    ensures p < |rep| && rep[p] == tag && p + 1 + |k| <= |rep| && k <= rep[p + 1..] && rep[p + 1 + |k|..] == rest
  {
    assert rep[p] == rep[p..][0];
    assert [tag] + k + rest == [tag] + (k + rest);
    Suffix(rep, p, [tag], k + rest);
    Suffix(rep, p + 1, k, rest);
  }

  lemma {:induction false} PutParts(rep: seq<Byte>, p: nat, k: seq<Byte>, v: seq<Byte>, rest: seq<Byte>)
    requires p <= |rep| && rep[p..] == [TYPE_VALUE] + k + v + rest
    ensures p < |rep| && rep[p] == TYPE_VALUE && p + 1 + |k| <= |rep| && k <= rep[p + 1..]
    ensures v <= rep[p + 1 + |k|..] && p + 1 + |k| + |v| <= |rep| && rep[p + 1 + |k| + |v|..] == rest
  {
    assert [TYPE_VALUE] + k + v + rest == [TYPE_VALUE] + k + (v + rest);
    TagAndKey(rep, p, TYPE_VALUE, k, v + rest);
    Suffix(rep, p + 1 + |k|, v, rest);
  }

  lemma {:induction false} Suffix(rep: seq<Byte>, p: nat, a: seq<Byte>, b: seq<Byte>)
    requires p <= |rep| && rep[p..] == a + b
    ensures p + |a| <= |rep| && rep[p + |a|..] == b && a <= rep[p..]
  {
    assert rep[p..][|a|..] == rep[p + |a|..];
  }

  /** Iterate: hands the operations to a handler, in order, until the bytes end or
      are not an operation; `handled` is what the handler got. */
  method Iterate(rep: seq<Byte>, ghost sequence: nat, ghost ops: seq<BatchOp>)
    returns (status: Status, handled: seq<BatchOp>)
    ensures status.Ok? ==> |rep| >= HEADER && |handled| == DecodeFixed32(rep[8..])
    ensures Encodes(rep, sequence, ops) ==> status.Ok? && handled == ops
  {
    hide Encodes, EncodeFixed32, DecodeFixed32, Body, OpBytes, LengthPrefixed;
    ghost var good, rest := Encodes(rep, sequence, ops), ops;
    if good { HeaderFields(rep, sequence, ops); AllFit(rep, sequence, ops); }
    handled := [];
    if |rep| < HEADER {
      return Corruption("malformed WriteBatch (too small)"), handled;
    }
    var p := HEADER;
    while p < |rep|
      invariant p <= |rep|
      invariant good ==> handled + rest == ops && rep[p..] == Body(rest)
      decreases |rep| - p
    {
      if good { MoreOps(rest, rep, p); NextOp(rep, p, rest); }
      var tag := rep[p];
      p := p + 1;
      ghost var op := if good then rest[0] else Delete([]);
      assert good ==> op in ops;
      var ok, key, q := GetLengthPrefixedSlice(rep, p, op.key);
      if tag == TYPE_VALUE {
        var value;
        if ok {
          ok, value, q := GetLengthPrefixedSlice(rep, q, if op.Put? then op.value else []);
        }
        if !ok {
          return Corruption("bad WriteBatch Put"), handled;
        }
        handled := handled + [Put(key, value)];
      } else if tag == TYPE_DELETION {
        if !ok {
          return Corruption("bad WriteBatch Delete"), handled;
        }
        handled := handled + [Delete(key)];
      } else {
        return Corruption("unknown WriteBatch tag"), handled;
      }
      p := q;
      if good { rest := rest[1..]; }
    }
    if good { NoMoreOps(rest); }
    if |handled| != DecodeFixed32(rep[8..]) {
      return Corruption("WriteBatch has wrong count"), handled;
    }
    return Ok, handled;
  }

  lemma {:induction false} AllFit(rep: seq<Byte>, sequence: nat, ops: seq<BatchOp>)
    requires Encodes(rep, sequence, ops)
    ensures forall op :: op in ops ==> Fits(op)
  {
  }

  lemma {:induction false} MoreOps(ops: seq<BatchOp>, rep: seq<Byte>, p: nat)
    requires p < |rep| && rep[p..] == Body(ops)
    ensures |ops| > 0
  {
  }

  lemma {:induction false} NoMoreOps(ops: seq<BatchOp>)
    requires Body(ops) == []
    ensures ops == []
  {
  }

  // ----- writing -----

  class Batch {
    var rep: seq<Byte>
    ghost var sequence: nat
    ghost var ops: seq<BatchOp>

    ghost predicate Valid()
      reads this
    {
      Encodes(rep, sequence, ops)
    }

    constructor ()
      ensures Valid() && ops == [] && sequence == 0
    {
      rep, sequence, ops := [0, 0, 0, 0, 0, 0, 0, 0, 0, 0, 0, 0], 0, [];
    }

    /** SetCount */
    method SetCount(n: Word)
      requires |rep| >= HEADER
      modifies this`rep
      ensures rep == old(rep)[..8] + EncodeFixed32(n) + old(rep)[HEADER..]
    {
      rep := rep[..8] + EncodeFixed32(n) + rep[HEADER..];
    }

    method SetSequence(s: nat)
      requires Valid() && s < 0x1_0000_0000_0000_0000
      modifies this
      ensures Valid() && sequence == s && ops == old(ops)
    {
      hide Body;
      HeaderFields(rep, sequence, ops);
      rep := EncodeFixed64(s) + rep[8..];
      assert rep == EncodeFixed64(s) + EncodeFixed32(|ops|) + Body(ops);
      sequence := s;
    }

    method Put(key: seq<Byte>, value: seq<Byte>)
      requires Valid() && Fits(BatchOp.Put(key, value)) && |ops| + 1 < 0x1_0000_0000
      modifies this
      ensures Valid() && ops == old(ops) + [BatchOp.Put(key, value)] && sequence == old(sequence)
    {
      hide Encodes, EncodeFixed32, DecodeFixed32, Body, Varint;
      ghost var op := BatchOp.Put(key, value);
      HeaderFields(rep, sequence, ops);
      Appended(rep, sequence, ops, [op], OpBytes(op));
      SetCount(DecodeFixed32(rep[8..]) + 1);
      rep := rep + [TYPE_VALUE];
      rep := rep + LengthPrefixed(key);
      rep := rep + LengthPrefixed(value);
      ops := ops + [op];
      assert rep == old(rep)[..8] + EncodeFixed32(|ops|) + old(rep)[HEADER..] + OpBytes(op);
    }

    method Delete(key: seq<Byte>)
      requires Valid() && Fits(BatchOp.Delete(key)) && |ops| + 1 < 0x1_0000_0000
      modifies this
      ensures Valid() && ops == old(ops) + [BatchOp.Delete(key)] && sequence == old(sequence)
    {
      hide Encodes, EncodeFixed32, DecodeFixed32, Body, Varint;
      ghost var op := BatchOp.Delete(key);
      HeaderFields(rep, sequence, ops);
      Appended(rep, sequence, ops, [op], OpBytes(op));
      SetCount(DecodeFixed32(rep[8..]) + 1);
      rep := rep + [TYPE_DELETION];
      rep := rep + LengthPrefixed(key);
      ops := ops + [op];
      assert rep == old(rep)[..8] + EncodeFixed32(|ops|) + old(rep)[HEADER..] + OpBytes(op);
    }

    /** Append: the operations of one batch after those of another. */
    method Append(source: Batch)
      requires Valid() && source.Valid() && source != this && |ops| + |source.ops| < 0x1_0000_0000
      modifies this
      ensures Valid() && ops == old(ops) + source.ops && sequence == old(sequence)
    {
      hide Encodes, EncodeFixed32, DecodeFixed32, Body;
      HeaderFields(rep, sequence, ops);
      HeaderFields(source.rep, source.sequence, source.ops);
      AllFit(source.rep, source.sequence, source.ops);
      Appended(rep, sequence, ops, source.ops, Body(source.ops));
      SetCount(DecodeFixed32(rep[8..]) + DecodeFixed32(source.rep[8..]));
      rep := rep + source.rep[HEADER..];
      ops := ops + source.ops;
    }
  }

  lemma {:induction false} Appended(rep: seq<Byte>, sequence: nat, ops: seq<BatchOp>, more: seq<BatchOp>,
      bytes: seq<Byte>)
    requires Encodes(rep, sequence, ops) && |ops| + |more| < 0x1_0000_0000 && (forall op :: op in more ==> Fits(op))
    requires bytes == Body(more) || (|more| == 1 && bytes == OpBytes(more[0]))
    ensures |rep| >= HEADER
    ensures Encodes(rep[..8] + EncodeFixed32(|ops + more|) + rep[HEADER..] + bytes, sequence, ops + more)
  {
    hide EncodeFixed32, OpBytes, DecodeFixed32;
    HeaderFields(rep, sequence, ops);
    assert rep[..8] == EncodeFixed64(sequence);
    if |more| == 1 {
      assert more == [more[0]];
      BodySnoc(ops, more[0]);
      assert Body(more) == OpBytes(more[0]) by { assert more[1..] == []; assert OpBytes(more[0]) + [] == OpBytes(more[0]); }
    }
    BodySum(ops, more);
    assert rep[HEADER..] + bytes == Body(ops + more);
  }
}
