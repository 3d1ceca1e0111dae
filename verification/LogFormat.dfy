/** The format of the write-ahead log (db/log_format.h, util/crc32c.h). */
module LogFormat {
  import opened Coding

  /** The checksum is any function of the bytes it covers. */
  type Checksum = seq<Byte> -> Word

  const BLOCK_SIZE: nat := 32768
  const HEADER_SIZE: nat := 7

  const ZERO_TYPE: nat := 0
  const FULL_TYPE: nat := 1
  const FIRST_TYPE: nat := 2
  const MIDDLE_TYPE: nat := 3
  const LAST_TYPE: nat := 4

  // ----- the checksum mask -----

  const MASK_DELTA: Word := 0xa282ead8

  /** Mask: rotate right by 15 bits, add a constant, in 32 bits. */
  function Mask(crc: Word): Word {
    (crc / 32768 + crc % 32768 * 131072 + MASK_DELTA) % 0x1_0000_0000
  }

  function Unmask(masked: Word): Word {
    var rot := (masked - MASK_DELTA) % 0x1_0000_0000;
    rot / 131072 + rot % 131072 * 32768
  }

  lemma {:induction false} UnmaskUndoesMask(crc: Word)
    ensures Unmask(Mask(crc)) == crc
  {
    var high, low := crc / 32768, crc % 32768;
    var rot := high + low * 131072;
    assert high < 131072 && low < 32768;
    assert (Mask(crc) - MASK_DELTA) % 0x1_0000_0000 == rot;
    assert rot / 131072 == low && rot % 131072 == high;
  }

  // ----- physical records -----

  datatype Physical = Physical(kind: nat, data: seq<Byte>)

  predicate IsFragment(p: Physical) {
    FULL_TYPE <= p.kind <= LAST_TYPE && HEADER_SIZE + |p.data| <= BLOCK_SIZE
  }

  /** EmitPhysicalRecord */
  function Bytes(crc: Checksum, p: Physical): (r: seq<Byte>)
    requires IsFragment(p)
    ensures |r| == HEADER_SIZE + |p.data|
  {
    EncodeFixed32(Mask(crc([p.kind] + p.data))) + [|p.data| % 256, |p.data| / 256, p.kind] + p.data
  }

  /** Where in its block the next physical record goes: never so late that fewer
      than a header's bytes are left. */
  function Place(off: nat): (r: nat)
    requires off <= BLOCK_SIZE
    ensures r + HEADER_SIZE <= BLOCK_SIZE
  {
    if BLOCK_SIZE - off < HEADER_SIZE then 0 else off
  }

  /** The zero bytes that fill up the block before it. */
  function Trailer(off: nat): seq<Byte>
    requires off <= BLOCK_SIZE
  {
    if BLOCK_SIZE - off < HEADER_SIZE then seq(BLOCK_SIZE - off, _ => 0) else []
  }

  /** The records fit, one after another, into blocks from offset `off` on. */
  predicate Fit(off: nat, ps: seq<Physical>)
    requires off <= BLOCK_SIZE
    decreases ps
  {
    |ps| > 0 ==> IsFragment(ps[0]) && After(off, ps[0]) <= BLOCK_SIZE && Fit(After(off, ps[0]), ps[1..])
  }

  function After(off: nat, p: Physical): nat
    requires off <= BLOCK_SIZE
  {
    Place(off) + HEADER_SIZE + |p.data|
  }

  /** One physical record with the trailer before it. */
  function Chunk(crc: Checksum, off: nat, p: Physical): (r: seq<Byte>)
    requires off <= BLOCK_SIZE && IsFragment(p)
    ensures |r| == |Trailer(off)| + HEADER_SIZE + |p.data|
  {
    Trailer(off) + Bytes(crc, p)
  }

  function Layout(crc: Checksum, off: nat, ps: seq<Physical>): seq<Byte>
    requires off <= BLOCK_SIZE && Fit(off, ps)
    decreases ps
  {
    if |ps| == 0 then [] else Chunk(crc, off, ps[0]) + Layout(crc, After(off, ps[0]), ps[1..])
  }

  function End(off: nat, ps: seq<Physical>): (r: nat)
    requires off <= BLOCK_SIZE && Fit(off, ps)
    ensures r <= BLOCK_SIZE
    decreases ps
  {
    if |ps| == 0 then off else End(After(off, ps[0]), ps[1..])
  }

  lemma {:induction false} LayoutSum(crc: Checksum, off: nat, ps: seq<Physical>, qs: seq<Physical>)
    requires off <= BLOCK_SIZE && Fit(off, ps) && Fit(End(off, ps), qs)
    ensures Fit(off, ps + qs) && End(off, ps + qs) == End(End(off, ps), qs)
    ensures Layout(crc, off, ps + qs) == Layout(crc, off, ps) + Layout(crc, End(off, ps), qs)
    decreases ps
  {
    hide Chunk, IsFragment, After;
    if |ps| == 0 {
      assert ps + qs == qs;
    } else {
      assert (ps + qs)[1..] == ps[1..] + qs;
      LayoutSum(crc, After(off, ps[0]), ps[1..], qs);
    }
  }

  lemma {:induction false} SameResidue(a: nat, b: nat, n: nat)
    requires a % BLOCK_SIZE == b % BLOCK_SIZE
    ensures (a + n) % BLOCK_SIZE == (b + n) % BLOCK_SIZE
  {
  }

  lemma {:induction false} ChunkResidue(crc: Checksum, off: nat, p: Physical)
    requires off <= BLOCK_SIZE && IsFragment(p)
    ensures (off + |Chunk(crc, off, p)|) % BLOCK_SIZE == After(off, p) % BLOCK_SIZE
  {
  }

  /** The end offset is the length written so far, modulo the block size. */
  lemma {:induction false} EndIsLength(crc: Checksum, off: nat, ps: seq<Physical>)
    requires off <= BLOCK_SIZE && Fit(off, ps)
    ensures (off + |Layout(crc, off, ps)|) % BLOCK_SIZE == End(off, ps) % BLOCK_SIZE
    decreases ps
  {
    hide Chunk, After, IsFragment, Trailer;
    if |ps| > 0 {
      var off' := After(off, ps[0]);
      EndIsLength(crc, off', ps[1..]);
      ChunkResidue(crc, off, ps[0]);
      SameResidue(off + |Chunk(crc, off, ps[0])|, off', |Layout(crc, off', ps[1..])|);
    }
  }

  /** A full block and a fresh one are the same place. */
  lemma {:induction false} FullIsFresh(crc: Checksum, ps: seq<Physical>)
    requires Fit(0, ps) || Fit(BLOCK_SIZE, ps)
    ensures Fit(0, ps) && Fit(BLOCK_SIZE, ps) && Layout(crc, BLOCK_SIZE, ps) == Layout(crc, 0, ps)
  {
    if |ps| > 0 {
      assert Chunk(crc, BLOCK_SIZE, ps[0]) == Chunk(crc, 0, ps[0]);
    }
  }

  // ----- logical records -----

  function Avail(off: nat): nat
    requires off <= BLOCK_SIZE
  {
    BLOCK_SIZE - Place(off) - HEADER_SIZE
  }

  function Min(a: nat, b: nat): nat { if a < b then a else b }

  function FragmentType(begin: bool, end: bool): nat {
    if begin && end then FULL_TYPE else if begin then FIRST_TYPE else if end then LAST_TYPE else MIDDLE_TYPE
  }

  /** The fragments of `data` written at block offset `off`. */
  function Fragments(off: nat, data: seq<Byte>, begin: bool): (r: seq<Physical>)
    requires off <= BLOCK_SIZE
    ensures Fit(off, r) && |r| > 0
    decreases |data|, Avail(off) == 0
  {
    var n := Min(|data|, Avail(off));
    var p := Physical(FragmentType(begin, n == |data|), data[..n]);
    [p] + if n == |data| then [] else Fragments(After(off, p), data[n..], false)
  }

  /** The fragments of a record still to come. */
  function Pending(off: nat, left: seq<Byte>, begin: bool, more: bool): seq<Physical>
    requires off <= BLOCK_SIZE
  {
    if more then Fragments(off, left, begin) else []
  }

  /** The first fragment, and the rest. */
  lemma {:induction false} FirstFragment(crc: Checksum, off: nat, data: seq<Byte>, begin: bool, p: Physical)
    requires off <= BLOCK_SIZE
    requires var n := Min(|data|, Avail(off)); p == Physical(FragmentType(begin, n == |data|), data[..n])
    ensures IsFragment(p) && After(off, p) <= BLOCK_SIZE
    ensures var rest := Pending(After(off, p), data[|p.data|..], false, |p.data| < |data|);
            && Fit(After(off, p), rest)
            && Layout(crc, off, Fragments(off, data, begin)) == Chunk(crc, off, p) + Layout(crc, After(off, p), rest)
            && End(off, Fragments(off, data, begin)) == End(After(off, p), rest)
    ensures |p.data| < |data| ==> |p.data| > 0 || (Avail(off) == 0 && Avail(After(off, p)) > 0)
  {
  }

  lemma {:induction false} NothingPending(crc: Checksum, off: nat)
    requires off <= BLOCK_SIZE
    ensures Fit(off, []) && Layout(crc, off, []) == [] && End(off, []) == off
  {
  }

  lemma {:induction false} FragmentsHead(off: nat, data: seq<Byte>, begin: bool)
    requires off <= BLOCK_SIZE
    ensures var n := Min(|data|, Avail(off)); var p := Physical(FragmentType(begin, n == |data|), data[..n]);
            After(off, p) <= BLOCK_SIZE && Fragments(off, data, begin) == [p] + Pending(After(off, p), data[n..], false, n < |data|)
  {
  }

  /** A whole log: each record after the one before. */
  function AllFragments(off: nat, records: seq<seq<Byte>>): (r: seq<Physical>)
    requires off <= BLOCK_SIZE
    ensures Fit(off, r)
    decreases |records|
  {
    if |records| == 0 then []
    else
      var ps := Fragments(off, records[0], true);
      var rest := AllFragments(End(off, ps), records[1..]);
      LayoutSum(_ => 0, off, ps, rest);
      ps + rest
  }

  function LogBytes(crc: Checksum, off: nat, records: seq<seq<Byte>>): seq<Byte>
    requires off <= BLOCK_SIZE
  {
    Layout(crc, off, AllFragments(off, records))
  }

  /** The bytes of one record at block offset `off`, and where they end. */
  function RecordBytes(crc: Checksum, off: nat, record: seq<Byte>): seq<Byte>
    requires off <= BLOCK_SIZE
  {
    Layout(crc, off, Fragments(off, record, true))
  }

  function RecordEnd(off: nat, record: seq<Byte>): (r: nat)
    requires off <= BLOCK_SIZE
    ensures r <= BLOCK_SIZE
  {
    End(off, Fragments(off, record, true))
  }

  function LogEnd(off: nat, records: seq<seq<Byte>>): (r: nat)
    requires off <= BLOCK_SIZE
    ensures r <= BLOCK_SIZE
  {
    End(off, AllFragments(off, records))
  }

  lemma {:induction false} LogBytesCons(crc: Checksum, off: nat, records: seq<seq<Byte>>)
    requires off <= BLOCK_SIZE && |records| > 0
    ensures LogBytes(crc, off, records) ==
              RecordBytes(crc, off, records[0]) + LogBytes(crc, RecordEnd(off, records[0]), records[1..])
    ensures LogEnd(off, records) == LogEnd(RecordEnd(off, records[0]), records[1..])
  {
    var ps := Fragments(off, records[0], true);
    LayoutSum(crc, off, ps, AllFragments(End(off, ps), records[1..]));
  }

  lemma {:induction false} EmptyLog(crc: Checksum, off: nat)
    requires off <= BLOCK_SIZE
    ensures LogBytes(crc, off, []) == [] && LogEnd(off, []) == off
  {
  }

  lemma {:induction false} LogBytesSum(crc: Checksum, off: nat, a: seq<seq<Byte>>, b: seq<seq<Byte>>)
    requires off <= BLOCK_SIZE
    ensures LogBytes(crc, off, a + b) == LogBytes(crc, off, a) + LogBytes(crc, LogEnd(off, a), b)
    decreases a
  {
    hide LogBytes, LogEnd, RecordBytes, RecordEnd;
    if |a| == 0 {
      assert a + b == b;
      EmptyLog(crc, off);
    } else {
      LogBytesSum(crc, RecordEnd(off, a[0]), a[1..], b);
      assert (a + b)[0] == a[0] && (a + b)[1..] == a[1..] + b;
      LogBytesCons(crc, off, a);
      LogBytesCons(crc, off, a + b);
    }
  }

  lemma {:induction false} LogEndIsLength(crc: Checksum, a: seq<seq<Byte>>)
    ensures LogEnd(0, a) % BLOCK_SIZE == |LogBytes(crc, 0, a)| % BLOCK_SIZE
  {
    EndIsLength(crc, 0, AllFragments(0, a));
  }

  /** Reopening a log with a writer positioned by the file's length continues it
      as one writer would have. */
  lemma {:induction false} ReopenContinues(crc: Checksum, a: seq<seq<Byte>>, b: seq<seq<Byte>>)
    ensures LogBytes(crc, 0, a + b) == LogBytes(crc, 0, a) + LogBytes(crc, |LogBytes(crc, 0, a)| % BLOCK_SIZE, b)
  {
    hide LogBytes, LogEnd;
    LogBytesSum(crc, 0, a, b);
    LogEndIsLength(crc, a);
    if LogEnd(0, a) == BLOCK_SIZE {
      SameRecordsFresh(crc, b);
    }
  }

  lemma {:induction false} SameRecordsFresh(crc: Checksum, b: seq<seq<Byte>>)
    ensures LogBytes(crc, BLOCK_SIZE, b) == LogBytes(crc, 0, b)
  {
    if |b| > 0 {
      SameFragments(b[0]);
      var ps := Fragments(0, b[0], true);
      FullIsFresh(crc, ps);
      LogBytesCons(crc, 0, b);
      LogBytesCons(crc, BLOCK_SIZE, b);
    }
  }

  lemma {:induction false} SameFragments(data: seq<Byte>)
    ensures Fragments(0, data, true) == Fragments(BLOCK_SIZE, data, true)
    ensures RecordEnd(0, data) == RecordEnd(BLOCK_SIZE, data)
  {
  }

  lemma {:induction false} LogBytesSnoc(crc: Checksum, off: nat, records: seq<seq<Byte>>, r: seq<Byte>)
    requires off <= BLOCK_SIZE
    ensures LogBytes(crc, off, records + [r]) == LogBytes(crc, off, records) + RecordBytes(crc, LogEnd(off, records), r)
    ensures LogEnd(off, records + [r]) == RecordEnd(LogEnd(off, records), r)
  {
    hide LogBytes, LogEnd, RecordBytes, RecordEnd;
    LogBytesSum(crc, off, records, [r]);
    var end := LogEnd(off, records);
    assert [r][1..] == [];
    LogBytesCons(crc, end, [r]);
    EmptyLog(crc, RecordEnd(end, r));
    LogEndSum(off, records, [r]);
  }

  lemma {:induction false} LogEndSum(off: nat, a: seq<seq<Byte>>, b: seq<seq<Byte>>)
    requires off <= BLOCK_SIZE
    ensures LogEnd(off, a + b) == LogEnd(LogEnd(off, a), b)
    decreases a
  {
    hide LogEnd, RecordEnd;
    if |a| == 0 {
      assert a + b == b;
      EmptyLog(_ => 0, off);
    } else {
      LogEndSum(RecordEnd(off, a[0]), a[1..], b);
      assert (a + b)[0] == a[0] && (a + b)[1..] == a[1..] + b;
      LogBytesCons(_ => 0, off, a);
      LogBytesCons(_ => 0, off, a + b);
    }
  }
}
