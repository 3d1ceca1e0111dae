/** log::Reader (db/log_reader.cc), reading from the start of the file. */
module LogReader {
  import opened Coding
  import opened LogFormat

  /** The results of ReadPhysicalRecord that are not record types; a stored type
      byte of 5 or 6 reads as one of them. */
  const EOF: nat := 5
  const BAD_RECORD: nat := 6

  function Length(buffer: seq<Byte>): nat
    requires |buffer| >= HEADER_SIZE
  {
    buffer[4] as int + 256 * buffer[5] as int
  }

  /** What is unread is the start of a layout of physical records: as far as a
      writer got, or a copy cut off anywhere. */
  ghost predicate Reads(crc: Checksum, buffer: seq<Byte>, rest: seq<Byte>, eof: bool, off: nat, ps: seq<Physical>) {
    && off <= BLOCK_SIZE && Fit(off, ps)
    && buffer + rest <= Layout(crc, off, ps)
    && (if eof then rest == [] && |buffer| <= BLOCK_SIZE - off else |buffer| == BLOCK_SIZE - off)
  }

  /** The header at the front of the buffer is that of the next record. */
  lemma {:induction false} HeaderIsNext(crc: Checksum, buffer: seq<Byte>, rest: seq<Byte>, eof: bool, off: nat,
      ps: seq<Physical>)
    requires Reads(crc, buffer, rest, eof, off, ps) && |buffer| >= HEADER_SIZE
    ensures |ps| > 0 && Place(off) == off && IsFragment(ps[0])
    ensures Bytes(crc, ps[0]) + Layout(crc, After(off, ps[0]), ps[1..]) == Layout(crc, off, ps)
    ensures buffer[..HEADER_SIZE] == Bytes(crc, ps[0])[..HEADER_SIZE]
  {
    hide Bytes;
    assert |ps| > 0;
    assert Chunk(crc, off, ps[0]) == Bytes(crc, ps[0]);
    PrefixHead(buffer, rest, Bytes(crc, ps[0]), Layout(crc, After(off, ps[0]), ps[1..]));
  }

  lemma {:induction false} PrefixHead(buffer: seq<Byte>, rest: seq<Byte>, b: seq<Byte>, tail: seq<Byte>)
    requires buffer + rest <= b + tail && |buffer| >= HEADER_SIZE && |b| >= HEADER_SIZE
    ensures buffer[..HEADER_SIZE] == b[..HEADER_SIZE]
  {
    assert buffer[..HEADER_SIZE] == (buffer + rest)[..HEADER_SIZE] == (b + tail)[..HEADER_SIZE];
  }

  lemma {:induction false} HeaderFields(crc: Checksum, p: Physical, buffer: seq<Byte>)
    requires IsFragment(p) && |buffer| >= HEADER_SIZE && buffer[..HEADER_SIZE] == Bytes(crc, p)[..HEADER_SIZE]
    ensures Length(buffer) == |p.data| && buffer[6] == p.kind
    ensures Unmask(DecodeFixed32(buffer)) == crc([p.kind] + p.data)
  {
    var b := Bytes(crc, p);
    var w := Mask(crc([p.kind] + p.data));
    assert forall i :: 0 <= i < HEADER_SIZE ==> buffer[i] == buffer[..HEADER_SIZE][i] == b[i];
    Fixed32RoundTrip(w, [|p.data| % 256, |p.data| / 256, p.kind] + p.data);
    assert b == EncodeFixed32(w) + ([|p.data| % 256, |p.data| / 256, p.kind] + p.data);
    UnmaskUndoesMask(crc([p.kind] + p.data));
  }

  lemma {:induction false} TakeRecord(crc: Checksum, buffer: seq<Byte>, rest: seq<Byte>, eof: bool, off: nat,
      ps: seq<Physical>)
    requires Reads(crc, buffer, rest, eof, off, ps) && |buffer| >= HEADER_SIZE
    requires |ps| > 0 && IsFragment(ps[0]) && HEADER_SIZE + |ps[0].data| <= |buffer|
    ensures After(off, ps[0]) <= BLOCK_SIZE
    ensures buffer[HEADER_SIZE..HEADER_SIZE + |ps[0].data|] == ps[0].data
    ensures Reads(crc, buffer[HEADER_SIZE + |ps[0].data|..], rest, eof, After(off, ps[0]), ps[1..])
    ensures |Chunk(crc, off, ps[0])| == HEADER_SIZE + |ps[0].data|
  {
    hide Layout, Bytes;
    HeaderIsNext(crc, buffer, rest, eof, off, ps);
    var n := HEADER_SIZE + |ps[0].data|;
    var b, tail := Bytes(crc, ps[0]), Layout(crc, After(off, ps[0]), ps[1..]);
    assert buffer + rest <= b + tail;
    assert buffer[..n] == (buffer + rest)[..n] == (b + tail)[..n] == b;
    DataOf(crc, ps[0]);
    assert buffer[HEADER_SIZE..n] == buffer[..n][HEADER_SIZE..];
    assert buffer[n..] + rest == (buffer + rest)[n..];
    assert (b + tail)[n..] == tail;
  }

  lemma {:induction false} DataOf(crc: Checksum, p: Physical)
    requires IsFragment(p)
    ensures Bytes(crc, p)[HEADER_SIZE..] == p.data
  {
  }

  /** Fewer bytes than a header left in a whole block: they are the trailer, and
      the next block continues the layout. */
  lemma {:induction false} NextBlock(crc: Checksum, buffer: seq<Byte>, rest: seq<Byte>, off: nat, ps: seq<Physical>)
    requires Reads(crc, buffer, rest, false, off, ps) && |buffer| < HEADER_SIZE
    ensures var n := Min(BLOCK_SIZE, |rest|); Reads(crc, rest[..n], rest[n..], n < BLOCK_SIZE, 0, ps)
    ensures |ps| > 0 ==>
      After(0, ps[0]) == After(off, ps[0]) && |Chunk(crc, 0, ps[0])| + |buffer| == |Chunk(crc, off, ps[0])|
    ensures |ps| == 0 ==> buffer == [] && rest == []
  {
    hide Layout, Bytes, Chunk;
    var n := Min(BLOCK_SIZE, |rest|);
    assert rest[..n] + rest[n..] == rest;
    if |ps| > 0 {
      AfterTrailer(crc, off, ps);
      assert rest == (buffer + rest)[|buffer|..];
      assert (Trailer(off) + Layout(crc, 0, ps))[|buffer|..] == Layout(crc, 0, ps);
    } else {
      NothingLaidOut(crc, off);
      NothingLaidOut(crc, 0);
    }
  }

  lemma {:induction false} NothingLaidOut(crc: Checksum, off: nat)
    requires off <= BLOCK_SIZE
    ensures Fit(off, []) && Layout(crc, off, []) == []
  {
  }

  lemma {:induction false} AfterTrailer(crc: Checksum, off: nat, ps: seq<Physical>)
    requires off <= BLOCK_SIZE && BLOCK_SIZE - off < HEADER_SIZE && Fit(off, ps) && |ps| > 0
    ensures Fit(0, ps) && After(0, ps[0]) == After(off, ps[0])
    ensures Layout(crc, off, ps) == Trailer(off) + Layout(crc, 0, ps)
    ensures |Chunk(crc, 0, ps[0])| + BLOCK_SIZE - off == |Chunk(crc, off, ps[0])|
  {
    hide Bytes;
    var tail := Layout(crc, After(off, ps[0]), ps[1..]);
    assert Trailer(off) + Bytes(crc, ps[0]) + tail == Trailer(off) + (Bytes(crc, ps[0]) + tail);
    assert Chunk(crc, 0, ps[0]) == Bytes(crc, ps[0]);
  }

  /** A record whose bytes end beyond what is left: the buffer is the file's end. */
  lemma {:induction false} CutOff(crc: Checksum, buffer: seq<Byte>, rest: seq<Byte>, eof: bool, off: nat,
      ps: seq<Physical>)
    requires Reads(crc, buffer, rest, eof, off, ps)
    requires |buffer| < HEADER_SIZE ==> eof
    requires |buffer| >= HEADER_SIZE ==> |ps| > 0 && IsFragment(ps[0]) && HEADER_SIZE + |ps[0].data| > |buffer|
    ensures eof && rest == []
    ensures |ps| > 0 ==> |Chunk(crc, off, ps[0])| > |buffer|
  {
    hide Layout, Bytes;
    if |buffer| >= HEADER_SIZE { HeaderIsNext(crc, buffer, rest, eof, off, ps); }
  }

  class Reader {
    const file: seq<Byte>
    const crc: Checksum
    const checksum: bool
    /** How much of the file has been read into the buffer. */
    var pos: nat
    var buffer: seq<Byte>
    var eof: bool
    /** Sizes of the reported drops. */
    var reports: seq<nat>

    ghost predicate Valid()
      reads this
    {
      pos <= |file| && (eof ==> pos == |file|)
    }

    ghost function Unread(): nat
      requires Valid()
      reads this
    {
      |buffer| + |file| - pos
    }

    ghost predicate At(off: nat, ps: seq<Physical>)
      reads this
    {
      Valid() && Reads(crc, buffer, file[pos..], eof, off, ps)
    }

    /** Nothing is left to read. */
    ghost predicate Done()
      reads this
    {
      Valid() && eof && buffer == []
    }

    constructor (file: seq<Byte>, crc: Checksum, checksum: bool)
      ensures Valid() && this.file == file && this.crc == crc && reports == [] && Unread() == |file|
      ensures forall ps :: Fit(BLOCK_SIZE, ps) && file <= Layout(crc, BLOCK_SIZE, ps) ==> At(BLOCK_SIZE, ps)
    {
      this.file, this.crc, this.checksum := file, crc, checksum;
      pos, buffer, eof, reports := 0, [], false, [];
      new;
      assert buffer + file[pos..] == file;
    }

    method ReadBlock()
      requires Valid() && !eof
      modifies this`pos, this`buffer, this`eof
      ensures Valid() && var n := Min(BLOCK_SIZE, |file| - old(pos));
              buffer == file[old(pos)..][..n] && file[pos..] == file[old(pos)..][n..] && eof == (n < BLOCK_SIZE) && pos == old(pos) + n
    {
      var n := Min(BLOCK_SIZE, |file| - pos);
      buffer := file[pos..pos + n];
      pos := pos + n;
      if |buffer| < BLOCK_SIZE {
        eof := true;
      }
    }

    /** What reading one physical record must do on a cut-off layout: the next
        record if it is all there, otherwise the end. */
    ghost predicate ReadNext(off: nat, ps: seq<Physical>, unread: nat, kind: nat, fragment: seq<Byte>)
      requires off <= BLOCK_SIZE && Fit(off, ps)
      reads this
    {
      if |ps| > 0 && |Chunk(crc, off, ps[0])| <= unread
      then kind == ps[0].kind && fragment == ps[0].data && At(After(off, ps[0]), ps[1..]) && Unread() == unread - |Chunk(crc, off, ps[0])|
      else kind == EOF && Done()
    }

    /** ReadPhysicalRecord */
    method ReadPhysicalRecord(ghost off: nat, ghost ps: seq<Physical>) returns (kind: nat, fragment: seq<Byte>)
      requires Valid()
      modifies this
      ensures Valid() && (kind != EOF ==> Unread() < old(Unread()))
      ensures old(At(off, ps)) ==> reports == old(reports) && ReadNext(off, ps, old(Unread()), kind, fragment)
    {
      hide Layout, Chunk, Fit, Bytes, Reads;
      ghost var good, o: nat := At(off, ps), off;
      if good { Parts(off, ps); }
      while |buffer| < HEADER_SIZE
        invariant Valid() && Unread() <= old(Unread()) && reports == old(reports)
        invariant good ==> At(o, ps) && o <= BLOCK_SIZE
        invariant good && |ps| > 0 ==> (IsFragment(ps[0]) && After(o, ps[0]) == After(off, ps[0])
                                        && |Chunk(crc, o, ps[0])| + old(Unread()) == |Chunk(crc, off, ps[0])| + Unread())
        decreases |file| - pos, !eof
      {
        if !eof {
          if good { NextBlock(crc, buffer, file[pos..], o, ps); }
          ReadBlock();
          o := 0;
        } else {
          if good { CutOff(crc, buffer, file[pos..], eof, o, ps); }
          buffer := [];
          return EOF, [];
        }
      }
      kind, fragment := ParsePhysicalRecord(o, ps);
    }

    lemma {:induction false} Parts(off: nat, ps: seq<Physical>)
      requires At(off, ps)
      ensures off <= BLOCK_SIZE && Fit(off, ps) && (|ps| > 0 ==> IsFragment(ps[0]))
    {
      hide Layout;
    }

    /** The part after the buffer has a header. */
    method ParsePhysicalRecord(ghost off: nat, ghost ps: seq<Physical>) returns (kind: nat, fragment: seq<Byte>)
      requires Valid() && |buffer| >= HEADER_SIZE
      modifies this`buffer, this`reports
      ensures Valid() && (kind != EOF ==> Unread() < old(Unread()))
      ensures old(At(off, ps)) ==> reports == old(reports) && ReadNext(off, ps, old(Unread()), kind, fragment)
    {
      hide Layout, Chunk, Fit, Bytes, Reads, Length, DecodeFixed32, Unmask;
      var good := At(off, ps);
      if good {
        Parts(off, ps);
        HeaderIsNext(crc, buffer, file[pos..], eof, off, ps);
        HeaderFields(crc, ps[0], buffer);
      }
      var type_, length := buffer[6], Length(buffer);
      if HEADER_SIZE + length > |buffer| {
        if good { CutOff(crc, buffer, file[pos..], eof, off, ps); }
        var dropped := |buffer|;
        buffer := [];
        if !eof {
          reports := reports + [dropped];
          return BAD_RECORD, [];
        }
        return EOF, [];
      }
      if good { TakeRecord(crc, buffer, file[pos..], eof, off, ps); }
      if type_ == ZERO_TYPE && length == 0 {
        buffer := [];
        return BAD_RECORD, [];
      }
      if checksum {
        var expected := Unmask(DecodeFixed32(buffer));
        var actual := crc([buffer[6]] + buffer[HEADER_SIZE..HEADER_SIZE + length]);
        if actual != expected {
          reports := reports + [|buffer|];
          buffer := [];
          return BAD_RECORD, [];
        }
      }
      fragment := buffer[HEADER_SIZE..HEADER_SIZE + length];
      buffer := buffer[HEADER_SIZE + length..];
      kind := type_;
    }

    /** The reader has the records `records` ahead of it. */
    ghost predicate AtRecords(off: nat, records: seq<seq<Byte>>)
      requires off <= BLOCK_SIZE
      reads this
    {
      At(off, AllFragments(off, records))
    }

    method ReportCorruption(bytes: nat)
      modifies this`reports
      ensures reports == old(reports) + [bytes]
    {
      reports := reports + [bytes];
    }

    /** ReadRecord: on a cut-off log, the next record if all of it is there,
        otherwise false; nothing is reported. */
    method ReadRecord(ghost off: nat, ghost records: seq<seq<Byte>>) returns (ok: bool, record: seq<Byte>)
      requires Valid() && off <= BLOCK_SIZE
      modifies this
      ensures Valid() && (ok ==> Unread() < old(Unread()))
      ensures old(AtRecords(off, records)) ==> (reports == old(reports) &&
                if |records| > 0 && |RecordBytes(crc, off, records[0])| <= old(Unread())
                then ok && record == records[0] && AtRecords(RecordEnd(off, record), records[1..])
                     && Unread() == old(Unread()) - |RecordBytes(crc, off, record)|
                else !ok)
    {
      hide Layout, Chunk, Fit, Bytes, Reads, Fragments, AllFragments, End, After, RecordBytes, RecordEnd, Going, Done;
      var scratch: seq<Byte> := [];
      var inFragmentedRecord := false;
      ghost var good, o: nat, ps := AtRecords(off, records), off, AllFragments(off, records);
      ghost var left := if |records| > 0 then records[0] else [];
      if good { StartGoing(crc, off, records); }
      while true
        invariant Valid() && Unread() <= old(Unread()) && o <= BLOCK_SIZE
        invariant good ==> reports == old(reports) && At(o, ps)
        invariant good && |records| == 0 ==> ps == []
        invariant good && |records| > 0 ==>
          Going(crc, off, records, o, ps, left, !inFragmentedRecord, scratch, old(Unread()) - Unread())
        decreases Unread()
      {
        if good {
          Parts(o, ps);
          if |records| > 0 { GoOn(crc, off, records, o, ps, left, !inFragmentedRecord, scratch, old(Unread()) - Unread()); }
        }
        var kind, fragment := ReadPhysicalRecord(o, ps);
        if good && |records| > 0 && kind != EOF {
          o, ps, left := After(o, ps[0]), ps[1..], left[|fragment|..];
        }
        if kind == EOF {
          return false, [];
        }
        if kind == FULL_TYPE {
          if inFragmentedRecord && |scratch| > 0 {
            ReportCorruption(|scratch|);
          }
          return true, fragment;
        } else if kind == FIRST_TYPE {
          if inFragmentedRecord && |scratch| > 0 {
            ReportCorruption(|scratch|);
          }
          scratch := fragment;
          inFragmentedRecord := true;
        } else if kind == MIDDLE_TYPE {
          if !inFragmentedRecord {
            ReportCorruption(|fragment|);
          } else {
            scratch := scratch + fragment;
          }
        } else if kind == LAST_TYPE {
          if !inFragmentedRecord {
            ReportCorruption(|fragment|);
          } else {
            scratch := scratch + fragment;
            return true, scratch;
          }
        } else if kind == BAD_RECORD {
          if inFragmentedRecord {
            ReportCorruption(|scratch|);
            inFragmentedRecord := false;
            scratch := [];
          }
        } else {
          ReportCorruption(|fragment| + if inFragmentedRecord then |scratch| else 0);
          inFragmentedRecord := false;
          scratch := [];
        }
      }
    }
  }

  // ----- following a logical record -----

  /** Reading record `records[0]`, which began at `off`: `scratch` is read, `left`
      is to come, starting at block offset `o` with the fragments at the head of
      `ps`; `used` bytes of the file have been consumed. */
  ghost predicate Going(crc: Checksum, off: nat, records: seq<seq<Byte>>, o: nat, ps: seq<Physical>,
                        left: seq<Byte>, begin: bool, scratch: seq<Byte>, used: int)
    requires off <= BLOCK_SIZE && o <= BLOCK_SIZE
  {
    var fs := Fragments(o, left, begin);
    && |records| > 0 && (if begin then scratch == [] && left == records[0] else scratch + left == records[0])
    && ps == fs + AllFragments(End(o, fs), records[1..])
    && End(o, fs) == RecordEnd(off, records[0])
    && used + |Layout(crc, o, fs)| == |RecordBytes(crc, off, records[0])|
  }

  lemma {:induction false} StartGoing(crc: Checksum, off: nat, records: seq<seq<Byte>>)
    requires off <= BLOCK_SIZE
    ensures |records| == 0 ==> AllFragments(off, records) == []
    ensures |records| > 0 ==> Going(crc, off, records, off, AllFragments(off, records), records[0], true, [], 0)
  {
  }

  /** The next fragment ends the record, or the record goes on after it. */
  lemma {:induction false} GoOn(crc: Checksum, off: nat, records: seq<seq<Byte>>, o: nat, ps: seq<Physical>,
                                left: seq<Byte>, begin: bool, scratch: seq<Byte>, used: int)
    requires off <= BLOCK_SIZE && o <= BLOCK_SIZE && Going(crc, off, records, o, ps, left, begin, scratch, used)
    ensures |ps| > 0 && IsFragment(ps[0]) && After(o, ps[0]) <= BLOCK_SIZE
    ensures var p := ps[0];
            && |p.data| <= |left| && p.data == left[..|p.data|] && p.kind == FragmentType(begin, |p.data| == |left|)
            && used + |Chunk(crc, o, p)| <= |RecordBytes(crc, off, records[0])|
            && if |p.data| == |left|
               then && records[0] == (if begin then p.data else scratch + p.data) && ps[1..] == AllFragments(RecordEnd(off, records[0]), records[1..]) && After(o, p) == RecordEnd(off, records[0])
                    && used + |Chunk(crc, o, p)| == |RecordBytes(crc, off, records[0])|
               else Going(crc, off, records, After(o, p), ps[1..], left[|p.data|..], false, if begin then p.data else scratch + p.data,
                          used + |Chunk(crc, o, p)|)
  {
    hide Chunk, Fit, RecordBytes, RecordEnd, AllFragments, Fragments, Layout, End, After;
    var n := Min(|left|, Avail(o));
    var p := Physical(FragmentType(begin, n == |left|), left[..n]);
    FirstFragment(crc, o, left, begin, p);
    FragmentsHead(o, left, begin);
    NothingPending(crc, After(o, p));
    var rest := Pending(After(o, p), left[n..], false, n < |left|);
    assert left == left[..n] + left[n..];
    assert ps[1..] == rest + AllFragments(RecordEnd(off, records[0]), records[1..]);
    assert scratch + left == (scratch + p.data) + left[n..];
  }

  // ----- reading a whole log -----

  function Rest(records: seq<seq<Byte>>, n: nat): seq<seq<Byte>> {
    if n <= |records| then records[n..] else []
  }

  /** The reader of a cut-off log has returned `got`. */
  ghost predicate HasRead(reader: Reader, off: nat, records: seq<seq<Byte>>, got: seq<seq<Byte>>)
    requires off <= BLOCK_SIZE
    reads reader
  {
    && got <= records && off == LogEnd(BLOCK_SIZE, got)
    && reader.AtRecords(off, Rest(records, |got|))
    && reader.Unread() + |LogBytes(reader.crc, BLOCK_SIZE, got)| == |reader.file|
  }

  lemma {:induction false} Begins(reader: Reader, records: seq<seq<Byte>>)
    requires reader.Valid() && reader.Unread() == |reader.file| && reader.file <= LogBytes(reader.crc, 0, records)
    requires forall ps :: Fit(BLOCK_SIZE, ps) && reader.file <= Layout(reader.crc, BLOCK_SIZE, ps) ==>
      reader.At(BLOCK_SIZE, ps)
    ensures HasRead(reader, BLOCK_SIZE, records, [])
  {
    hide Fit, Layout, LogEnd, Reader.At, AllFragments;
    SameRecordsFresh(reader.crc, records);
    EmptyLog(reader.crc, BLOCK_SIZE);
    assert Rest(records, 0) == records;
  }

  lemma {:induction false} NextRead(crc: Checksum, records: seq<seq<Byte>>, got: seq<seq<Byte>>)
    requires got <= records && |got| < |records|
    ensures var r := records[|got|];
            && Rest(records, |got|)[0] == r && got + [r] == records[..|got| + 1]
            && Rest(records, |got|)[1..] == Rest(records, |got| + 1)
            && LogEnd(BLOCK_SIZE, got + [r]) == RecordEnd(LogEnd(BLOCK_SIZE, got), r)
            && |LogBytes(crc, BLOCK_SIZE, got + [r])| == |LogBytes(crc, BLOCK_SIZE, got)| + |RecordBytes(crc, LogEnd(BLOCK_SIZE, got), r)|
  {
    hide LogEnd, LogBytes, RecordEnd, RecordBytes;
    LogBytesSnoc(crc, BLOCK_SIZE, got, records[|got|]);
  }

  lemma {:induction false} AllRead(crc: Checksum, records: seq<seq<Byte>>, n: nat)
    requires n <= |records|
    ensures |LogBytes(crc, 0, records[..n])| <= |LogBytes(crc, 0, records)|
  {
    hide LogBytes, LogEnd;
    LogBytesSum(crc, 0, records[..n], records[n..]);
    assert records[..n] + records[n..] == records;
  }

  /** Reading until ReadRecord fails.  On a log cut off anywhere, exactly the
      records wholly inside come back, without a report; on a whole log, all. */
  method ReadLog(file: seq<Byte>, crc: Checksum, checksum: bool, ghost records: seq<seq<Byte>>)
    returns (got: seq<seq<Byte>>, reports: seq<nat>)
    ensures file <= LogBytes(crc, 0, records) ==> (reports == [] &&
              got <= records && |LogBytes(crc, 0, got)| <= |file| &&
              (|got| < |records| ==> |file| < |LogBytes(crc, 0, records[..|got| + 1])|))
    ensures file == LogBytes(crc, 0, records) ==> got == records
  {
    hide Layout, Fit, LogBytes, LogEnd, RecordEnd, RecordBytes, AllFragments, Reader.At, Rest, Reads;
    var reader := new Reader(file, crc, checksum);
    ghost var good, off: nat := file <= LogBytes(crc, 0, records), BLOCK_SIZE;
    if good { Begins(reader, records); }
    got := [];
    var more := true;
    while more
      invariant reader.Valid() && reader.crc == crc && reader.file == file && off <= BLOCK_SIZE && fresh(reader)
      invariant good ==> reader.reports == [] && got <= records && |LogBytes(crc, BLOCK_SIZE, got)| <= |file|
      invariant good && more ==> HasRead(reader, off, records, got)
      invariant good && !more && |got| < |records| ==> |file| < |LogBytes(crc, BLOCK_SIZE, records[..|got| + 1])|
      decreases more, reader.Unread()
    {
      ghost var rest := Rest(records, |got|);
      if good { RestLength(records, |got|); if |got| < |records| { NextRead(crc, records, got); } }
      var ok, record := reader.ReadRecord(off, rest);
      more := ok;
      if ok {
        if good { off := RecordEnd(off, record); }
        got := got + [record];
      }
    }
    reports := reader.reports;
    SameRecordsFresh(crc, got);
    if |got| < |records| {
      SameRecordsFresh(crc, records[..|got| + 1]);
      AllRead(crc, records, |got| + 1);
    }
  }

  lemma {:induction false} RestLength(records: seq<seq<Byte>>, n: nat)
    ensures |Rest(records, n)| > 0 <==> n < |records|
  {
  }

  /** Reading stopped behind `got`, the records wholly inside. */
  ghost predicate Ended(crc: Checksum, records: seq<seq<Byte>>, got: seq<seq<Byte>>, file: seq<Byte>) {
    && got <= records && |LogBytes(crc, 0, got)| <= |file|
    && (|got| < |records| ==> |file| < |LogBytes(crc, 0, records[..|got| + 1])|)
  }

  /** The next record of a log that is cut off anywhere. */
  method NextRecord(reader: Reader, ghost off: nat, ghost records: seq<seq<Byte>>, ghost got: seq<seq<Byte>>)
    returns (ok: bool, record: seq<Byte>, ghost off': nat)
    requires reader.Valid() && off <= BLOCK_SIZE && HasRead(reader, off, records, got)
    modifies reader
    ensures reader.Valid() && (ok ==> reader.Unread() < old(reader.Unread()))
    ensures off' <= BLOCK_SIZE
    ensures ok ==> |got| < |records| && record == records[|got|] && HasRead(reader, off', records, got + [record])
    ensures !ok ==> Ended(reader.crc, records, got, reader.file)
  {
    hide Layout, Fit, LogBytes, LogEnd, RecordEnd, RecordBytes, AllFragments, Reader.At, Rest, Reads;
    ghost var rest := Rest(records, |got|);
    RestLength(records, |got|);
    if |got| < |records| { NextRead(reader.crc, records, got); }
    ok, record := reader.ReadRecord(off, rest);
    off' := if ok then RecordEnd(off, record) else off;
    SameRecordsFresh(reader.crc, got);
    if |got| < |records| { SameRecordsFresh(reader.crc, records[..|got| + 1]); }
  }
}
