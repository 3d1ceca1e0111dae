/** log::Writer (db/log_writer.cc). */
module LogWriter {
  import opened Coding
  import opened LogFormat

  class Writer {
    const crc: Checksum
    /** Everything in the file. */
    var dest: seq<Byte>
    var blockOffset: nat

    ghost predicate Valid()
      reads this
    {
      blockOffset <= BLOCK_SIZE && blockOffset % BLOCK_SIZE == |dest| % BLOCK_SIZE
    }

    /** A writer that appends to a file of some length; a new file has length 0. */
    constructor (crc: Checksum, dest: seq<Byte>)
      ensures Valid() && this.crc == crc && this.dest == dest && blockOffset == |dest| % BLOCK_SIZE
    {
      this.crc, this.dest, blockOffset := crc, dest, |dest| % BLOCK_SIZE;
    }

    /** AddRecord: fragment after fragment. */
    method AddRecord(slice: seq<Byte>)
      requires Valid()
      modifies this
      ensures Valid() && blockOffset == RecordEnd(old(blockOffset), slice)
      ensures dest == old(dest) + RecordBytes(crc, old(blockOffset), slice)
    {
      hide Chunk, Fit, Layout, End, After, Fragments, Place;
      var left := slice;
      var begin := true;
      var more := true;
      while more
        invariant blockOffset <= BLOCK_SIZE && Fit(blockOffset, Pending(blockOffset, left, begin, more))
        invariant old(dest) + RecordBytes(crc, old(blockOffset), slice) == dest + Layout(crc, blockOffset, Pending(blockOffset, left, begin, more))
        invariant RecordEnd(old(blockOffset), slice) == End(blockOffset, Pending(blockOffset, left, begin, more))
        decreases more, |left|, Avail(blockOffset) == 0
      {
        ghost var off, before := blockOffset, dest;
        var n := WriteFragment(left, begin);
        ghost var p := Physical(FragmentType(begin, n == |left|), left[..n]);
        FirstFragment(crc, off, left, begin, p);
        left := left[n..];
        begin := false;
        more := |left| > 0;
        assert dest + Layout(crc, blockOffset, Pending(blockOffset, left, begin, more)) ==
               before + (Chunk(crc, off, p) + Layout(crc, blockOffset, Pending(blockOffset, left, begin, more)));
      }
      NothingPending(crc, blockOffset);
      RecordEndIsLength(crc, old(blockOffset), slice);
      SameResidue(|old(dest)|, old(blockOffset), |RecordBytes(crc, old(blockOffset), slice)|);
    }

    /** The body of the loop: one fragment, in the next block if no header fits
        in this one. */
    method WriteFragment(left: seq<Byte>, begin: bool) returns (n: nat)
      requires blockOffset <= BLOCK_SIZE
      modifies this
      ensures n == Min(|left|, Avail(old(blockOffset)))
      ensures var p := Physical(FragmentType(begin, n == |left|), left[..n]);
              && IsFragment(p) && blockOffset == After(old(blockOffset), p) <= BLOCK_SIZE
              && dest == old(dest) + Chunk(crc, old(blockOffset), p)
    {
      hide Bytes, Layout, Fit;
      var leftover := BLOCK_SIZE - blockOffset;
      if leftover < HEADER_SIZE {
        if leftover > 0 {
          dest := dest + seq(leftover, _ => 0);
        }
        blockOffset := 0;
      }
      assert dest == old(dest) + Trailer(old(blockOffset)) && blockOffset == Place(old(blockOffset));
      var avail := BLOCK_SIZE - blockOffset - HEADER_SIZE;
      n := if |left| < avail then |left| else avail;
      var end := |left| == n;
      var kind := if begin && end then FULL_TYPE else if begin then FIRST_TYPE else if end then LAST_TYPE else MIDDLE_TYPE;
      EmitPhysicalRecord(kind, left[..n]);
      ghost var p := Physical(kind, left[..n]);
      assert old(dest) + Trailer(old(blockOffset)) + Bytes(crc, p) == old(dest) + Chunk(crc, old(blockOffset), p);
    }

    method EmitPhysicalRecord(kind: nat, data: seq<Byte>)
      requires FULL_TYPE <= kind <= LAST_TYPE && blockOffset + HEADER_SIZE + |data| <= BLOCK_SIZE
      modifies this
      ensures dest == old(dest) + Bytes(crc, Physical(kind, data))
      ensures blockOffset == old(blockOffset) + HEADER_SIZE + |data|
    {
      var header := EncodeFixed32(Mask(crc([kind] + data))) + [|data| % 256, |data| / 256, kind];
      dest := dest + header;
      dest := dest + data;
      blockOffset := blockOffset + HEADER_SIZE + |data|;
    }
  }

  lemma {:induction false} RecordEndIsLength(crc: Checksum, off: nat, record: seq<Byte>)
    requires off <= BLOCK_SIZE
    ensures (off + |RecordBytes(crc, off, record)|) % BLOCK_SIZE == RecordEnd(off, record) % BLOCK_SIZE
  {
    EndIsLength(crc, off, Fragments(off, record, true));
  }

  /** Adding records one after another writes the log of them all. */
  method AddRecords(writer: Writer, records: seq<seq<Byte>>)
    requires writer.Valid()
    modifies writer
    ensures writer.Valid()
    ensures writer.dest == old(writer.dest) + LogBytes(writer.crc, old(writer.blockOffset), records)
  {
    hide LogBytes, LogEnd, RecordBytes, RecordEnd;
    ghost var off := writer.blockOffset;
    EmptyLog(writer.crc, off);
    for i := 0 to |records|
      invariant writer.Valid()
      invariant writer.dest == old(writer.dest) + LogBytes(writer.crc, off, records[..i])
      invariant writer.blockOffset == LogEnd(off, records[..i])
    {
      assert records[..i + 1] == records[..i] + [records[i]];
      LogBytesSnoc(writer.crc, off, records[..i], records[i]);
      writer.AddRecord(records[i]);
    }
    assert records[..|records|] == records;
  }
}
