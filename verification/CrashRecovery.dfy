/** Opening a store after a crash (db/db_impl.cc: Recover, RecoverLogFile; db/db_impl.cc:
    DB::Open): the version from the manifest, and the logs, the live one perhaps cut off,
    read back into memtables that become tables of level 0. */
module CrashRecovery {
  import opened Coding
  import opened InternalKeys
  import opened FlatHistory
  import opened Versions
  import opened CompactionLoop
  import opened LsmState
  import opened LsmInvariants
  import opened LsmRuns
  import opened LsmCrashes
  import opened LevelEdits
  import EditReplay
  import opened VersionBuilder
  import opened DbImpl
  import opened WriteBatch
  import LogFormat
  import LogReader

  /** What keys and values in bytes stand for. */
  datatype Names = Names(key: seq<Byte> -> UserKey, value: seq<Byte> -> Value)

  function OpOf(names: Names, op: BatchOp): Op {
    match op
    case Put(k, v) => Op(names.key(k), TypeValue, names.value(v))
    case Delete(k) => Op(names.key(k), TypeDeletion, "")
  }

  function OpsOf(names: Names, ops: seq<BatchOp>): (r: seq<Op>)
    ensures |r| == |ops| && forall i :: 0 <= i < |ops| ==> r[i] == OpOf(names, ops[i])
  {
    seq(|ops|, i requires 0 <= i < |ops| => OpOf(names, ops[i]))
  }

  // ----- the logs -----

  /** A log as the store writes it: a record for each batch, numbered on from `first`. */
  datatype LogFile = LogFile(batches: seq<seq<BatchOp>>, records: seq<seq<Byte>>)

  function BatchesOf(names: Names, log: LogFile): (r: seq<seq<Op>>)
    ensures |r| == |log.batches| && forall i :: 0 <= i < |r| ==> r[i] == OpsOf(names, log.batches[i])
  {
    seq(|log.batches|, i requires 0 <= i < |log.batches| => OpsOf(names, log.batches[i]))
  }

  ghost predicate LogOk(names: Names, log: LogFile, first: nat) {
    && |log.records| == |log.batches|
    && forall i :: 0 <= i < |log.records| ==>
        Encodes(log.records[i], first + |Flat(BatchesOf(names, log)[..i])|, log.batches[i])
  }

  /** Cut off behind `kept` whole records. */
  ghost predicate CutOffAt(crc: LogFormat.Checksum, log: LogFile, contents: seq<Byte>, kept: nat) {
    kept <= |log.records| && LogReader.Ended(crc, log.records, log.records[..kept], contents)
  }

  // ----- the store while it is being recovered -----

  /** A memtable full of replayed operations, ready to be flushed to level 0. */
  lemma {:induction false} FullMemtable(st: State)
    requires Inv(st) && st.imm.None?
    ensures var st1 := st.(imm := Some(st.mem), mem := []); Inv(st1) && Stored(st1) == Stored(st)
    ensures |st.files| == NUM_LEVELS && LevelsSorted(st.files) && Numbered(st.files, st.nextFile)
    ensures Sorted(st.mem) && AllWritten(st.mem)
  {
    var st1 := st.(imm := Some(st.mem), mem := []);
    assert ImmEntries(st1) == RunEntries(st.mem) && RunEntries(st1.mem) == iset{} && ImmEntries(st) == iset{};
    forall e | e in st.mem ensures e.ikey.sequence <= |st.history| {
      assert e in Stored(st);
    }
  }

  lemma {:induction false} TableAtLevel0(st: State, f: File, st': State)
    requires Inv(st) && st.imm.None? && IsTable(f) && f.entries == st.mem && f.number == st.nextFile
    requires |st.files| == NUM_LEVELS && SortedBySmallest(st.files[0])
    requires st' == st.(mem := [], files := st.files[0 := InsertBySmallest(st.files[0], f)], nextFile := st.nextFile + 1)
    ensures Inv(st') && Stored(st') == Stored(st)
    ensures forall g :: g in st'.files[0] <==> g in st.files[0] || g == f
  {
    hide Inv, Stored, IsTable, InsertBySmallest;
    FullMemtable(st);
    var st1 := st.(imm := Some(st.mem), mem := []);
    forall g | g in st.files[0] ensures !Equivalent(f, g) {
    }
    assert FlushStep(st1, 0, f, st');
    FlushKeepsInv(st1, 0, f, st');
  }

  /** `files'` are the levels `files` with the tables at level 0, numbered on from `first`. */
  ghost predicate TablesAdded(files: seq<seq<File>>, first: nat, tables: seq<File>, next: nat, files': seq<seq<File>>) {
    && |files| == NUM_LEVELS == |files'|
    && (forall f :: f in files'[0] <==> f in files[0] || f in tables)
    && (forall l :: 1 <= l < NUM_LEVELS ==> files'[l] == files[l])
    && (forall f :: f in tables ==> first <= f.number < next)
    && (forall i, j :: 0 <= i < j < |tables| ==> tables[i].number < tables[j].number)
  }

  lemma {:induction false} NoTables(st: State, next: nat)
    requires Inv(st) && st.imm.None?
    ensures TablesAdded(st.files, next, [], next, st.files)
  {
    FullMemtable(st);
  }

  lemma {:induction false} OneTableMore(files: seq<seq<File>>, first: nat, tables: seq<File>, next: nat,
      files': seq<seq<File>>, f: File, fs: seq<File>)
    requires TablesAdded(files, first, tables, next, files') && first <= next == f.number
    requires forall g :: g in fs <==> g in files'[0] || g == f
    ensures TablesAdded(files, first, tables + [f], next + 1, files'[0 := fs])
  {
    var tables' := tables + [f];
    forall i, j | 0 <= i < j < |tables'| ensures tables'[i].number < tables'[j].number {
      if j == |tables| { assert tables[i] in tables; }
    }
  }

  lemma {:induction false} NoTableMore(files: seq<seq<File>>, first: nat, tables: seq<File>, next: nat,
      files': seq<seq<File>>)
    requires TablesAdded(files, first, tables, next, files')
    ensures TablesAdded(files, first, tables, next + 1, files')
  {
  }

  /** The store `b` is `a` with `ops` written to it, as far as reading goes. */
  ghost predicate Follows(a: State, b: State, ops: seq<Op>) {
    && b.history == a.history + ops
    && Stored(b) == Stored(a) + NewEntries(a.history, ops)
    && (ReadsOk(a) ==> ReadsOk(b))
  }

  lemma {:induction false} FollowsOn(a: State, b: State, c: State, ops: seq<Op>, more: seq<Op>)
    requires Follows(a, b, ops) && Follows(b, c, more)
    ensures Follows(a, c, ops + more)
  {
    hide Stored, ReadsOk, NewEntries;
    NewBetween(a.history, ops, more);
  }

  lemma {:induction false} FollowsNothing(a: State, b: State)
    requires b.history == a.history && Stored(b) == Stored(a) && SmallestSnapshot(a) <= SmallestSnapshot(b)
    ensures Follows(a, b, [])
  {
    hide Stored, ReadsOk, NewEntries;
    NothingNew(a.history);
    if ReadsOk(a) { SameEntriesRead(a, b); }
  }

  lemma {:induction false} FollowsWrite(a: State, b: State, ops: seq<Op>)
    requires Inv(a) && WriteStep(a, ops, b)
    ensures Inv(b) && Follows(a, b, ops)
  {
    hide Stored, ReadsOk, NewEntries, Inv, WriteStep;
    WriteKeepsInv(a, ops, b);
    WrittenHistory(a, ops, b);
    if ReadsOk(a) { WriteReads(a, ops, b); }
  }

  lemma {:induction false} WrittenHistory(a: State, ops: seq<Op>, b: State)
    requires WriteStep(a, ops, b)
    ensures b.history == a.history + ops
  {
  }

  /** The members of DBImpl that recovery works on, and the edit it collects. */
  class Recovery {
    const crc: LogFormat.Checksum
    const names: Names
    const fileSize: FileSize
    /** A memtable that has outgrown write_buffer_size. */
    const full: seq<Entry> -> bool
    /** The version read from the manifest. */
    const files: seq<seq<File>>
    const firstFile: nat
    var tables: seq<File>
    var nextFile: nat
    var maxSequence: nat
    /** The memtable, if there is one. */
    var mem: Option<seq<Entry>>
    ghost const baseLength: nat
    /** The store that version, tables and memtable make. */
    ghost var st: State

    function Mem(): seq<Entry>
      reads this`mem
    {
      if mem.Some? then mem.value else []
    }

    ghost predicate Valid()
      reads this
    {
      && Inv(st) && st == State(st.history, Mem(), None, st.files, [], nextFile) && firstFile <= nextFile
      && baseLength <= |st.history| && maxSequence <= |st.history| && TablesAdded(files, firstFile, tables, nextFile, st.files)
    }

    /** `maxSequence` is the last operation replayed, if there is one. */
    ghost predicate Counted()
      reads this
    {
      maxSequence < |st.history| ==> |st.history| == baseLength
    }

    constructor (crc: LogFormat.Checksum, names: Names, fileSize: FileSize, full: seq<Entry> -> bool,
                 files: seq<seq<File>>, nextFile: nat, ghost base: seq<Op>)
      requires Inv(State(base, [], None, files, [], nextFile))
      ensures Valid() && st == State(base, [], None, files, [], nextFile)
      ensures this.crc == crc && this.names == names && this.files == files && this.firstFile == nextFile
      ensures baseLength == |base| && mem.None? && Counted()
    {
      hide Inv, TablesAdded;
      this.crc, this.names, this.fileSize, this.full, this.files := crc, names, fileSize, full, files;
      baseLength := |base|;
      firstFile, tables, this.nextFile, maxSequence, mem := nextFile, [], nextFile, 0, None;
      st := State(base, [], None, files, [], nextFile);
      new;
      NoTables(st, nextFile);
    }

    /** WriteLevel0Table without a version: the table goes to level 0. */
    method WriteLevel0Table()
      requires Valid() && mem.Some?
      modifies this`tables, this`nextFile, this`mem, this`st
      ensures Valid() && mem.None? && Follows(old(st), st, []) && (old(Counted()) ==> Counted())
    {
      hide Inv, Stored, IsTable, InsertBySmallest, Sorted, TablesAdded, LevelsSorted, Numbered;
      FullMemtable(st);
      assert SortedBySmallest(st.files[0]) by { LevelInOrder(st.files); }
      var number := nextFile;
      nextFile := nextFile + 1;
      ghost var before := st;
      if |mem.value| > 0 {
        var f := FinishOutput(number, fileSize.finished(mem.value), mem.value);
        st := st.(mem := [], files := st.files[0 := InsertBySmallest(st.files[0], f)], nextFile := nextFile);
        TableAtLevel0(before, f, st);
        OneTableMore(files, firstFile, tables, number, before.files, f, st.files[0]);
        tables := tables + [f];
      } else {
        st := st.(nextFile := nextFile);
        MoreNumbers(before, st);
        NoTableMore(files, firstFile, tables, number, st.files);
      }
      mem := None;
      FollowsNothing(before, st);
      FollowsLength(before, st, []);
    }

    /** WriteBatchInternal::InsertInto: the batch enters the memtable under its numbers. */
    method InsertInto(rep: seq<Byte>, ghost batch: seq<BatchOp>) returns (status: Status)
      requires Valid() && mem.Some? && Encodes(rep, |st.history| + 1, batch) && |st.history| + |batch| < MAX_SEQUENCE
      modifies this`mem, this`st
      ensures Valid() && mem.Some? && status.Ok? && Follows(old(st), st, OpsOf(names, batch))
      ensures |rep| >= HEADER && DecodeFixed64(rep) == |old(st.history)| + 1 && DecodeFixed32(rep[8..]) == |batch|
    {
      hide Inv, InsertSorted, Sorted, TablesAdded, Encodes, Stored, ReadsOk, Body, EncodeFixed64, DecodeFixed64,
           DecodeFixed32, EncodeFixed32;
      HeaderFields(rep, |st.history| + 1, batch);
      ghost var before, h, ops := st, st.history, OpsOf(names, batch);
      var handled;
      status, handled := Iterate(rep, |st.history| + 1, batch);
      var sequence := DecodeFixed64(rep);
      MemOfHistory(st);
      for i := 0 to |handled|
        invariant mem.Some? && sequence == |h| + 1 + i && st == before
        invariant Sorted(mem.value) && MemBelow(mem.value, sequence)
        invariant forall e :: e in mem.value <==> e in before.mem || e in NewEntries(h, ops[..i])
      {
        var op := OpOf(names, handled[i]);
        var e := Entry(InternalKey(op.key, sequence, op.kind), op.value);
        DbImpl.OneMore(h, ops, i, e);
        AddToMem(mem.value, e);
        mem := Some(InsertSorted(mem.value, e));
        sequence := sequence + 1;
      }
      assert ops[..|ops|] == ops;
      st := st.(history := h + ops, mem := mem.value);
      assert RunEntries(st.mem) == RunEntries(before.mem) + NewEntries(h, ops);
      assert WriteStep(before, ops, st);
      FollowsWrite(before, st, ops);
    }

    /** One record of the log. */
    method ReplayRecord(record: seq<Byte>, ghost batch: seq<BatchOp>)
      requires Valid() && Encodes(record, |st.history| + 1, batch) && |st.history| + |batch| < MAX_SEQUENCE
      modifies this`tables, this`nextFile, this`maxSequence, this`mem, this`st
      ensures Valid() && Counted() && Follows(old(st), st, OpsOf(names, batch))
    {
      hide Inv, TablesAdded, Encodes, Follows, DecodeFixed64, DecodeFixed32;
      if mem.None? {
        mem := Some([]);
      }
      ghost var before := st;
      var status := InsertInto(record, batch);
      assert |st.history| == |before.history| + |batch| by { FollowsLength(before, st, OpsOf(names, batch)); }
      var lastSequence := DecodeFixed64(record) + DecodeFixed32(record[8..]) - 1;
      if lastSequence > maxSequence {
        maxSequence := lastSequence;
      }
      if full(mem.value) {
        ghost var mid := st;
        WriteLevel0Table();
        FollowsLength(mid, st, []);
        FollowsOn(before, mid, st, OpsOf(names, batch), []);
        assert OpsOf(names, batch) + [] == OpsOf(names, batch);
      }
    }

    /** Record `i` of a log whose records before it are replayed. */
    method ReplayNext(record: seq<Byte>, ghost before: State, ghost log: LogFile, ghost i: nat)
      requires Valid() && LogOk(names, log, |before.history| + 1) && i < |log.records| && record == log.records[i]
      requires Follows(before, st, Flat(BatchesOf(names, log)[..i]))
      requires |before.history| + |Flat(BatchesOf(names, log))| < MAX_SEQUENCE
      modifies this`tables, this`nextFile, this`maxSequence, this`mem, this`st
      ensures Valid() && Counted() && Follows(before, st, Flat(BatchesOf(names, log)[..i + 1]))
    {
      hide Inv, TablesAdded, Encodes, Follows, Flat, OpsOf, Valid, LogOk;
      ghost var batches, mid := BatchesOf(names, log), st;
      NextBatch(names, log, |before.history| + 1, i);
      FollowsLength(before, st, Flat(batches[..i]));
      ReplayRecord(record, log.batches[i]);
      FollowsOn(before, mid, st, Flat(batches[..i]), batches[i]);
    }

    /** RecoverLogFile, on a log that may be cut off anywhere: the batches of the records
        wholly inside are replayed, and what is left of them in memory is flushed. */
    method RecoverLogFile(contents: seq<Byte>, ghost log: LogFile) returns (ghost kept: nat)
      requires Valid() && Counted() && mem.None? && LogOk(names, log, |st.history| + 1)
      requires contents <= LogFormat.LogBytes(crc, 0, log.records)
      requires |st.history| + |Flat(BatchesOf(names, log))| < MAX_SEQUENCE
      modifies this`tables, this`nextFile, this`maxSequence, this`mem, this`st
      ensures Valid() && Counted() && mem.None? && CutOffAt(crc, log, contents, kept) && kept <= |log.batches|
      ensures Follows(old(st), st, Flat(BatchesOf(names, log)[..kept]))
    {
      hide *;
      ghost var before, batches, records := st, BatchesOf(names, log), log.records;
      var reader := new LogReader.Reader(contents, crc, true);
      ghost var off: nat := LogFormat.BLOCK_SIZE;
      ghost var got: seq<seq<Byte>> := [];
      LogReader.Begins(reader, records);
      OneRecordEach(names, log, |before.history| + 1);
      NothingReplayed(before);
      assert batches[..0] == [];
      var more := true;
      while more
        invariant Valid() && Counted() && reader.Valid() && reader.crc == crc && reader.file == contents && fresh(reader)
        invariant off <= LogFormat.BLOCK_SIZE && got <= records
        invariant Follows(before, st, Flat(batches[..|got|]))
        invariant more ==> LogReader.HasRead(reader, off, records, got)
        invariant !more ==> LogReader.Ended(crc, records, got, contents)
        decreases more, reader.Unread()
      {
        var ok, record, off' := LogReader.NextRecord(reader, off, records, got);
        more, off := ok, off';
        if ok {
          ReplayNext(record, before, log, |got|);
          got := got + [record];
        }
      }
      kept := |got|;
      EndsThere(crc, log, contents, got);
      if mem.Some? {
        ghost var mid := st;
        WriteLevel0Table();
        FollowsOn(before, mid, st, Flat(batches[..kept]), []);
        assert Flat(batches[..kept]) + [] == Flat(batches[..kept]);
      }
    }
  }

  lemma {:induction false} OneRecordEach(names: Names, log: LogFile, first: nat)
    requires LogOk(names, log, first)
    ensures |log.records| == |log.batches|
  {
  }

  lemma {:induction false} EndsThere(crc: LogFormat.Checksum, log: LogFile, contents: seq<Byte>, got: seq<seq<Byte>>)
    requires got <= log.records && LogReader.Ended(crc, log.records, got, contents)
    ensures CutOffAt(crc, log, contents, |got|)
  {
    hide LogReader.Ended;
    assert log.records[..|got|] == got;
  }

  lemma {:induction false} NothingReplayed(st: State)
    ensures Follows(st, st, Flat([]))
  {
    FlatOne([]);
    FollowsNothing(st, st);
  }

  lemma {:induction false} NextBatch(names: Names, log: LogFile, first: nat, i: nat)
    requires LogOk(names, log, first) && i < |log.records|
    ensures i < |log.batches| && Encodes(log.records[i], first + |Flat(BatchesOf(names, log)[..i])|, log.batches[i])
    ensures var b := BatchesOf(names, log); Flat(b[..i + 1]) == Flat(b[..i]) + b[i] && b[i] == OpsOf(names, log.batches[i])
    ensures var b := BatchesOf(names, log); |Flat(b[..i])| + |b[i]| <= |Flat(b)|
  {
    hide Encodes, Flat;
    var b := BatchesOf(names, log);
    assert b[..i + 1] == b[..i] + [b[i]] && b == b[..i + 1] + b[i + 1..];
    FlatSum(b[..i], [b[i]]);
    FlatSum(b[..i + 1], b[i + 1..]);
    FlatOne(b[i]);
  }

  lemma {:induction false} FollowsLength(a: State, b: State, ops: seq<Op>)
    requires Follows(a, b, ops)
    ensures b.history == a.history + ops
  {
    hide Stored, ReadsOk, NewEntries;
  }

  lemma {:induction false} LevelInOrder(files: seq<seq<File>>)
    requires |files| == NUM_LEVELS && LevelsSorted(files)
    ensures SortedBySmallest(files[0])
  {
    hide SortedBySmallest;
  }

  lemma {:induction false} MoreNumbers(st: State, st': State)
    requires Inv(st) && st' == st.(nextFile := st'.nextFile) && st.nextFile <= st'.nextFile
    ensures Inv(st') && Stored(st') == Stored(st)
  {
    hide Layered, SortedBySmallest, Sorted;
    assert ImmEntries(st') == ImmEntries(st);
  }

  // ----- the store opened again -----

  function AllBatches(names: Names, logs: seq<LogFile>): seq<seq<Op>> {
    if |logs| == 0 then [] else AllBatches(names, logs[..|logs| - 1]) + BatchesOf(names, logs[|logs| - 1])
  }

  /** The log files as a crash leaves them: the last one may be cut off. */
  ghost predicate OnDisk(crc: LogFormat.Checksum, names: Names, first: nat, logs: seq<LogFile>, contents: seq<seq<Byte>>) {
    && |contents| == |logs| > 0
    && (forall i :: 0 <= i < |logs| ==> LogOk(names, logs[i], first + |Flat(AllBatches(names, logs[..i]))|))
    && (forall i :: 0 <= i < |logs| - 1 ==> contents[i] == LogFormat.LogBytes(crc, 0, logs[i].records))
    && contents[|logs| - 1] <= LogFormat.LogBytes(crc, 0, logs[|logs| - 1].records)
  }

  lemma {:induction false} WholeLog(crc: LogFormat.Checksum, log: LogFile, contents: seq<Byte>, kept: nat)
    requires CutOffAt(crc, log, contents, kept) && contents == LogFormat.LogBytes(crc, 0, log.records)
    ensures kept == |log.records|
  {
    hide LogFormat.LogBytes;
    if kept < |log.records| { LogReader.AllRead(crc, log.records, kept + 1); }
  }

  /** Whatever lies wholly in the part that survives is kept: a record that was synced, say. */
  lemma {:induction false} SurvivingRecordsAreKept(crc: LogFormat.Checksum, log: LogFile, contents: seq<Byte>, kept: nat,
      n: nat)
    requires CutOffAt(crc, log, contents, kept) && n <= |log.records|
    requires |LogFormat.LogBytes(crc, 0, log.records[..n])| <= |contents|
    ensures n <= kept
  {
    hide LogFormat.LogBytes;
    if kept < n {
      assert log.records[..n][..kept + 1] == log.records[..kept + 1];
      LogReader.AllRead(crc, log.records[..n], kept + 1);
    }
  }

  lemma {:induction false} NextLog(names: Names, logs: seq<LogFile>, i: nat)
    requires i < |logs|
    ensures AllBatches(names, logs[..i + 1]) == AllBatches(names, logs[..i]) + BatchesOf(names, logs[i])
  {
    assert logs[..i + 1][..i] == logs[..i];
  }

  lemma {:induction false} LogsWithin(names: Names, logs: seq<LogFile>, i: nat)
    requires i <= |logs|
    ensures AllBatches(names, logs[..i]) <= AllBatches(names, logs)
    decreases |logs| - i
  {
    if i == |logs| {
      assert logs[..i] == logs;
    } else {
      NextLog(names, logs, i);
      LogsWithin(names, logs, i + 1);
    }
  }

  lemma {:induction false} FlatPrefix(a: seq<seq<Op>>, b: seq<seq<Op>>)
    requires a <= b
    ensures Flat(a) <= Flat(b)
  {
    assert b == a + b[|a|..];
    FlatSum(a, b[|a|..]);
  }

  /** The edit of the recovered tables makes the levels that flushing them one by one
      would have made. */
  lemma {:induction false} TablesApplied(files: seq<seq<File>>, first: nat, tables: seq<File>, next: nat,
      levels: seq<seq<File>>, files': seq<seq<File>>)
    requires TablesAdded(files, first, tables, next, levels) && LevelsSorted(files) && LevelsSorted(levels)
    requires Numbered(files, first) && AppliedTo(files, FlushEdit(0, tables), files')
    ensures files' == levels
  {
    hide Saved, Applied, OneEdit, EditIs, At, SortedBySmallest, NewNumbers, Numbers;
    var edit := FlushEdit(0, tables);
    assert NewNumbers(files, edit) by { TablesAreNew(files, first, tables, next, levels); }
    forall l | 0 <= l < NUM_LEVELS ensures files'[l] == levels[l] {
      FlushEditAt(0, tables, l);
      EditAtLevel(files, edit, files', l);
      if l == 0 {
        forall f, g | f in files[0] && g in tables ensures f.number != g.number { }
        EditReplaces(files[0], At(edit, 0), [], tables, files'[0]);
        SortedFilesEqual(files'[0], levels[0]);
      } else {
        EditLeavesAlone(files[l], At(edit, l), files'[l]);
      }
    }
  }

  lemma {:induction false} TablesAreNew(files: seq<seq<File>>, first: nat, tables: seq<File>, next: nat,
      levels: seq<seq<File>>)
    requires TablesAdded(files, first, tables, next, levels) && Numbered(files, first)
    ensures NewNumbers(files, FlushEdit(0, tables)) && OnLevels(FlushEdit(0, tables))
  {
    forall l | 0 <= l < NUM_LEVELS ensures forall g :: g in At(FlushEdit(0, tables), l).added <==> l == 0 && g in tables {
      FlushEditAt(0, tables, l);
    }
    forall f, g | f in tables && g in tables && f.number == g.number ensures f == g {
      var i :| 0 <= i < |tables| && tables[i] == f;
      var j :| 0 <= j < |tables| && tables[j] == g;
    }
  }

  /** How far replaying has come before log `i`, or after the last one. */
  ghost predicate Replayed(crc: LogFormat.Checksum, names: Names, logs: seq<LogFile>, contents: seq<seq<Byte>>, i: nat,
      kept: nat)
  {
    && i <= |logs| == |contents| && kept <= |AllBatches(names, logs)|
    && (i < |logs| ==> kept == |AllBatches(names, logs[..i])|)
    && (i == |logs| > 0 ==> LastCutOff(crc, names, logs, contents, kept))
  }

  /** `kept` batches are in the records of all logs, the last as it is cut off. */
  ghost predicate LastCutOff(crc: LogFormat.Checksum, names: Names, logs: seq<LogFile>, contents: seq<seq<Byte>>, kept: nat)
    requires 0 < |logs| == |contents|
  {
    var last := |logs| - 1;
    var before := |AllBatches(names, logs[..last])|;
    before <= kept && CutOffAt(crc, logs[last], contents[last], kept - before)
  }

  lemma {:induction false} NothingReplayedYet(crc: LogFormat.Checksum, names: Names, logs: seq<LogFile>,
      contents: seq<seq<Byte>>)
    requires |logs| == |contents| > 0
    ensures Replayed(crc, names, logs, contents, 0, 0)
  {
    assert logs[..0] == [];
  }

  lemma {:induction false} ReplayedAll(crc: LogFormat.Checksum, names: Names, logs: seq<LogFile>,
      contents: seq<seq<Byte>>, kept: nat)
    requires |logs| > 0 && Replayed(crc, names, logs, contents, |logs|, kept)
    ensures |contents| == |logs| && LastCutOff(crc, names, logs, contents, kept)
  {
    hide LastCutOff;
  }

  lemma {:induction false} LogReady(crc: LogFormat.Checksum, names: Names, first: nat, logs: seq<LogFile>,
      contents: seq<seq<Byte>>, i: nat, kept: nat)
    requires OnDisk(crc, names, first, logs, contents) && Replayed(crc, names, logs, contents, i, kept) && i < |logs|
    ensures var all := AllBatches(names, logs); var batches := BatchesOf(names, logs[i]);
            && LogOk(names, logs[i], first + |Flat(all[..kept])|) && kept + |batches| <= |all|
            && all[..kept] + batches == all[..kept + |batches|]
            && |Flat(all[..kept])| + |Flat(batches)| <= |Flat(all)|
    ensures contents[i] <= LogFormat.LogBytes(crc, 0, logs[i].records)
  {
    hide LogOk, LogFormat.LogBytes, BatchesOf, AllBatches, LastCutOff;
    var all, batches := AllBatches(names, logs), BatchesOf(names, logs[i]);
    LogsWithin(names, logs, i);
    LogsWithin(names, logs, i + 1);
    NextLog(names, logs, i);
    assert all[..kept] == AllBatches(names, logs[..i]);
    assert all[..kept + |batches|] == all[..kept] + batches;
    FlatSum(all[..kept], batches);
    FlatPrefix(all[..kept + |batches|], all);
  }

  lemma {:induction false} WholeButLast(crc: LogFormat.Checksum, names: Names, first: nat, logs: seq<LogFile>,
      contents: seq<seq<Byte>>, i: nat)
    requires OnDisk(crc, names, first, logs, contents) && i < |logs|
    ensures |logs[i].records| == |logs[i].batches| && |contents| == |logs|
    ensures i + 1 < |logs| ==> contents[i] == LogFormat.LogBytes(crc, 0, logs[i].records)
  {
    hide LogFormat.LogBytes, AllBatches, Encodes, Flat;
  }

  lemma {:induction false} LogDone(crc: LogFormat.Checksum, names: Names, first: nat, logs: seq<LogFile>,
      contents: seq<seq<Byte>>, i: nat, kept: nat, n: nat)
    requires OnDisk(crc, names, first, logs, contents) && Replayed(crc, names, logs, contents, i, kept) && i < |logs|
    requires CutOffAt(crc, logs[i], contents[i], n) && n <= |logs[i].batches|
    ensures Replayed(crc, names, logs, contents, i + 1, kept + n)
    ensures var all := AllBatches(names, logs);
            Flat(all[..kept]) + Flat(BatchesOf(names, logs[i])[..n]) == Flat(all[..kept + n])
  {
    hide LogFormat.LogBytes, AllBatches, CutOffAt, OnDisk, LogOk, Flat;
    var all, batches := AllBatches(names, logs), BatchesOf(names, logs[i]);
    LogReady(crc, names, first, logs, contents, i, kept);
    WholeButLast(crc, names, first, logs, contents, i);
    NextLog(names, logs, i);
    assert all[..kept] + batches[..n] == (all[..kept] + batches)[..kept + n] == all[..kept + n];
    FlatSum(all[..kept], batches[..n]);
    if i + 1 < |logs| {
      WholeLog(crc, logs[i], contents[i], n);
    }
  }

  /** The version in the manifest, before anything is replayed, is the store as a crash that
      loses all logs would leave it. */
  lemma {:induction false} StartOver(d: Durable, nextFile: nat)
    requires DurableOk(d) && d.st.nextFile <= nextFile
    ensures var st := State(d.base, [], None, d.st.files, [], nextFile);
            && Inv(st) && Stored(st) == FileEntries(d.st.files) && (ReadsOk(Guarded(d)) ==> ReadsOk(st))
    ensures |d.st.files| == NUM_LEVELS && LevelsSorted(d.st.files) && Numbered(d.st.files, nextFile)
    ensures |d.st.history| < MAX_SEQUENCE
  {
    hide Flat, ReadsOk, FileEntries, Guarded;
    var st := State(d.base, [], None, d.st.files, [], nextFile);
    var d0 := Durable(st, d.base, [], []);
    FlatOne([]);
    NothingNew(d.base);
    assert (d.oldLog + d.liveLog)[..0] == [] && d.base + [] == d.base;
    assert RunEntries([]) == iset{} && ImmEntries(st) == iset{};
    assert CrashStep(d, 0, d0);
    CrashKeepsOk(d, 0, d0);
    hide DurableOk, CrashStep;
    if ReadsOk(Guarded(d)) {
      CrashGuards(d, 0, d0);
      GuardedReads(d0);
    }
  }

  lemma {:induction false} OneLogAtLeast(crc: LogFormat.Checksum, names: Names, first: nat, logs: seq<LogFile>,
      contents: seq<seq<Byte>>)
    requires OnDisk(crc, names, first, logs, contents)
    ensures |logs| == |contents| > 0
  {
    hide LogOk, LogFormat.LogBytes;
  }

  lemma {:induction false} FlatWithin(d: Durable)
    requires DurableOk(d)
    ensures |d.base| + |Flat(d.oldLog + d.liveLog)| == |d.st.history| < MAX_SEQUENCE
  {
    hide Flat, FileEntries, RunEntries, NewEntries, FilesOk, TablesInOrder, Stored;
    FlatSum(d.oldLog, d.liveLog);
  }

  /** The store as it comes back. */
  lemma {:induction false} Reopened(d: Durable, start: State, st: State, kept: nat)
    requires DurableOk(d) && kept <= |d.oldLog + d.liveLog| && Follows(start, st, Flat((d.oldLog + d.liveLog)[..kept]))
    requires start.history == d.base && Stored(start) == FileEntries(d.st.files) && (ReadsOk(Guarded(d)) ==> ReadsOk(start))
    ensures st.history == d.base + Flat((d.oldLog + d.liveLog)[..kept]) && st.history <= d.st.history
    ensures Stored(st) == UpTo(Stored(d.st), |st.history|) && (ReadsOk(Guarded(d)) ==> ReadsOk(st))
  {
    hide DurableOk, Flat, Stored, ReadsOk, FileEntries, NewEntries, Guarded, UpTo;
    StoredUpTo(d, kept);
  }

  lemma {:induction false} EmptyLevels()
    ensures var none: seq<seq<File>> := seq(NUM_LEVELS, _ => []);
            |none| == NUM_LEVELS && forall l :: 0 <= l < NUM_LEVELS ==> none[l] == [] && SortedBySmallest(none[l])
  {
  }

  lemma {:induction false} RecoveredParts(r: Recovery)
    requires r.Valid()
    ensures Inv(r.st) && r.st == State(r.st.history, r.Mem(), None, r.st.files, [], r.nextFile)
    ensures TablesAdded(r.files, r.firstFile, r.tables, r.nextFile, r.st.files) && LevelsSorted(r.st.files)
    ensures r.maxSequence <= |r.st.history|
  {
    hide TablesAdded, Inv;
    FullMemtable(r.st);
  }

  /** The store `d` opened with these files, as it was after what is in its tables and the
      first `kept` batches of its logs: all of it is in tables now, and it reads right if `d`
      did wherever a crash might have taken it. */
  ghost predicate ComesBack(d: Durable, kept: nat, files: seq<seq<File>>, lastSequence: nat, nextFile: nat) {
    && kept <= |d.oldLog + d.liveLog|
    && var st := State(d.base + Flat((d.oldLog + d.liveLog)[..kept]), [], None, files, [], nextFile);
       var d' := Durable(st, st.history, [], []);
       && st.history <= d.st.history && |st.history| <= lastSequence <= |d.st.history|
       && Stored(st) == UpTo(Stored(d.st), |st.history|)
       && DurableOk(d') && (ReadsOk(Guarded(d)) ==> ReadsOk(Guarded(d')))
  }

  /** DBImpl::Recover and the rest of DB::Open: the version of the manifest, the logs it
      asks for in order, and the edit with the recovered tables.

      The store comes back as it was after some number of its operations: none that is in
      a table is missing, and of the logs all records up to where the last one is cut
      off.  If reads were right wherever a crash may take the store, they are right now. */
  method Open(crc: LogFormat.Checksum, names: Names, fileSize: FileSize, full: seq<Entry> -> bool,
              manifest: seq<VersionEdit>, manifestLast: nat, nextFile: nat, contents: seq<seq<Byte>>,
              ghost d: Durable, ghost logs: seq<LogFile>)
    returns (files: seq<seq<File>>, lastSequence: nat, nextFile': nat)
    requires DurableOk(d) && d.st.nextFile <= nextFile && |d.base| <= manifestLast <= |d.st.history|
    requires forall e :: e in manifest ==> OnLevels(e)
    requires forall l :: 0 <= l < NUM_LEVELS ==> Saved([], EditReplay.Gathered(EditReplay.AtLevel(manifest, l))) == d.st.files[l]
    requires OnDisk(crc, names, |d.base| + 1, logs, contents) && AllBatches(names, logs) == d.oldLog + d.liveLog
    ensures exists kept :: LastCutOff(crc, names, logs, contents, kept) && ComesBack(d, kept, files, lastSequence, nextFile')
  {
    hide Inv, LogsOk, DurableOk, Stored, ReadsOk, Flat, OnDisk, LastCutOff, Replayed, Follows, Saved, SortedBySmallest, UpTo,
         EditReplay.Gathered, LogFormat.LogBytes, TablesAdded, LevelsSorted, Guarded, Numbered, Recovery.Valid, AppliedTo,
         CutOffAt, LogOk, AllBatches, FileEntries, At, OnLevels;
    ghost var all, base := d.oldLog + d.liveLog, State(d.base, [], None, d.st.files, [], nextFile);
    StartOver(d, nextFile);
    EmptyLevels();
    var version := EditReplay.Recover(seq(NUM_LEVELS, _ => []), manifest);
    assert version == d.st.files;
    var recovery := new Recovery(crc, names, fileSize, full, version, nextFile, d.base);
    NothingReplayed(base);
    assert all[..0] == [];
    ghost var kept := 0;
    OneLogAtLeast(crc, names, |d.base| + 1, logs, contents);
    NothingReplayedYet(crc, names, logs, contents);
    for i := 0 to |contents|
      invariant recovery.Valid() && recovery.Counted() && recovery.mem.None? && fresh(recovery)
      invariant recovery.crc == crc && recovery.names == names && recovery.files == version
      invariant recovery.firstFile == nextFile && recovery.baseLength == |d.base|
      invariant Replayed(crc, names, logs, contents, i, kept) && kept <= |all| && Follows(base, recovery.st, Flat(all[..kept]))
    {
      LogReady(crc, names, |d.base| + 1, logs, contents, i, kept);
      FlatWithin(d);
      ghost var mid := recovery.st;
      FollowsLength(base, mid, Flat(all[..kept]));
      ghost var n := recovery.RecoverLogFile(contents[i], logs[i]);
      FollowsOn(base, mid, recovery.st, Flat(all[..kept]), Flat(BatchesOf(names, logs[i])[..n]));
      LogDone(crc, names, |d.base| + 1, logs, contents, i, kept, n);
      kept := kept + n;
    }
    RecoveredParts(recovery);
    ReplayedAll(crc, names, logs, contents, kept);
    TablesAreNew(version, nextFile, recovery.tables, recovery.nextFile, recovery.st.files);
    files := ApplyEdit(version, FlushEdit(0, recovery.tables));
    TablesApplied(version, nextFile, recovery.tables, recovery.nextFile, recovery.st.files, files);
    ghost var st := recovery.st;
    nextFile' := recovery.nextFile;
    lastSequence := if manifestLast < recovery.maxSequence then recovery.maxSequence else manifestLast;
    Reopened(d, base, st, kept);
    AllInTables(st);
    assert LastCutOff(crc, names, logs, contents, kept) && ComesBack(d, kept, files, lastSequence, nextFile');
  }

  /** A store with empty memtables and logs. */
  lemma {:induction false} AllInTables(st: State)
    requires Inv(st) && st.mem == [] && st.imm.None? && st.snapshots == []
    ensures DurableOk(Durable(st, st.history, [], []))
    ensures ReadsOk(st) ==> ReadsOk(Guarded(Durable(st, st.history, [], [])))
  {
    var d := Durable(st, st.history, [], []);
    FlatOne([]);
    assert st.history + [] == st.history;
    NothingNew(st.history);
    assert RunEntries([]) == iset{} && ImmEntries(st) == iset{};
    assert FileEntries(st.files) <= Stored(st);
    hide Inv, Stored, ReadsOk, FileEntries;
    SnapshotsAside(st, Guarded(d));
    if ReadsOk(st) { ReadsFromLater(st, Guarded(d)); }
  }

  /** What the store shows after opening, at the sequence number it then goes on from, is
      what replaying the operations left gives. */
  lemma {:induction false} OpenedReads(st: State, lastSequence: nat, k: UserKey)
    requires Inv(st) && st.snapshots == [] && ReadsOk(st) && |st.history| <= lastSequence
    ensures View(Stored(st), k, lastSequence) == Lookup(Replay(st.history), k)
  {
    hide Stored, ReadsOk, Replay;
    FilesUnique(st);
    assert Stored(st) <= Entries(st.history);
    SameNewest(Stored(st), k, |st.history|, lastSequence);
    ReadsAreReplay(st, k, |st.history|);
    assert st.history[..|st.history|] == st.history;
  }

  lemma {:induction false} SameNewest(S: iset<Entry>, k: UserKey, s: nat, t: nat)
    requires UniqueSeqs(S) && s <= t && forall e :: e in S ==> e.ikey.sequence <= s
    ensures View(S, k, t) == View(S, k, s)
  {
    var e := FindNewest(S, k, s);
    if e.Some? {
      assert NewestAt(S, k, t, e.value);
      ViewOfNewest(S, k, s, e.value);
      ViewOfNewest(S, k, t, e.value);
    } else {
      ViewOfNothing(S, k, s);
      ViewOfNothing(S, k, t);
    }
  }
}
