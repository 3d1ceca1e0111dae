/** The database object (db/db_impl.cc): each of its operations takes one step of
    the store's state machine. */
module DbImpl {
  import opened InternalKeys
  import opened FlatHistory
  import opened Versions
  import opened CompactionInputs
  import opened SetupInputs
  import opened CompactionLoop
  import opened LsmState
  import opened LsmInvariants
  import opened LsmReads
  import opened LsmRuns
  import opened LevelEdits
  import opened CompactionChildren
  import VersionBuilder
  import MergedRuns
  import Merger
  import DbIter

  // ----- PickLevelForMemTableOutput -----

  /** MaxGrandParentOverlapBytes, ExpandedCompactionByteSizeLimit */
  function MaxGrandparentOverlap(maxFileSize: nat): nat { 10 * maxFileSize }
  function ExpandedByteSizeLimit(maxFileSize: nat): nat { 25 * maxFileSize }

  ghost predicate TouchesNothing(fs: seq<File>, f: File) {
    forall g :: g in fs ==> !Overlaps(g, Some(f.smallest.user), Some(f.largest.user))
  }

  method OverlapInLevel(files: seq<seq<File>>, level: nat, f: File) returns (overlap: bool)
    requires Layered(files) && level < NUM_LEVELS
    ensures overlap <==> !TouchesNothing(files[level], f)
  {
    hide Layered;
    LevelParts(files, level);
    overlap := SomeFileOverlapsRange(level > 0, files[level], Some(f.smallest.user), Some(f.largest.user));
  }

  /** The new table may go from level `l` to the one below: it touches nothing there and
      not too much one deeper. */
  ghost predicate SinksPast(files: seq<seq<File>>, f: File, maxFileSize: nat, l: nat)
    requires l + 2 < |files|
  {
    && TouchesNothing(files[l + 1], f)
    && TotalFileSize(OverlapFilter(files[l + 2], Some(f.smallest.user), Some(f.largest.user))) <= MaxGrandparentOverlap(maxFileSize)
  }

  /** It sinks as far as that allows, to level 2 at most. */
  ghost predicate PicksLevel(files: seq<seq<File>>, f: File, maxFileSize: nat, level: nat) {
    && |files| == NUM_LEVELS
    && if !TouchesNothing(files[0], f) then level == 0
       else
         && level <= MAX_MEM_COMPACT_LEVEL
         && (forall l :: 0 <= l < level ==> SinksPast(files, f, maxFileSize, l))
         && (level < MAX_MEM_COMPACT_LEVEL ==> !SinksPast(files, f, maxFileSize, level))
  }

  /** The file goes below every level it would overlap, but no deeper than its
      grandparents allow. */
  method PickLevelForMemTableOutput(files: seq<seq<File>>, f: File, maxFileSize: nat) returns (level: nat)
    requires Layered(files)
    ensures LevelForOutput(files, f, level) && PicksLevel(files, f, maxFileSize, level)
  {
    hide Layered, Overlaps, TotalFileSize;
    level := 0;
    assert |files| == NUM_LEVELS by { LevelParts(files, 0); }
    var overlap := OverlapInLevel(files, 0, f);
    if !overlap {
      while level < MAX_MEM_COMPACT_LEVEL
        invariant level <= MAX_MEM_COMPACT_LEVEL
        invariant forall l :: 0 <= l <= level ==> TouchesNothing(files[l], f)
        invariant forall l :: 0 <= l < level ==> SinksPast(files, f, maxFileSize, l)
      {
        overlap := OverlapInLevel(files, level + 1, f);
        if overlap {
          break;
        }
        if level + 2 < NUM_LEVELS {
          var overlaps := GetOverlappingInputs(files[level + 2], level + 2, Some(f.smallest.user), Some(f.largest.user));
          if TotalFileSize(overlaps) > MaxGrandparentOverlap(maxFileSize) {
            break;
          }
        }
        level := level + 1;
      }
    }
  }

  // ----- what a background compaction may do -----

  function GrandparentsOf(files: seq<seq<File>>, level: nat, in0: seq<File>, in1: seq<File>): seq<File> {
    if level + 2 < |files| && |in0| > 0 then Covered(files[level + 2], in0 + in1) else []
  }

  predicate TooMuchBelow(files: seq<seq<File>>, level: nat, in0: seq<File>, in1: seq<File>, maxFileSize: nat) {
    TotalFileSize(GrandparentsOf(files, level, in0, in1)) > MaxGrandparentOverlap(maxFileSize)
  }

  /** IsTrivialMove */
  predicate Movable(files: seq<seq<File>>, level: nat, in0: seq<File>, in1: seq<File>, maxFileSize: nat) {
    |in0| == 1 && |in1| == 0 && !TooMuchBelow(files, level, in0, in1, maxFileSize)
  }

  /** The steps of the machine that the code can take: a flush at the level it picks, a
      move only where it would move, a merge only where it would not, or on request, and
      outputs cut where it cuts them. */
  ghost predicate CodeChooses(st: State, a: Action, manual: bool, maxFileSize: nat, fileSize: FileSize) {
    match a
    case Flush(level, f) => f.size == fileSize.finished(f.entries) && PicksLevel(st.files, f, maxFileSize, level)
    case TrivialMove(level, f) => !manual && Movable(st.files, level, [f], [], maxFileSize)
    case Merge(level, in0, in1, _, outputs) =>
      && (manual || !Movable(st.files, level, in0, in1, maxFileSize))
      && RightlyCut(outputs, fileSize, maxFileSize, TooMuchBelow(st.files, level, in0, in1, maxFileSize))
    case _ => true
  }

  /** A compaction of `level` with the files picked among its inputs. */
  ghost predicate CompactsAt(a: Action, level: nat, picked: seq<File>) {
    || (a.TrivialMove? && a.moveLevel == level && SubsetOf(picked, [a.moved]))
    || (a.Merge? && a.mergeLevel == level && SubsetOf(picked, a.in0))
  }

  ghost predicate Compacted(st: State, level: nat, picked: seq<File>, manual: bool, maxFileSize: nat,
      fileSize: FileSize, st': State)
  {
    exists a :: Step(st, a, st') && CompactsAt(a, level, picked) && CodeChooses(st, a, manual, maxFileSize, fileSize)
  }

  lemma {:induction false} MoveCompacts(st: State, level: nat, picked: seq<File>, f: File, maxFileSize: nat,
      fileSize: FileSize, st': State)
    requires MoveStep(st, level, f, st') && SubsetOf(picked, [f]) && Movable(st.files, level, [f], [], maxFileSize)
    ensures Compacted(st, level, picked, false, maxFileSize, fileSize, st')
  {
    hide MoveStep, Movable;
    assert Step(st, Action.TrivialMove(level, f), st');
  }

  lemma {:induction false} MergeCompacts(st: State, level: nat, picked: seq<File>, manual: bool, in0: seq<File>,
      in1: seq<File>, input: seq<Entry>, outputs: seq<File>, maxFileSize: nat, fileSize: FileSize, st': State)
    requires MergeStep(st, level, in0, in1, input, outputs, st') && SubsetOf(picked, in0)
    requires manual || !Movable(st.files, level, in0, in1, maxFileSize)
    requires RightlyCut(outputs, fileSize, maxFileSize, TooMuchBelow(st.files, level, in0, in1, maxFileSize))
    ensures Compacted(st, level, picked, manual, maxFileSize, fileSize, st')
  {
    hide MergeStep, Movable, RightlyCut, TooMuchBelow;
    assert Step(st, Action.Merge(level, in0, in1, input, outputs), st');
  }

  /** CompactMemTable's step. */
  ghost predicate Flushed(st: State, maxFileSize: nat, fileSize: FileSize, st': State) {
    exists a :: Step(st, a, st') && (a.Flush? || a.DropEmptyMemTable?) && CodeChooses(st, a, false, maxFileSize, fileSize)
  }

  /** The immutable memtable is in the table `f`, now part of `level`. */
  ghost predicate TableWritten(st: State, level: nat, f: File, files': seq<seq<File>>, next': nat) {
    && st.imm == Some(f.entries) && IsTable(f) && f.number == st.nextFile && next' == st.nextFile + 1
    && |st.files| == NUM_LEVELS == |files'| && level < NUM_LEVELS && LevelForOutput(st.files, f, level)
    && Replaced(st.files[level], [], [f], files'[level])
    && forall l :: 0 <= l < NUM_LEVELS && l != level ==> files'[l] == st.files[l]
  }

  lemma {:induction false} IsFlushStep(st: State, level: nat, f: File, maxFileSize: nat, fileSize: FileSize,
      st': State)
    requires TableWritten(st, level, f, st'.files, st'.nextFile)
    requires f.size == fileSize.finished(f.entries) && PicksLevel(st.files, f, maxFileSize, level)
    requires st' == st.(imm := None, files := st'.files, nextFile := st'.nextFile)
    ensures FlushStep(st, level, f, st') && Flushed(st, maxFileSize, fileSize, st')
  {
    hide IsTable, LevelForOutput, Replaced, PicksLevel;
    assert Step(st, Action.Flush(level, f), st');
  }

  lemma {:induction false} IsDropStep(st: State, maxFileSize: nat, fileSize: FileSize, st': State)
    requires st.imm.Some? && |st.imm.value| == 0 && st' == st.(imm := None, nextFile := st.nextFile + 1)
    ensures DropStep(st, st') && Flushed(st, maxFileSize, fileSize, st')
  {
    hide FlushStep;
    assert Step(st, Action.DropEmptyMemTable, st');
  }

  lemma {:induction false} IsMoveStep(st: State, level: nat, f: File, st': State)
    requires ValidInputs(st.files, level, [f], []) && Exchanged(st.files, level, [f], [], [f], st'.files)
    requires st' == st.(files := st'.files)
    ensures MoveStep(st, level, f, st')
  {
  }

  lemma {:induction false} InputsFiles(st: State, level: nat, in0: seq<File>, in1: seq<File>)
    requires FilesOk(st) && ValidInputs(st.files, level, in0, in1)
    ensures Layered(st.files) && level + 1 < NUM_LEVELS && LevelsSorted(st.files)
    ensures CompactionFiles(st.files, st.nextFile, level, in0, in1, [])
  {
    LowerInputs(st.files, level, in0, in1);
  }

  lemma {:induction false} OutputsAreNew(files: seq<seq<File>>, next: nat, level: nat, in0: seq<File>, in1: seq<File>,
      outputs: seq<File>)
    requires CompactionFiles(files, next, level, in0, in1, []) && Outputs(outputs, next)
    ensures CompactionFiles(files, next, level, in0, in1, outputs)
  {
    forall f | f in outputs ensures f.number >= next && f == outputs[f.number - next] {
      var i :| 0 <= i < |outputs| && outputs[i] == f;
    }
  }

  /** Stored entries carry sequence numbers of the history. */
  lemma {:induction false} InputAllWritten(st: State, level: nat, in0: seq<File>, in1: seq<File>, input: seq<Entry>)
    requires Inv(st) && ValidInputs(st.files, level, in0, in1) && MergedInput(in0, in1, input)
    ensures AllWritten(input)
  {
    forall e | e in input ensures e.ikey.sequence <= |st.history| {
      InputsAreStored(st.files, level, in0, in1, e);
      assert e in Stored(st);
    }
  }

  class DBImpl {
    const maxFileSize: nat
    const fileSize: FileSize
    var mem: seq<Entry>
    var imm: Option<seq<Entry>>
    var files: seq<seq<File>>
    var snapshots: seq<nat>
    var nextFile: nat
    var lastSequence: nat
    var compactPointer: seq<Option<InternalKey>>
    /** Every operation applied so far. */
    ghost var history: seq<Op>

    ghost function Abs(): State
      reads this
    {
      State(history, mem, imm, files, snapshots, nextFile)
    }

    ghost predicate Valid()
      reads this
    {
      Inv(Abs()) && lastSequence == |history| && |compactPointer| == NUM_LEVELS
    }

    constructor (maxFileSize: nat, fileSize: FileSize)
      ensures Valid() && Abs() == Init() && ReadsOk(Abs())
      ensures this.maxFileSize == maxFileSize && this.fileSize == fileSize
    {
      this.maxFileSize, this.fileSize := maxFileSize, fileSize;
      mem, imm, files, snapshots := [], None, seq(NUM_LEVELS, _ => []), [];
      nextFile, lastSequence, compactPointer, history := 2, 0, seq(NUM_LEVELS, _ => None), [];
      new;
      assert files == Init().files;
      InitHolds();
    }

    // ----- writing -----

    /** Write, once the group of batches is built: the operations get the next
        sequence numbers and enter the memtable. */
    method Write(ops: seq<Op>)
      requires Valid() && |history| + |ops| < MAX_SEQUENCE
      modifies this
      ensures Valid() && WriteStep(old(Abs()), ops, Abs())
    {
      hide Inv, InsertSorted, Sorted;
      ghost var st := Abs();
      ghost var h := history;
      assert Entries([]) == iset{};
      MemOfHistory(st);
      for i := 0 to |ops|
        invariant lastSequence == |h| + i && history == h + ops[..i]
        invariant Sorted(mem) && MemBelow(mem, lastSequence + 1)
        invariant forall e :: e in mem <==> e in st.mem || e in NewEntries(h, ops[..i])
        invariant imm == st.imm && files == st.files && snapshots == st.snapshots && nextFile == st.nextFile
        invariant |compactPointer| == NUM_LEVELS
      {
        lastSequence := lastSequence + 1;
        var e := Entry(InternalKey(ops[i].key, lastSequence, ops[i].kind), ops[i].value);
        OneMore(h, ops, i, e);
        AddToMem(mem, e);
        mem := InsertSorted(mem, e);
        history := history + [ops[i]];
      }
      assert ops[..|ops|] == ops;
      assert RunEntries(mem) == RunEntries(st.mem) + NewEntries(h, ops);
      assert WriteStep(st, ops, Abs());
      WriteKeepsInv(st, ops, Abs());
    }

    /** MakeRoomForWrite, when the memtable is full and the last one is flushed. */
    method SwitchMemTable()
      requires Valid() && imm.None?
      modifies this
      ensures Valid() && SwitchStep(old(Abs()), Abs())
    {
      ghost var st := Abs();
      nextFile := nextFile + 1;
      imm := Some(mem);
      mem := [];
      SwitchKeepsInv(st, Abs());
    }

    // ----- background work -----

    method LogAndApply(edit: VersionBuilder.VersionEdit)
      requires |files| == NUM_LEVELS && LevelsSorted(files)
      requires VersionBuilder.OnLevels(edit)
      modifies this`files
      ensures AppliedTo(old(files), edit, files)
    {
      files := ApplyEdit(files, edit);
    }

    lemma {:induction false} AbsIs()
      ensures Abs() == State(history, mem, imm, files, snapshots, nextFile)
    {
    }

    lemma {:induction false} IsValid()
      requires Inv(Abs()) && lastSequence == |history| && |compactPointer| == NUM_LEVELS
      ensures Valid()
    {
      hide Inv;
    }

    lemma {:induction false} WhenValid()
      requires Valid()
      ensures Inv(Abs()) && lastSequence == |history| && |compactPointer| == NUM_LEVELS
      ensures FilesOk(Abs()) && Layered(files) && |files| == NUM_LEVELS && LevelsSorted(files)
      ensures Numbered(files, nextFile)
    {
      hide Inv, Layered, Numbered;
      AbsIs();
      LayersOf(Abs());
    }

    /** CompactMemTable: the immutable memtable becomes a table, if it holds
        anything, and goes where PickLevelForMemTableOutput says. */
    method CompactMemTable()
      requires Valid() && imm.Some?
      modifies this
      ensures Valid() && Flushed(old(Abs()), maxFileSize, fileSize, Abs())
    {
      hide *;
      ghost var st := Abs();
      AbsIs();
      WhenValid();
      FlushReady(st);
      if |imm.value| == 0 {
        nextFile := nextFile + 1;
        EmptyEdit(files);
        LogAndApply(VersionBuilder.VersionEdit([], []));
        NothingChanges(st.files, files);
        imm := None;
        AbsIs();
        IsDropStep(st, maxFileSize, fileSize, Abs());
        DropKeepsInv(st, Abs());
      } else {
        ghost var level, f := WriteLevel0Table();
        imm := None;
        AbsIs();
        IsFlushStep(st, level, f, maxFileSize, fileSize, Abs());
        FlushKeepsInv(st, level, f, Abs());
      }
      IsValid();
    }

    /** WriteLevel0Table and the edit that installs the table. */
    method WriteLevel0Table() returns (ghost at: nat, ghost table: File)
      requires Valid() && imm.Some? && |imm.value| > 0
      modifies this`files, this`nextFile
      ensures TableWritten(old(Abs()), at, table, files, nextFile)
      ensures table.size == fileSize.finished(table.entries) && PicksLevel(old(files), table, maxFileSize, at)
    {
      hide Inv, Layered, Numbered, LevelsSorted, AppliedTo, LevelForOutput, Replaced, Valid, FilesOk, IsTable, Sorted, PicksLevel;
      ghost var st := Abs();
      WhenValid();
      FlushReady(st);
      var number := nextFile;
      nextFile := nextFile + 1;
      var f := FinishOutput(number, fileSize.finished(imm.value), imm.value);
      var level := PickLevelForMemTableOutput(files, f, maxFileSize);
      LevelIsShallow(files, f, level);
      FlushIsNew(files, number, level, f);
      LogAndApply(FlushEdit(level, [f]));
      FlushReplaces(st.files, number, level, f, files);
      at, table := level, f;
    }

    /** BackgroundCompaction on the files picked: SetupOtherInputs, then a trivial
        move or a merge. */
    method Compact(level: nat, picked: seq<File>, manual: bool)
      requires Valid() && level + 1 < NUM_LEVELS && level < |files| && Picked(files[level], level, picked)
      modifies this
      ensures Valid() && Compacted(old(Abs()), level, picked, manual, maxFileSize, fileSize, Abs())
    {
      hide *;
      WhenValid();
      var in0, in1, grandparents, largest, base :=
        SetupOtherInputs(files, level, picked, ExpandedByteSizeLimit(maxFileSize));
      SetPointer(level, largest);
      ghost var st := Abs();
      AbsIs();
      GrandparentsAre(files, level, in0, in1, grandparents, maxFileSize);
      PickedAreInputs(picked, base, in0);
      if !manual && |in0| == 1 && |in1| == 0 && TotalFileSize(grandparents) <= MaxGrandparentOverlap(maxFileSize) {
        assert in0 == [in0[0]] && in1 == [];
        TrivialMove(level, in0[0]);
        MoveCompacts(st, level, picked, in0[0], maxFileSize, fileSize, Abs());
      } else {
        ghost var input, outputs := Merge(level, in0, in1, grandparents);
        MergeCompacts(st, level, picked, manual, in0, in1, input, outputs, maxFileSize, fileSize, Abs());
      }
    }

    method SetPointer(level: nat, largest: InternalKey)
      requires Valid() && level < NUM_LEVELS
      modifies this`compactPointer
      ensures Valid() && Abs() == old(Abs())
    {
      hide Inv;
      compactPointer := compactPointer[level := Some(largest)];
    }

    method TrivialMove(level: nat, f: File)
      requires Valid() && ValidInputs(files, level, [f], [])
      modifies this`files
      ensures Valid() && MoveStep(old(Abs()), level, f, Abs())
    {
      hide *;
      ghost var st := Abs();
      WhenValid();
      AbsIs();
      InputsFiles(st, level, [f], []);
      MovedIsThere(st, level, f);
      CompactionIsNew(files, nextFile, level, [f], [], [f]);
      LogAndApply(CompactionEdit(level, [f], [], [f]));
      CompactionExchanges(st.files, nextFile, level, [f], [], [f], files);
      AbsIs();
      IsMoveStep(st, level, f, Abs());
      MoveKeepsInv(st, level, f, Abs());
      IsValid();
    }

    method Merge(level: nat, in0: seq<File>, in1: seq<File>, grandparents: seq<File>)
      returns (ghost input: seq<Entry>, ghost outputs: seq<File>)
      requires Valid() && ValidInputs(files, level, in0, in1) && Picked(files[level], level, in0)
      modifies this`files, this`nextFile
      ensures Valid() && MergeStep(old(Abs()), level, in0, in1, input, outputs, Abs())
      ensures RightlyCut(outputs, fileSize, maxFileSize, TotalFileSize(grandparents) > MaxGrandparentOverlap(maxFileSize))
    {
      hide *;
      ghost var st := Abs();
      WhenValid();
      AbsIs();
      InputsFiles(st, level, in0, in1);
      var written := RunCompaction(level, in0, in1, grandparents);
      outputs := written;
      input := MergedRuns.MergeAll(MakeInputIterator(level, in0, in1));
      nextFile := nextFile + |written|;
      OutputsAreNew(files, st.nextFile, level, in0, in1, outputs);
      CompactionIsNew(files, st.nextFile, level, in0, in1, outputs);
      LogAndApply(CompactionEdit(level, in0, in1, written));
      CompactionExchanges(st.files, st.nextFile, level, in0, in1, outputs, files);
      AbsIs();
      IsMergeStep(st, level, in0, in1, input, outputs, Abs());
      MergeKeepsInv(st, level, in0, in1, input, outputs, Abs());
      IsValid();
    }

    /** DoCompactionWork up to InstallCompactionResults. */
    method RunCompaction(level: nat, in0: seq<File>, in1: seq<File>, grandparents: seq<File>)
      returns (outputs: seq<File>)
      requires Valid() && ValidInputs(files, level, in0, in1) && Picked(files[level], level, in0)
      ensures var input := MergedRuns.MergeAll(MakeInputIterator(level, in0, in1));
              && MergedInput(in0, in1, input) && Outputs(outputs, nextFile)
              && Flatten(outputs) == Kept(files, level, input, |input|, SmallestSnapshot(Abs()))
      ensures RightlyCut(outputs, fileSize, maxFileSize, TotalFileSize(grandparents) > MaxGrandparentOverlap(maxFileSize))
    {
      hide *;
      AbsIs();
      WhenValid();
      InputsFiles(Abs(), level, in0, in1);
      InputIsMergeable(files, level, in0, in1);
      InputIsMerged(level, in0, in1);
      InputAllWritten(Abs(), level, in0, in1, MergedRuns.MergeAll(MakeInputIterator(level, in0, in1)));
      SmallestIsSmall(Abs());
      var smallest := if |snapshots| == 0 then lastSequence else snapshots[0];
      assert smallest == SmallestSnapshot(Abs()) by { SmallestIs(); }
      var compaction := new Compaction(level, files, grandparents, MaxGrandparentOverlap(maxFileSize));
      var compact := new CompactionState(compaction, smallest, maxFileSize, fileSize, nextFile);
      var input := new Merger.MergingIterator(MakeInputIterator(level, in0, in1));
      compact.DoCompactionWork(input);
      outputs := compact.outputs;
      StopsWhen(compaction);
    }

    lemma {:induction false} SmallestIs()
      requires Valid()
      ensures (if |snapshots| == 0 then lastSequence else snapshots[0]) == SmallestSnapshot(Abs())
    {
      hide Inv;
    }

    /** BackgroundCompaction without a manual request: a full memtable first, then
        the level and file the version set names. */
    method BackgroundCompaction(level: nat, seek: Option<File>)
      requires Valid() && level + 1 < NUM_LEVELS && level < |files| && |files[level]| > 0
      requires seek.Some? ==> seek.value in files[level]
      modifies this
      ensures Valid()
      ensures if old(imm).Some? then Flushed(old(Abs()), maxFileSize, fileSize, Abs())
              else exists picked ::
                (Picked(old(files)[level], level, picked) && (seek.Some? ==> seek.value in picked)
                 && Compacted(old(Abs()), level, picked, false, maxFileSize, fileSize, Abs()))
    {
      hide *;
      WhenValid();
      LevelParts(files, level);
      if imm.Some? {
        CompactMemTable();
      } else {
        var picked := PickCompaction(files[level], level, seek, compactPointer[level]);
        Compact(level, picked, false);
      }
    }

    /** One round of a manual compaction of [begin, end] at `level`. */
    method ManualCompaction(level: nat, begin: Option<UserKey>, end: Option<UserKey>) returns (done: bool)
      requires Valid() && level + 1 < NUM_LEVELS && level < |files| && imm.None?
      modifies this
      ensures Valid()
      ensures done <==> forall f :: f in old(files)[level] ==> !Overlaps(f, begin, end)
      ensures if done then Abs() == old(Abs())
              else exists picked ::
                (Picked(old(files)[level], level, picked)
                 && Compacted(old(Abs()), level, picked, true, maxFileSize, fileSize, Abs()))
    {
      hide *;
      WhenValid();
      LevelParts(files, level);
      var picked := CompactRange(files[level], level, begin, end, maxFileSize);
      done := |picked| == 0;
      if !done {
        Compact(level, picked, true);
      }
    }

    // ----- snapshots -----

    method GetSnapshot() returns (s: nat)
      requires Valid()
      modifies this`snapshots
      ensures Valid() && Step(old(Abs()), TakeSnapshot, Abs()) && s == |history|
    {
      ghost var st := Abs();
      s := lastSequence;
      snapshots := snapshots + [s];
      SnapshotStep(st, TakeSnapshot, Abs());
    }

    method ReleaseSnapshot(i: nat)
      requires Valid() && i < |snapshots|
      modifies this`snapshots
      ensures Valid() && ReleaseStep(old(Abs()), i, Abs())
    {
      hide Inv;
      ghost var st := Abs();
      snapshots := snapshots[..i] + snapshots[i + 1..];
      SnapshotStep(st, Action.ReleaseSnapshot(i), Abs());
    }

    // ----- reading -----

    /** Get: memtable, immutable memtable, then the version, stopping at the first
        that knows the key.  While live snapshots read right, the answer is that
        of replaying the operations up to the snapshot. */
    method Get(k: UserKey, snapshot: Option<nat>) returns (r: Option<Value>)
      requires Valid()
      ensures var s := if snapshot.Some? then snapshot.value else |history|;
              && r == View(Stored(Abs()), k, s)
              && (ReadsOk(Abs()) && SmallestSnapshot(Abs()) <= s <= |history| ==> r == Lookup(Replay(history[..s]), k))
    {
      hide Inv, Stored, ReadsOk;
      var s := if snapshot.Some? then snapshot.value else lastSequence;
      var found := Search(k, s);
      StoredAnswer(Abs(), k, s, found);
      r := match found case Found(v) => Some(v) case _ => None;
      if ReadsOk(Abs()) && SmallestSnapshot(Abs()) <= s <= |history| {
        ReadsAreReplay(Abs(), k, s);
      }
    }

    method Search(k: UserKey, s: nat) returns (r: SaverState)
      requires Valid()
      ensures Answers(Stored(Abs()), k, s, r)
    {
      hide Inv, Answers, Newer, Layered, Sorted, RunEntries, FileEntries;
      ghost var m, i, f := RunEntries(mem), ImmEntries(Abs()), FileEntries(files);
      SearchOrder(Abs());
      r := SearchRun(mem, k, s);
      AnswersCombine(m, i, k, s, r);
      AnswersCombine(m + i, f, k, s, r);
      if !r.NotFound? {
        return;
      }
      if imm.Some? {
        r := SearchRun(imm.value, k, s);
        AnswersCombine(m, i, k, s, r);
        AnswersCombine(m + i, f, k, s, r);
        if !r.NotFound? {
          return;
        }
      } else {
        assert i == iset{};
        NothingThere(k, s);
        AnswersCombine(m, i, k, s, NotFound);
      }
      r := GetFromVersion(files, k, s);
      AnswersCombine(m + i, f, k, s, r);
    }

    /** NewIterator: a DBIter over the merged entries of everything stored. */
    method NewIterator(s: nat) returns (iter: DbIter.DBIter)
      requires Valid()
      ensures fresh(iter) && iter.Valid() && !iter.valid && iter.sequence == s
      ensures RunEntries(iter.entries) == Stored(Abs())
    {
      hide Inv, Stored, MergedRuns.MergeAll;
      InternalIteratorIsStored(Abs());
      iter := new DbIter.DBIter(MergedRuns.MergeAll(NewInternalIterator(mem, imm, files)), s);
    }
  }

  // ----- lemmas for the operations -----

  lemma {:induction false} StopsWhen(c: Compaction)
    ensures c.MayStop() <==> TotalFileSize(c.grandparents) > c.maxGrandparentOverlap
  {
  }

  lemma {:induction false} PickedAreInputs(picked: seq<File>, base: seq<File>, in0: seq<File>)
    requires |base| >= |picked| && base[..|picked|] == picked && SubsetOf(base, in0)
    ensures SubsetOf(picked, in0)
  {
  }

  lemma {:induction false} GrandparentsAre(files: seq<seq<File>>, level: nat, in0: seq<File>, in1: seq<File>,
      grandparents: seq<File>, maxFileSize: nat)
    requires ValidInputs(files, level, in0, in1)
    requires grandparents == if level + 2 < NUM_LEVELS then Covered(files[level + 2], in0 + in1) else []
    ensures TooMuchBelow(files, level, in0, in1, maxFileSize) <==>
      TotalFileSize(grandparents) > MaxGrandparentOverlap(maxFileSize)
    ensures Movable(files, level, in0, in1, maxFileSize) <==>
      |in0| == 1 && |in1| == 0 && TotalFileSize(grandparents) <= MaxGrandparentOverlap(maxFileSize)
  {
    hide Covered, TotalFileSize, UpperClosed;
  }

  lemma {:induction false} LayersOf(st: State)
    requires Inv(st)
    ensures FilesOk(st) && Layered(st.files) && |st.files| == NUM_LEVELS
  {
  }

  lemma {:induction false} NothingThere(k: UserKey, s: nat)
    ensures Answers(iset{}, k, s, NotFound)
  {
  }

  lemma {:induction false} SmallestIsSmall(st: State)
    requires Inv(st)
    ensures SmallestSnapshot(st) < MAX_SEQUENCE
  {
    SmallestIsWritten(st);
  }

  ghost predicate MemBelow(es: seq<Entry>, next: nat) {
    forall x :: x in es ==> x.ikey.sequence < next
  }

  lemma {:induction false} MemOfHistory(st: State)
    requires Inv(st)
    ensures Sorted(st.mem) && MemBelow(st.mem, |st.history| + 1)
    ensures forall e :: e !in NewEntries(st.history, [])
  {
    forall e | e in st.mem ensures e.ikey.sequence <= |st.history| {
      assert e in Stored(st);
    }
  }

  lemma {:induction false} OneMore(h: seq<Op>, ops: seq<Op>, i: nat, e: Entry)
    requires i < |ops| && e == Entry(InternalKey(ops[i].key, |h| + i + 1, ops[i].kind), ops[i].value)
    ensures h + ops[..i + 1] == h + ops[..i] + [ops[i]]
    ensures forall x :: x in NewEntries(h, ops[..i + 1]) <==> x in NewEntries(h, ops[..i]) || x == e
  {
    var a, b := h + ops[..i], h + ops[..i + 1];
    assert b == a + [ops[i]];
    assert EntryAt(b, |a|) == e;
    forall x: Entry | 1 <= x.ikey.sequence <= |a| ensures EntryAt(a, x.ikey.sequence - 1) == EntryAt(b, x.ikey.sequence - 1) {
    }
  }

  lemma {:induction false} AddToMem(es: seq<Entry>, e: Entry)
    requires Sorted(es) && MemBelow(es, e.ikey.sequence)
    ensures Sorted(InsertSorted(es, e)) && MemBelow(InsertSorted(es, e), e.ikey.sequence + 1)
    ensures forall x :: x in InsertSorted(es, e) <==> x in es || x == e
  {
    hide InsertSorted, Sorted;
    InsertSortedOrdered(es, e);
    forall x ensures x in InsertSorted(es, e) <==> x in es || x == e {
      InsertSortedElements(es, e, x);
    }
  }

  /** What CompactMemTable relies on. */
  lemma {:induction false} FlushReady(st: State)
    requires Inv(st) && st.imm.Some?
    ensures |st.files| == NUM_LEVELS && Layered(st.files) && LevelsSorted(st.files) && Numbered(st.files, st.nextFile)
    ensures Sorted(st.imm.value) && AllWritten(st.imm.value)
  {
    forall e | e in st.imm.value ensures e.ikey.sequence <= |st.history| {
      assert e in Stored(st);
    }
  }

  lemma {:induction false} EmptyEdit(files: seq<seq<File>>)
    requires |files| == NUM_LEVELS
    ensures VersionBuilder.OnLevels(VersionBuilder.VersionEdit([], []))
    ensures NewNumbers(files, VersionBuilder.VersionEdit([], []))
  {
  }

  lemma {:induction false} LevelIsShallow(files: seq<seq<File>>, f: File, level: nat)
    requires |files| == NUM_LEVELS && LevelForOutput(files, f, level)
    ensures level < NUM_LEVELS
  {
  }

  lemma {:induction false} MovedIsThere(st: State, level: nat, f: File)
    requires FilesOk(st) && ValidInputs(st.files, level, [f], [])
    requires CompactionFiles(st.files, st.nextFile, level, [f], [], [])
    ensures CompactionFiles(st.files, st.nextFile, level, [f], [], [f])
  {
    assert f in [f];
  }

  lemma {:induction false} IsMergeStep(st: State, level: nat, in0: seq<File>, in1: seq<File>, input: seq<Entry>,
      outputs: seq<File>, st': State)
    requires ValidInputs(st.files, level, in0, in1) && MergedInput(in0, in1, input) && Outputs(outputs, st.nextFile)
    requires Flatten(outputs) == Kept(st.files, level, input, |input|, SmallestSnapshot(st))
    requires Exchanged(st.files, level, in0, in1, outputs, st'.files)
    requires st' == st.(files := st'.files, nextFile := st.nextFile + |outputs|)
    ensures MergeStep(st, level, in0, in1, input, outputs, st')
  {
  }

  /** The order in which Get searches is newest first. */
  lemma {:induction false} SearchOrder(st: State)
    requires Inv(st)
    ensures Newer(RunEntries(st.mem), ImmEntries(st))
    ensures Newer(RunEntries(st.mem) + ImmEntries(st), FileEntries(st.files))
    ensures Sorted(st.mem) && (st.imm.Some? ==> Sorted(st.imm.value)) && Layered(st.files)
  {
  }

  lemma {:induction false} StoredAnswer(st: State, k: UserKey, s: nat, r: SaverState)
    requires Inv(st) && Answers(Stored(st), k, s, r)
    ensures View(Stored(st), k, s) == match r case Found(v) => Some(v) case _ => None
  {
    hide Inv, Stored;
    FilesUnique(st);
    if r.NotFound? {
      ViewOfNothing(Stored(st), k, s);
    } else {
      var e :| NewestAt(Stored(st), k, s, e) && r == SaveValue(e);
      ViewOfNewest(Stored(st), k, s, e);
    }
  }

  /** What the iterator yields over the stored entries is the snapshot's map:
      an entry is shown exactly for each key of the map, with its value. */
  lemma {:induction false} IteratorShowsReplay(st: State, es: seq<Entry>, s: nat, k: UserKey, v: Value)
    requires Inv(st) && ReadsOk(st) && SmallestSnapshot(st) <= s <= |st.history|
    requires Sorted(es) && RunEntries(es) == Stored(st)
    ensures (exists i :: 0 <= i < |es| && DbIter.Shown(es, s, i) && es[i].ikey.user == k && es[i].value == v) <==>
            Lookup(Replay(st.history[..s]), k) == Some(v)
  {
    hide Inv, ReadsOk, Stored, RunEntries, Sorted, View, DbIter.Shown, UniqueSeqs, Replay;
    FilesUnique(st);
    ReadsAreReplay(st, k, s);
    if i :| 0 <= i < |es| && DbIter.Shown(es, s, i) && es[i].ikey.user == k && es[i].value == v {
      DbIter.ShownIsView(es, s, i);
    }
    if View(RunEntries(es), k, s) == Some(v) {
      var i := DbIter.ViewIsShown(es, s, k);
      DbIter.ShownIsView(es, s, i);
    }
  }
}
