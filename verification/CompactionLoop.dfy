/** The merge loop of a compaction (db/db_impl.cc: DoCompactionWork;
    db/version_set.cc: IsBaseLevelForKey, ShouldStopBefore). */
module CompactionLoop {
  import opened InternalKeys
  import opened Versions
  import opened SetupInputs
  import MergedRuns
  import Merger

  // ----- the drop rules, stated on the whole sorted input -----

  /** No file below the output level has `k` in its range. */
  ghost predicate BaseLevel(files: seq<seq<File>>, level: nat, k: UserKey) {
    forall l, f :: level + 2 <= l < |files| && f in files[l] ==> !(f.smallest.user <= k <= f.largest.user)
  }

  /** Rule (A): the entry before it has the same user key and is visible to
      every live snapshot. */
  predicate Hidden(input: seq<Entry>, i: nat, smallest: nat)
    requires i < |input|
  {
    i > 0 && input[i - 1].ikey.user == input[i].ikey.user && input[i - 1].ikey.sequence <= smallest
  }

  /** A deletion marker visible to every live snapshot, with nothing below. */
  ghost predicate Obsolete(files: seq<seq<File>>, level: nat, e: Entry, smallest: nat) {
    e.ikey.kind.TypeDeletion? && e.ikey.sequence <= smallest && BaseLevel(files, level, e.ikey.user)
  }

  ghost predicate Dropped(files: seq<seq<File>>, level: nat, input: seq<Entry>, i: nat, smallest: nat)
    requires i < |input|
  {
    Hidden(input, i, smallest) || Obsolete(files, level, input[i], smallest)
  }

  /** The entries the loop writes out of the first `n`. */
  ghost function Kept(files: seq<seq<File>>, level: nat, input: seq<Entry>, n: nat, smallest: nat): seq<Entry>
    requires n <= |input|
  {
    if n == 0 then []
    else
      Kept(files, level, input, n - 1, smallest) +
      if Dropped(files, level, input, n - 1, smallest) then [] else [input[n - 1]]
  }

  lemma {:induction false} KeptMembers(files: seq<seq<File>>, level: nat, input: seq<Entry>, n: nat, smallest: nat)
    requires n <= |input|
    ensures forall e :: e in Kept(files, level, input, n, smallest) <==>
              exists i :: 0 <= i < n && input[i] == e && !Dropped(files, level, input, i, smallest)
  {
    if n > 0 {
      KeptMembers(files, level, input, n - 1, smallest);
    }
  }

  lemma {:induction false} KeptSorted(files: seq<seq<File>>, level: nat, input: seq<Entry>, n: nat, smallest: nat)
    requires n <= |input| && Sorted(input)
    ensures Sorted(Kept(files, level, input, n, smallest))
  {
    if n > 0 {
      KeptSorted(files, level, input, n - 1, smallest);
      KeptMembers(files, level, input, n - 1, smallest);
      var k := Kept(files, level, input, n - 1, smallest);
      assert forall i :: 0 <= i < |k| ==> k[i] in k;
    }
  }

  // ----- the compaction object -----

  class Compaction {
    const level: nat
    const files: seq<seq<File>>
    const grandparents: seq<File>
    const maxGrandparentOverlap: nat
    const levelPtrs: array<nat>
    var grandparentIndex: nat
    var seenKey: bool
    var overlappedBytes: nat

    ghost predicate Valid()
      reads this, levelPtrs
    {
      && |files| == NUM_LEVELS && level + 1 < NUM_LEVELS
      && (forall l :: 1 <= l < NUM_LEVELS ==> LevelSorted(files[l]))
      && levelPtrs.Length == NUM_LEVELS
      && (forall l :: 0 <= l < NUM_LEVELS ==> levelPtrs[l] <= |files[l]|)
      && grandparentIndex <= |grandparents|
      && overlappedBytes <= TotalFileSize(grandparents[..grandparentIndex])
    }

    /** Every file a cursor has passed ends before `k`. */
    ghost predicate CursorsBefore(k: UserKey)
      requires |files| == NUM_LEVELS && levelPtrs.Length == NUM_LEVELS
      reads levelPtrs
    {
      forall l, i :: 0 <= l < NUM_LEVELS && 0 <= i < levelPtrs[l] && i < |files[l]| ==> files[l][i].largest.user < k
    }

    /** Only with so much below can ShouldStopBefore ever stop. */
    predicate MayStop() { TotalFileSize(grandparents) > maxGrandparentOverlap }

    ghost predicate AtStart()
      reads this, levelPtrs
    {
      Valid() && forall k :: CursorsBefore(k)
    }

    constructor (level: nat, files: seq<seq<File>>, grandparents: seq<File>, maxGrandparentOverlap: nat)
      requires Layered(files) && level + 1 < NUM_LEVELS
      ensures Valid() && AtStart() && fresh(levelPtrs)
      ensures this.level == level && this.files == files && this.grandparents == grandparents
      ensures this.maxGrandparentOverlap == maxGrandparentOverlap
      ensures grandparentIndex == 0 && !seenKey && overlappedBytes == 0
    {
      this.level, this.files, this.grandparents := level, files, grandparents;
      this.maxGrandparentOverlap := maxGrandparentOverlap;
      levelPtrs := new nat[NUM_LEVELS](_ => 0);
      grandparentIndex, seenKey, overlappedBytes := 0, false, 0;
    }

    /** IsBaseLevelForKey: asked with ascending keys, the cursors that only move
        forward give the answer of looking at every deeper file. */
    method IsBaseLevelForKey(k: UserKey) returns (base: bool)
      requires Valid() && CursorsBefore(k)
      modifies levelPtrs
      ensures Valid() && CursorsBefore(k)
      ensures base <==> BaseLevel(files, level, k)
    {
      for l := level + 2 to NUM_LEVELS
        invariant Valid() && CursorsBefore(k)
        invariant forall m, f :: level + 2 <= m < l && f in files[m] ==> !(f.smallest.user <= k <= f.largest.user)
      {
        var inFile := AdvanceCursor(l, k);
        if inFile {
          assert files[l][levelPtrs[l]] in files[l];
          return false;
        }
      }
      return true;
    }

    /** The inner loop, on one level. */
    method AdvanceCursor(l: nat, k: UserKey) returns (inFile: bool)
      requires Valid() && CursorsBefore(k) && 1 <= l < NUM_LEVELS
      modifies levelPtrs
      ensures Valid() && CursorsBefore(k)
      ensures inFile ==> levelPtrs[l] < |files[l]| &&
                         files[l][levelPtrs[l]].smallest.user <= k <= files[l][levelPtrs[l]].largest.user
      ensures !inFile ==> forall f :: f in files[l] ==> !(f.smallest.user <= k <= f.largest.user)
    {
      while levelPtrs[l] < |files[l]|
        invariant Valid() && CursorsBefore(k)
        decreases |files[l]| - levelPtrs[l]
      {
        var f := files[l][levelPtrs[l]];
        if k <= f.largest.user {
          if k >= f.smallest.user {
            return true;
          }
          break;
        }
        levelPtrs[l] := levelPtrs[l] + 1;
      }
      inFile := false;
      forall f | f in files[l] ensures !(f.smallest.user <= k <= f.largest.user) {
        var j :| 0 <= j < |files[l]| && files[l][j] == f;
        if levelPtrs[l] < j {
          assert Less(files[l][levelPtrs[l]].largest, f.smallest);
        }
      }
    }

    /** ShouldStopBefore: charges the grandparent files passed since the last
        stop, and stops when they exceed the limit. */
    method ShouldStopBefore(key: InternalKey) returns (stop: bool)
      requires Valid()
      modifies this
      ensures Valid() && seenKey
      ensures old(grandparentIndex) <= grandparentIndex
      ensures forall i :: old(grandparentIndex) <= i < grandparentIndex ==> Less(grandparents[i].largest, key)
      ensures grandparentIndex < |grandparents| ==> !Less(grandparents[grandparentIndex].largest, key)
      ensures var charged := old(overlappedBytes) +
                if old(seenKey) then TotalFileSize(grandparents[old(grandparentIndex)..grandparentIndex]) else 0;
              stop == (charged > maxGrandparentOverlap) && overlappedBytes == if stop then 0 else charged
      ensures stop ==> MayStop()
    {
      hide TotalFileSize, LevelSorted, Less;
      ghost var g := grandparentIndex;
      assert TotalFileSize(grandparents[g..g]) == 0 by { NoFileSize(grandparents, g); }
      while grandparentIndex < |grandparents| && Less(grandparents[grandparentIndex].largest, key)
        invariant Valid() && g <= grandparentIndex && seenKey == old(seenKey)
        invariant forall i :: g <= i < grandparentIndex ==> Less(grandparents[i].largest, key)
        invariant overlappedBytes == old(overlappedBytes) +
                    if seenKey then TotalFileSize(grandparents[g..grandparentIndex]) else 0
      {
        OneMoreFile(grandparents, g, grandparentIndex);
        OneMoreFile(grandparents, 0, grandparentIndex);
        if seenKey {
          overlappedBytes := overlappedBytes + grandparents[grandparentIndex].size;
        }
        grandparentIndex := grandparentIndex + 1;
      }
      seenKey := true;
      PartIsLess(grandparents, grandparentIndex);
      if overlappedBytes > maxGrandparentOverlap {
        overlappedBytes := 0;
        return true;
      } else {
        return false;
      }
    }
  }

  lemma {:induction false} OneMoreFile(fs: seq<File>, a: nat, i: nat)
    requires a <= i < |fs|
    ensures TotalFileSize(fs[a..i + 1]) == TotalFileSize(fs[a..i]) + fs[i].size
    ensures a == 0 ==> fs[a..i + 1] == fs[..i + 1] && fs[a..i] == fs[..i]
  {
    assert fs[a..i + 1][..i - a] == fs[a..i];
  }

  lemma {:induction false} NoFileSize(fs: seq<File>, a: nat)
    requires a <= |fs|
    ensures TotalFileSize(fs[a..a]) == 0
  {
  }

  lemma {:induction false} PartIsLess(fs: seq<File>, n: nat)
    requires n <= |fs|
    ensures TotalFileSize(fs[..n]) <= TotalFileSize(fs)
    decreases |fs|
  {
    if n < |fs| {
      PartIsLess(fs[..|fs| - 1], n);
      assert fs[..|fs| - 1][..n] == fs[..n];
    } else {
      assert fs[..n] == fs;
    }
  }

  // ----- the loop -----

  function Flatten(outputs: seq<File>): seq<Entry> {
    if |outputs| == 0 then [] else Flatten(outputs[..|outputs| - 1]) + outputs[|outputs| - 1].entries
  }

  /** Output files: numbered from `first` on, each the table of its entries. */
  ghost predicate Outputs(outputs: seq<File>, first: nat) {
    && (forall i :: 0 <= i < |outputs| ==> outputs[i].number == first + i)
    && AllTables(outputs)
  }

  /** TableBuilder::FileSize for a run of entries: with the run added, and once finished. */
  datatype FileSize = FileSize(flushed: seq<Entry> -> nat, finished: seq<Entry> -> nat)

  /** An output was open as long as it was below the limit. */
  ghost predicate Filled(f: File, fileSize: FileSize, limit: nat) {
    f.size == fileSize.finished(f.entries) && forall n :: 0 < n < |f.entries| ==> fileSize.flushed(f.entries[..n]) < limit
  }

  /** Where DoCompactionWork closes its outputs: one is closed when it reaches the limit,
      at the end of the input and, if `stops`, where ShouldStopBefore says. */
  ghost predicate RightlyCut(outputs: seq<File>, fileSize: FileSize, limit: nat, stops: bool) {
    && (forall i :: 0 <= i < |outputs| ==> Filled(outputs[i], fileSize, limit))
    && (!stops ==> forall i :: 0 <= i < |outputs| - 1 ==> fileSize.flushed(outputs[i].entries) >= limit)
  }

  /** OpenCompactionOutputFile .. FinishCompactionOutputFile: the finished table. */
  function FinishOutput(number: nat, size: nat, builder: seq<Entry>): (f: File)
    requires |builder| > 0 && Sorted(builder)
    requires forall e :: e in builder ==> e.ikey.sequence <= MAX_SEQUENCE
    ensures IsTable(f) && f.entries == builder && f.number == number && f.size == size
  {
    assert |builder| > 1 ==> Less(builder[0].ikey, builder[|builder| - 1].ikey);
    FileMetaData(number, size, builder[0].ikey, builder[|builder| - 1].ikey, builder)
  }

  /** Sequence numbers as the store hands them out. */
  ghost predicate AllWritten(es: seq<Entry>) {
    forall e :: e in es ==> e.ikey.sequence <= MAX_SEQUENCE
  }

  class CompactionState {
    const compaction: Compaction
    const smallestSnapshot: nat
    const maxOutputFileSize: nat
    const fileSize: FileSize
    const firstNumber: nat
    var outputs: seq<File>
    /** The entries of the open output; empty when there is no builder. */
    var builder: seq<Entry>
    var hasCurrentUserKey: bool
    var currentUserKey: UserKey
    var lastSequenceForKey: nat

    constructor (c: Compaction, smallestSnapshot: nat, maxOutputFileSize: nat, fileSize: FileSize, firstNumber: nat)
      ensures compaction == c && this.smallestSnapshot == smallestSnapshot && this.firstNumber == firstNumber
      ensures this.maxOutputFileSize == maxOutputFileSize && this.fileSize == fileSize
      ensures outputs == [] && builder == [] && !hasCurrentUserKey
    {
      compaction, this.smallestSnapshot, this.maxOutputFileSize := c, smallestSnapshot, maxOutputFileSize;
      this.fileSize, this.firstNumber := fileSize, firstNumber;
      outputs, builder, hasCurrentUserKey, currentUserKey, lastSequenceForKey := [], [], false, 0.0, MAX_SEQUENCE;
    }

    /** All entries written so far. */
    ghost function Written(): seq<Entry>
      reads this
    {
      Flatten(outputs) + builder
    }

    ghost predicate WellBuilt()
      reads this
    {
      Outputs(outputs, firstNumber) && Sorted(builder) && AllWritten(builder) && Cut() && Open(|builder|)
    }

    /** Every closed output is full, or ShouldStopBefore may have closed it. */
    ghost predicate Cut()
      reads this`outputs
    {
      forall f :: f in outputs ==>
        Filled(f, fileSize, maxOutputFileSize) && (compaction.MayStop() || fileSize.flushed(f.entries) >= maxOutputFileSize)
    }

    /** The open output was below the limit with each of its first `n` entries. */
    ghost predicate Open(n: nat)
      reads this`builder
    {
      n <= |builder| && forall m :: 0 < m <= n ==> fileSize.flushed(builder[..m]) < maxOutputFileSize
    }

    /** The loop's variables describe the entry before position `i`. */
    ghost predicate Tracks(input: seq<Entry>, i: nat)
      requires i <= |input|
      reads this
    {
      && (hasCurrentUserKey <==> i > 0)
      && (i > 0 ==> currentUserKey == input[i - 1].ikey.user && lastSequenceForKey == input[i - 1].ikey.sequence)
    }

    method FinishOutputFile()
      requires Outputs(outputs, firstNumber) && Sorted(builder) && AllWritten(builder)
      requires builder != [] && Open(|builder| - 1)
      modifies this`outputs, this`builder
      ensures Outputs(outputs, firstNumber) && builder == [] && Written() == old(Written())
      ensures |outputs| == |old(outputs)| + 1 && outputs[..|outputs| - 1] == old(outputs)
      ensures outputs[|outputs| - 1].entries == old(builder)
      ensures Filled(outputs[|outputs| - 1], fileSize, maxOutputFileSize)
    {
      var f := FinishOutput(firstNumber + |outputs|, fileSize.finished(builder), builder);
      assert (outputs + [f])[..|outputs|] == outputs;
      outputs, builder := outputs + [f], [];
    }

    /** Closing an output where the rule allows it. */
    method CloseOutputFile()
      requires Outputs(outputs, firstNumber) && Sorted(builder) && AllWritten(builder) && Cut()
      requires builder != [] && Open(|builder| - 1)
      requires compaction.MayStop() || fileSize.flushed(builder) >= maxOutputFileSize
      modifies this`outputs, this`builder
      ensures WellBuilt() && builder == [] && Written() == old(Written())
    {
      hide Filled, IsTable, Sorted, Flatten;
      ghost var was := outputs;
      FinishOutputFile();
      assert outputs == was + [outputs[|was|]];
      assert Sorted([]) by { NothingSorted(); }
    }

    lemma {:induction false} NothingSorted()
      ensures Sorted([])
    {
    }

    /** The decision on one entry: the loop's two rules are the rules on the
        whole input. */
    method ShouldDrop(e: Entry, ghost input: seq<Entry>, ghost i: nat) returns (drop: bool)
      requires Sorted(input) && i < |input| && e == input[i] && Tracks(input, i)
      requires smallestSnapshot < MAX_SEQUENCE
      requires compaction.Valid() && forall k :: k >= e.ikey.user ==> compaction.CursorsBefore(k)
      modifies this`hasCurrentUserKey, this`currentUserKey, this`lastSequenceForKey, compaction.levelPtrs
      ensures Tracks(input, i + 1)
      ensures drop <==> Dropped(compaction.files, compaction.level, input, i, smallestSnapshot)
      ensures compaction.Valid() && forall k :: k >= e.ikey.user ==> compaction.CursorsBefore(k)
    {
      var ikey := e.ikey;
      if !hasCurrentUserKey || ikey.user != currentUserKey {
        currentUserKey := ikey.user;
        hasCurrentUserKey := true;
        lastSequenceForKey := MAX_SEQUENCE;
      }
      drop := false;
      if lastSequenceForKey <= smallestSnapshot {
        drop := true;
      } else if ikey.kind.TypeDeletion? && ikey.sequence <= smallestSnapshot {
        drop := compaction.IsBaseLevelForKey(ikey.user);
      }
      lastSequenceForKey := ikey.sequence;
    }

    /** Adding one kept entry; a full output is closed. */
    method AddToOutput(e: Entry)
      requires WellBuilt() && e.ikey.sequence <= MAX_SEQUENCE
      requires Sorted(builder + [e])
      modifies this`outputs, this`builder
      ensures WellBuilt() && Written() == old(Written()) + [e]
    {
      ghost var was := builder;
      builder := builder + [e];
      assert Written() == old(Written()) + [e];
      assert forall m :: 0 < m <= |was| ==> builder[..m] == was[..m];
      if fileSize.flushed(builder) >= maxOutputFileSize {
        CloseOutputFile();
      } else {
        assert builder[..|builder|] == builder;
      }
    }

    /** The loop stands at entry `i` of `input`. */
    ghost predicate Working(input: seq<Entry>, i: nat)
      requires i <= |input|
      reads this, compaction, compaction.levelPtrs
    {
      && WellBuilt() && Tracks(input, i)
      && Written() == Kept(compaction.files, compaction.level, input, i, smallestSnapshot)
      && compaction.Valid()
      && forall k :: i < |input| && k >= input[i].ikey.user ==> compaction.CursorsBefore(k)
    }

    /** The body of the loop. */
    method CompactOne(e: Entry, ghost input: seq<Entry>, ghost i: nat)
      requires Sorted(input) && i < |input| && e == input[i] && e.ikey.sequence <= MAX_SEQUENCE
      requires smallestSnapshot < MAX_SEQUENCE
      requires Working(input, i)
      modifies this, compaction, compaction.levelPtrs
      ensures Working(input, i + 1)
    {
      var stop := compaction.ShouldStopBefore(e.ikey);
      if stop && builder != [] {
        CloseOutputFile();
      }
      var drop := ShouldDrop(e, input, i);
      if !drop {
        BuilderStaysSorted(input, i);
        AddToOutput(e);
      }
      assert i + 1 < |input| ==> Less(input[i].ikey, input[i + 1].ikey);
    }

    /** One turn of the loop: the current entry, then the next. */
    method CompactNext(input: Merger.MergingIterator, ghost entries: seq<Entry>)
      requires input.Valid() && input.current >= 0 && entries == MergedRuns.MergeAll(input.runs) && Sorted(entries)
      requires AllWritten(entries) && smallestSnapshot < MAX_SEQUENCE
      requires input.at <= |entries| && Working(entries, input.at)
      requires input.pos != compaction.levelPtrs
      modifies this, compaction, compaction.levelPtrs, input, input.pos
      ensures input.Valid() && input.at == old(input.at) + 1 && input.at <= |entries| && Working(entries, input.at)
      ensures input.current >= 0 <==> input.at < |entries|
    {
      input.InRange();
      var e := input.Current();
      assert e in entries;
      hide *;
      CompactOne(e, entries, input.at);
      input.Next();
      input.InRange();
    }

    /** DoCompactionWork: the output tables together hold exactly the entries the
        drop rules keep of what the merging iterator yields. */
    method DoCompactionWork(input: Merger.MergingIterator)
      requires input.Valid() && AllWritten(MergedRuns.MergeAll(input.runs)) && smallestSnapshot < MAX_SEQUENCE
      requires outputs == [] && builder == [] && !hasCurrentUserKey
      requires compaction.AtStart()
      requires input.pos != compaction.levelPtrs
      modifies this, compaction, compaction.levelPtrs, input, input.pos
      ensures Outputs(outputs, firstNumber)
      ensures var entries := MergedRuns.MergeAll(input.runs);
              Flatten(outputs) == Kept(compaction.files, compaction.level, entries, |entries|, smallestSnapshot)
      ensures RightlyCut(outputs, fileSize, maxOutputFileSize, compaction.MayStop())
    {
      ghost var entries := MergedRuns.MergeAll(input.runs);
      MergedRuns.MergeAllSorted(input.runs);
      hide *;
      StartsWorking(entries);
      input.SeekToFirst();
      input.InRange();
      while input.current >= 0
        invariant input.Valid() && input.at <= |entries| && Working(entries, input.at)
        invariant input.current >= 0 <==> input.at < |entries|
        decreases |entries| - input.at
      {
        CompactNext(input, entries);
      }
      WorkDone(entries);
      FinishLast();
    }

    /** After the loop the output still open is closed, too. */
    method FinishLast()
      requires WellBuilt()
      modifies this`outputs, this`builder
      ensures Outputs(outputs, firstNumber) && Flatten(outputs) == old(Written())
      ensures RightlyCut(outputs, fileSize, maxOutputFileSize, compaction.MayStop())
    {
      hide Filled, IsTable, Sorted, Flatten;
      ghost var was := outputs;
      if builder != [] {
        FinishOutputFile();
        assert forall i :: 0 <= i < |was| ==> outputs[i] == was[i] && was[i] in was;
      } else {
        assert forall i :: 0 <= i < |was| ==> was[i] in was;
      }
      assert Written() == Flatten(outputs);
    }

    lemma {:induction false} StartsWorking(input: seq<Entry>)
      requires outputs == [] && builder == [] && !hasCurrentUserKey && compaction.AtStart()
      ensures Working(input, 0)
    {
    }

    lemma {:induction false} WorkDone(input: seq<Entry>)
      requires Working(input, |input|)
      ensures WellBuilt() && Written() == Kept(compaction.files, compaction.level, input, |input|, smallestSnapshot)
    {
    }

    lemma {:induction false} BuilderStaysSorted(input: seq<Entry>, i: nat)
      requires Sorted(input) && i < |input| && Sorted(builder)
      requires Written() == Kept(compaction.files, compaction.level, input, i, smallestSnapshot)
      ensures Sorted(builder + [input[i]])
    {
      KeptMembers(compaction.files, compaction.level, input, i, smallestSnapshot);
      forall j | 0 <= j < |builder| ensures Less(builder[j].ikey, input[i].ikey) {
        assert builder[j] in Written();
      }
    }
  }
}
