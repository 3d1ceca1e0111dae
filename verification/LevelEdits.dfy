/** The edits DBImpl hands to LogAndApply, and what they make of the levels
    (db/db_impl.cc: InstallCompactionResults, CompactMemTable,
    BackgroundCompaction; db/version_set.cc: LogAndApply). */
module LevelEdits {
  import opened InternalKeys
  import opened Versions
  import opened CompactionLoop
  import opened LsmState
  import opened VersionBuilder

  function Deletions(level: nat, fs: seq<File>): seq<(nat, nat)> {
    seq(|fs|, i requires 0 <= i < |fs| => (level, fs[i].number))
  }

  function Additions(level: nat, fs: seq<File>): seq<(nat, File)> {
    seq(|fs|, i requires 0 <= i < |fs| => (level, fs[i]))
  }

  /** AddInputDeletions, and the files the compaction adds one level down. */
  function CompactionEdit(level: nat, in0: seq<File>, in1: seq<File>, added: seq<File>): VersionEdit {
    VersionEdit(Deletions(level, in0) + Deletions(level + 1, in1), Additions(level + 1, added))
  }

  function FlushEdit(level: nat, added: seq<File>): VersionEdit {
    VersionEdit([], Additions(level, added))
  }

  /** A level's share of an edit: these files out, those in. */
  ghost predicate EditIs(edit: LevelEdit, removed: seq<File>, added: seq<File>) {
    && (forall n :: n in edit.deleted <==> exists f :: f in removed && f.number == n)
    && (forall f :: f in edit.added <==> f in added)
  }

  function Removed(level: nat, in0: seq<File>, in1: seq<File>, l: nat): seq<File> {
    if l == level then in0 else if l == level + 1 then in1 else []
  }

  lemma {:induction false} DeletionsAt(level: nat, fs: seq<File>, n: nat)
    ensures (level, n) in Deletions(level, fs) <==> exists f :: f in fs && f.number == n
    ensures forall p :: p in Deletions(level, fs) ==> p.0 == level
  {
    var d := Deletions(level, fs);
    if f :| f in fs && f.number == n {
      var i :| 0 <= i < |fs| && fs[i] == f;
      assert d[i] == (level, n);
    }
    if (level, n) in d {
      var i :| 0 <= i < |d| && d[i] == (level, n);
      assert fs[i] in fs;
    }
  }

  lemma {:induction false} AdditionsAt(level: nat, fs: seq<File>, l: nat, f: File)
    ensures f in FilesAt(Additions(level, fs), l) <==> l == level && f in fs
  {
    var a := Additions(level, fs);
    if l == level && f in fs {
      var i :| 0 <= i < |fs| && fs[i] == f;
      assert a[i] == (level, f);
    }
  }

  lemma {:induction false} CompactionEditAt(level: nat, in0: seq<File>, in1: seq<File>, added: seq<File>, l: nat)
    ensures EditIs(At(CompactionEdit(level, in0, in1, added), l), Removed(level, in0, in1, l), if l == level + 1 then added else [])
  {
    var edit := CompactionEdit(level, in0, in1, added);
    var removed := Removed(level, in0, in1, l);
    forall n: nat ensures (l, n) in edit.deleted <==> exists f :: f in removed && f.number == n {
      DeletionsAt(level, in0, n);
      DeletionsAt(level + 1, in1, n);
    }
    forall n ensures n in At(edit, l).deleted <==> exists f :: f in removed && f.number == n {
      if n in At(edit, l).deleted { assert (l, n) in edit.deleted; }
      if f :| f in removed && f.number == n { assert (l, f.number) in edit.deleted; }
    }
    forall f ensures f in At(edit, l).added <==> l == level + 1 && f in added {
      AdditionsAt(level + 1, added, l, f);
    }
  }

  lemma {:induction false} FlushEditAt(level: nat, added: seq<File>, l: nat)
    ensures EditIs(At(FlushEdit(level, added), l), [], if l == level then added else [])
  {
    forall f ensures f in At(FlushEdit(level, added), l).added <==> l == level && f in added {
      AdditionsAt(level, added, l, f);
    }
  }

  /** One edit on one level, when numbers identify files and the new ones are new. */
  lemma {:induction false} EditReplaces(fs: seq<File>, edit: LevelEdit, removed: seq<File>, added: seq<File>,
      fs': seq<File>)
    requires OneEdit(fs, edit, fs') && EditIs(edit, removed, added)
    requires forall f, g :: f in fs && g in removed && f.number == g.number ==> f == g
    requires forall f, g :: (f in fs || f in removed) && g in added ==> f.number != g.number
    ensures Replaced(fs, removed, added, fs')
  {
    assert forall f :: f in fs || f in removed ==> f.number !in Numbers(edit.added);
    assert forall f :: f in added ==> f.number in Numbers(edit.added);
  }

  lemma {:induction false} EditLeavesAlone(fs: seq<File>, edit: LevelEdit, fs': seq<File>)
    requires SortedBySmallest(fs) && OneEdit(fs, edit, fs') && EditIs(edit, [], [])
    ensures fs' == fs
  {
    if |edit.added| > 0 { HasMember(edit.added); }
    assert edit.deleted == {};
    SortedFilesEqual(fs, fs');
  }

  /** No file of the edit has the number of a file already on its level. */
  ghost predicate NewNumbers(files: seq<seq<File>>, edit: VersionEdit)
    requires |files| == NUM_LEVELS
  {
    && (forall l, f, g :: 0 <= l < NUM_LEVELS && f in files[l] && g in At(edit, l).added ==> f.number != g.number)
    && (forall l, f, g :: 0 <= l < NUM_LEVELS && f in At(edit, l).added && g in At(edit, l).added && f.number == g.number ==> f == g)
  }

  ghost predicate LevelsSorted(files: seq<seq<File>>)
    requires |files| == NUM_LEVELS
  {
    forall l :: 0 <= l < NUM_LEVELS ==> SortedBySmallest(files[l])
  }

  /** LogAndApply: one edit applied to the current version. */
  ghost predicate AppliedTo(files: seq<seq<File>>, edit: VersionEdit, files': seq<seq<File>>) {
    && |files| == NUM_LEVELS == |files'|
    && forall l :: 0 <= l < NUM_LEVELS ==> files'[l] == Saved(files[l], Applied(NO_STATE, At(edit, l)))
  }

  method ApplyEdit(files: seq<seq<File>>, edit: VersionEdit) returns (files': seq<seq<File>>)
    requires |files| == NUM_LEVELS && LevelsSorted(files) && OnLevels(edit)
    ensures AppliedTo(files, edit, files')
  {
    hide SortedBySmallest;
    var builder := new Builder(files);
    builder.Apply(edit);
    files' := builder.SaveTo();
  }

  /** What one edit makes of a level when numbers identify files. */
  ghost predicate OneEdit(fs: seq<File>, edit: LevelEdit, fs': seq<File>) {
    SortedBySmallest(fs') &&
    forall f :: f in fs' <==> (f in fs || f in edit.added) && f.number !in edit.deleted - Numbers(edit.added)
  }

  ghost predicate NewOnLevel(fs: seq<File>, edit: LevelEdit) {
    && (forall f, g :: f in fs && g in edit.added ==> f.number != g.number)
    && (forall f, g :: f in edit.added && g in edit.added && f.number == g.number ==> f == g)
  }

  lemma {:induction false} SavedIsOneEdit(fs: seq<File>, edit: LevelEdit)
    requires SortedBySmallest(fs) && NewOnLevel(fs, edit)
    ensures OneEdit(fs, edit, Saved(fs, Applied(NO_STATE, edit)))
  {
    hide SortedBySmallest, Saved, InsertAll;
    assert SortedBySmallest(NO_STATE.added) by { NoFiles(); }
    var state := Applied(NO_STATE, edit);
    AllInserted(edit.added);
    SavedInOrder(fs, state);
    forall f | f in fs || f in edit.added
      ensures f.number in state.deleted <==> f.number in edit.deleted - Numbers(edit.added)
    {
    }
  }

  lemma {:induction false} NoFiles()
    ensures SortedBySmallest([])
  {
  }

  lemma {:induction false} AllInserted(added: seq<File>)
    requires forall f, g :: f in added && g in added && f.number == g.number ==> f == g
    ensures forall f :: f in InsertAll([], added) <==> f in added
  {
    hide SortedBySmallest, InsertBySmallest;
    NoFiles();
    if |added| > 0 {
      var n := |added| - 1;
      assert added == added[..n] + [added[n]];
      AllInserted(added[..n]);
    }
  }

  lemma {:induction false} EditAtLevel(files: seq<seq<File>>, edit: VersionEdit, files': seq<seq<File>>, l: nat)
    requires |files| == NUM_LEVELS && LevelsSorted(files) && NewNumbers(files, edit) && AppliedTo(files, edit, files')
    requires l < NUM_LEVELS
    ensures OneEdit(files[l], At(edit, l), files'[l])
  {
    hide OneEdit, Saved, Applied, SortedBySmallest;
    SavedIsOneEdit(files[l], At(edit, l));
  }

  /** What the edit of a compaction must satisfy: its inputs are files of their
      levels, its outputs have new numbers (or are inputs moved down). */
  ghost predicate CompactionFiles(files: seq<seq<File>>, next: nat, level: nat, in0: seq<File>, in1: seq<File>, added: seq<File>) {
    && |files| == NUM_LEVELS && level + 1 < NUM_LEVELS
    && Numbered(files, next) && LevelsSorted(files)
    && (forall f :: f in in0 ==> f in files[level]) && (forall f :: f in in1 ==> f in files[level + 1])
    && (forall g :: g in added ==> g in files[level] || g.number >= next)
    && (forall f, g :: f in added && g in added && f.number == g.number ==> f == g)
  }

  lemma {:induction false} CompactionIsNew(files: seq<seq<File>>, next: nat, level: nat, in0: seq<File>,
      in1: seq<File>, added: seq<File>)
    requires CompactionFiles(files, next, level, in0, in1, added)
    ensures OnLevels(CompactionEdit(level, in0, in1, added))
    ensures NewNumbers(files, CompactionEdit(level, in0, in1, added))
  {
    var edit := CompactionEdit(level, in0, in1, added);
    forall l | 0 <= l < NUM_LEVELS ensures forall g :: g in At(edit, l).added <==> l == level + 1 && g in added {
      CompactionEditAt(level, in0, in1, added, l);
    }
  }

  lemma {:induction false} CompactionExchanges(files: seq<seq<File>>, next: nat, level: nat, in0: seq<File>, in1: seq<File>,
                                               added: seq<File>, files': seq<seq<File>>)
    requires CompactionFiles(files, next, level, in0, in1, added)
    requires AppliedTo(files, CompactionEdit(level, in0, in1, added), files')
    ensures Exchanged(files, level, in0, in1, added, files')
  {
    hide Saved, Applied, OneEdit, EditIs, Replaced, At, SortedBySmallest, NewNumbers;
    var edit := CompactionEdit(level, in0, in1, added);
    CompactionIsNew(files, next, level, in0, in1, added);
    forall l | 0 <= l < NUM_LEVELS
      ensures if l == level || l == level + 1 then Replaced(files[l], Removed(level, in0, in1, l), if l == level + 1 then added else [], files'[l])
              else files'[l] == files[l]
    {
      CompactionEditAt(level, in0, in1, added, l);
      EditAtLevel(files, edit, files', l);
      if l == level || l == level + 1 {
        EditReplaces(files[l], At(edit, l), Removed(level, in0, in1, l), if l == level + 1 then added else [], files'[l]);
      } else {
        EditLeavesAlone(files[l], At(edit, l), files'[l]);
      }
    }
  }

  lemma {:induction false} FlushIsNew(files: seq<seq<File>>, next: nat, level: nat, f: File)
    requires |files| == NUM_LEVELS && level < NUM_LEVELS && Numbered(files, next) && f.number >= next
    ensures OnLevels(FlushEdit(level, [f])) && NewNumbers(files, FlushEdit(level, [f]))
  {
    forall l | 0 <= l < NUM_LEVELS ensures forall g :: g in At(FlushEdit(level, [f]), l).added <==> l == level && g == f {
      FlushEditAt(level, [f], l);
    }
  }

  lemma {:induction false} FlushReplaces(files: seq<seq<File>>, next: nat, level: nat, f: File, files': seq<seq<File>>)
    requires |files| == NUM_LEVELS && level < NUM_LEVELS && Numbered(files, next) && f.number >= next
    requires LevelsSorted(files)
    requires AppliedTo(files, FlushEdit(level, [f]), files')
    ensures |files'| == NUM_LEVELS && Replaced(files[level], [], [f], files'[level])
    ensures forall l :: 0 <= l < NUM_LEVELS && l != level ==> files'[l] == files[l]
  {
    hide Saved, Applied, OneEdit, EditIs, Replaced, At, SortedBySmallest, NewNumbers;
    var edit := FlushEdit(level, [f]);
    FlushIsNew(files, next, level, f);
    forall l | 0 <= l < NUM_LEVELS
      ensures if l == level then Replaced(files[l], [], [f], files'[l]) else files'[l] == files[l]
    {
      FlushEditAt(level, [f], l);
      EditAtLevel(files, edit, files', l);
      if l == level {
        EditReplaces(files[l], At(edit, l), [], [f], files'[l]);
      } else {
        EditLeavesAlone(files[l], At(edit, l), files'[l]);
      }
    }
  }

  lemma {:induction false} NothingChanges(files: seq<seq<File>>, files': seq<seq<File>>)
    requires |files| == NUM_LEVELS && LevelsSorted(files) && AppliedTo(files, VersionEdit([], []), files')
    ensures files' == files
  {
    forall l | 0 <= l < NUM_LEVELS ensures files'[l] == files[l] {
      EditAtLevel(files, VersionEdit([], []), files', l);
      EditLeavesAlone(files[l], At(VersionEdit([], []), l), files'[l]);
    }
  }
}
