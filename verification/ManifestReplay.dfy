/** Recovery from the manifest (db/version_set.cc: Recover, WriteSnapshot): the edits of
    any stretch of a run of the store, through one builder, give back the run's files. */
module ManifestReplay {
  import opened InternalKeys
  import opened Versions
  import opened SetupInputs
  import opened CompactionLoop
  import opened LsmState
  import opened LsmInvariants
  import opened LsmRuns
  import opened LevelEdits
  import opened VersionBuilder
  import opened EditReplay
  import DbImpl

  /** What LogAndApply writes to the manifest at a step. */
  function EditOf(a: Action): VersionEdit {
    match a
    case Flush(level, f) => FlushEdit(level, [f])
    case TrivialMove(level, f) => CompactionEdit(level, [f], [], [f])
    case Merge(level, in0, in1, _, outputs) => CompactionEdit(level, in0, in1, outputs)
    case _ => VersionEdit([], [])
  }

  /** The manifest started at state `m`, as it stands at state `n`, as far as level `l` is
      concerned: a snapshot of the files, and the edits since. */
  function Manifest(states: seq<State>, actions: seq<Action>, m: nat, n: nat, l: nat): (r: seq<LevelEdit>)
    requires |states| == |actions| + 1 && m <= n < |states|
    requires |states[m].files| == NUM_LEVELS && l < NUM_LEVELS
    ensures |r| == n - m + 1
    decreases n
  {
    if n == m then [LevelEdit({}, states[m].files[l])]
    else Manifest(states, actions, m, n - 1, l) + [At(EditOf(actions[n - 1]), l)]
  }

  // ----- a step is its edit -----

  lemma {:induction false} SameReplacement(fs: seq<File>, removed: seq<File>, added: seq<File>, a: seq<File>, b: seq<File>)
    requires Replaced(fs, removed, added, a) && Replaced(fs, removed, added, b)
    ensures a == b
  {
    hide SortedBySmallest;
    SortedFilesEqual(a, b);
  }

  lemma {:induction false} FilesFacts(st: State)
    requires Inv(st)
    ensures FilesOk(st) && |st.files| == NUM_LEVELS && LevelsSorted(st.files) && Numbered(st.files, st.nextFile)
  {
    DbImpl.LayersOf(st);
  }

  /** The files an edit makes of the levels. */
  ghost function After(files: seq<seq<File>>, edit: VersionEdit): (r: seq<seq<File>>)
    requires |files| == NUM_LEVELS
    ensures AppliedTo(files, edit, r)
  {
    seq(NUM_LEVELS, l requires 0 <= l < NUM_LEVELS => Saved(files[l], Applied(NO_STATE, At(edit, l))))
  }

  lemma {:induction false} FlushIsEdit(st: State, level: nat, f: File, st': State)
    requires Inv(st) && FlushStep(st, level, f, st')
    ensures After(st.files, FlushEdit(level, [f])) == st'.files
  {
    hide Saved, Applied, At, IsTable, LevelForOutput, Inv, Replaced;
    FilesFacts(st);
    DbImpl.LevelIsShallow(st.files, f, level);
    var files' := After(st.files, FlushEdit(level, [f]));
    FlushReplaces(st.files, st.nextFile, level, f, files');
    SameReplacement(st.files[level], [], [f], files'[level], st'.files[level]);
    assert forall l :: 0 <= l < NUM_LEVELS ==> files'[l] == st'.files[l];
  }

  lemma {:induction false} ExchangeIsEdit(files: seq<seq<File>>, next: nat, level: nat, in0: seq<File>, in1: seq<File>,
      added: seq<File>, files': seq<seq<File>>)
    requires CompactionFiles(files, next, level, in0, in1, added) && Exchanged(files, level, in0, in1, added, files')
    ensures After(files, CompactionEdit(level, in0, in1, added)) == files'
  {
    hide Saved, Applied, At, Replaced;
    var after := After(files, CompactionEdit(level, in0, in1, added));
    CompactionExchanges(files, next, level, in0, in1, added, after);
    SameReplacement(files[level], in0, [], after[level], files'[level]);
    SameReplacement(files[level + 1], in1, added, after[level + 1], files'[level + 1]);
    assert forall l :: 0 <= l < NUM_LEVELS ==> after[l] == files'[l];
  }

  lemma {:induction false} InputsOf(st: State, level: nat, in0: seq<File>, in1: seq<File>)
    requires Inv(st) && ValidInputs(st.files, level, in0, in1)
    ensures CompactionFiles(st.files, st.nextFile, level, in0, in1, [])
  {
    hide Inv, ValidInputs, CompactionFiles;
    FilesFacts(st);
    DbImpl.InputsFiles(st, level, in0, in1);
  }

  lemma {:induction false} MoveIsEdit(st: State, level: nat, f: File, st': State)
    requires Inv(st) && MoveStep(st, level, f, st')
    ensures After(st.files, CompactionEdit(level, [f], [], [f])) == st'.files
    ensures level + 1 < NUM_LEVELS == |st.files| && f in st.files[level]
  {
    hide Inv, CompactionFiles, Exchanged, UpperClosed, Covered;
    InputsOf(st, level, [f], []);
    FilesFacts(st);
    DbImpl.MovedIsThere(st, level, f);
    ExchangeIsEdit(st.files, st.nextFile, level, [f], [], [f], st'.files);
    assert f in [f];
  }

  lemma {:induction false} MergeIsEdit(st: State, level: nat, in0: seq<File>, in1: seq<File>, input: seq<Entry>,
      outputs: seq<File>, st': State)
    requires Inv(st) && MergeStep(st, level, in0, in1, input, outputs, st')
    ensures |st.files| == NUM_LEVELS && After(st.files, CompactionEdit(level, in0, in1, outputs)) == st'.files
    ensures level + 1 < NUM_LEVELS
  {
    hide Inv, CompactionFiles, Exchanged, UpperClosed, Covered, Kept, MergedInput, Outputs, Flatten;
    FilesFacts(st);
    InputsOf(st, level, in0, in1);
    DbImpl.OutputsAreNew(st.files, st.nextFile, level, in0, in1, outputs);
    ExchangeIsEdit(st.files, st.nextFile, level, in0, in1, outputs, st'.files);
  }

  lemma {:induction false} NothingIsEdit(st: State)
    requires Inv(st)
    ensures |st.files| == NUM_LEVELS && After(st.files, VersionEdit([], [])) == st.files
  {
    hide Inv, Saved, Applied, At;
    FilesFacts(st);
    DbImpl.EmptyEdit(st.files);
    NothingChanges(st.files, After(st.files, VersionEdit([], [])));
  }

  /** Every step changes the files as its edit does. */
  lemma {:induction false} StepIsEdit(st: State, a: Action, st': State)
    requires Inv(st) && Step(st, a, st')
    ensures |st.files| == NUM_LEVELS && After(st.files, EditOf(a)) == st'.files
  {
    hide Inv, FlushStep, MoveStep, MergeStep, After;
    FilesFacts(st);
    match a
    case Flush(level, f) => FlushIsEdit(st, level, f, st');
    case TrivialMove(level, f) => MoveIsEdit(st, level, f, st');
    case Merge(level, in0, in1, input, outputs) => MergeIsEdit(st, level, in0, in1, input, outputs, st');
    case _ => NothingIsEdit(st);
  }

  // ----- a version for every edit gives the run's files -----

  lemma {:induction false} SnapshotIsFiles(fs: seq<File>)
    requires SortedBySmallest(fs) && forall f, g :: f in fs && g in fs && f.number == g.number ==> f == g
    ensures Saved([], Applied(NO_STATE, LevelEdit({}, fs))) == fs
  {
    hide Saved, Applied, SortedBySmallest;
    assert SortedBySmallest([]) by { NoFiles(); }
    SavedIsOneEdit([], LevelEdit({}, fs));
    SortedFilesEqual(Saved([], Applied(NO_STATE, LevelEdit({}, fs))), fs);
  }

  lemma {:induction false} LastEdit(edits: seq<LevelEdit>, e: LevelEdit)
    ensures OneByOne([], edits + [e]) == Saved(OneByOne([], edits), Applied(NO_STATE, e))
    ensures OneByOne([], []) == []
  {
    assert (edits + [e])[..|edits|] == edits;
  }

  lemma {:induction false} OneByOneIsRun(states: seq<State>, actions: seq<Action>, m: nat, n: nat, l: nat)
    requires IsStretch(states, actions) && m <= n < |states| && l < NUM_LEVELS
    ensures |states[m].files| == NUM_LEVELS == |states[n].files|
    ensures OneByOne([], Manifest(states, actions, m, n, l)) == states[n].files[l]
    decreases n
  {
    hide Inv, Step, Init, Saved, Applied, At, OneByOne, EditOf;
    StretchKeepsInv(states, actions, m);
    StretchKeepsInv(states, actions, n);
    FilesFacts(states[m]);
    FilesFacts(states[n]);
    if n == m {
      LastEdit([], LevelEdit({}, states[m].files[l]));
      assert [] + [LevelEdit({}, states[m].files[l])] == [LevelEdit({}, states[m].files[l])];
      SnapshotIsFiles(states[m].files[l]);
    } else {
      OneByOneIsRun(states, actions, m, n - 1, l);
      StretchKeepsInv(states, actions, n - 1);
      assert Step(states[n - 1], actions[n - 1], states[n - 1 + 1]);
      StepIsEdit(states[n - 1], actions[n - 1], states[n]);
      LastEdit(Manifest(states, actions, m, n - 1, l), At(EditOf(actions[n - 1]), l));
    }
  }

  // ----- no number is added to a level twice -----

  /** Level `l` has had a file of number `x` since the manifest began. */
  ghost predicate Seen(edits: seq<LevelEdit>, x: nat) {
    exists i :: 0 <= i < |edits| && x in Numbers(edits[i].added)
  }

  lemma {:induction false} SeenMore(edits: seq<LevelEdit>, e: LevelEdit, x: nat)
    ensures Seen(edits + [e], x) <==> Seen(edits, x) || x in Numbers(e.added)
  {
    hide Numbers;
    var all := edits + [e];
    if i :| 0 <= i < |edits| && x in Numbers(edits[i].added) { assert all[i] == edits[i]; }
    if x in Numbers(e.added) { assert all[|edits|] == e; }
  }

  /** What a step does to one file of a level, as the edit has it. */
  ghost predicate Adds(st: State, a: Action, st': State, l: nat, f: File)
    requires |st.files| == NUM_LEVELS == |st'.files| && l < NUM_LEVELS
  {
    && (f in At(EditOf(a), l).added ==> f in st'.files[l] && if a.TrivialMove?
          then 0 < l && l == a.moveLevel + 1 && f in st.files[a.moveLevel] && f == a.moved
          else f.number >= st.nextFile)
    && (f in st'.files[l] ==> f in st.files[l] || f in At(EditOf(a), l).added)
  }

  lemma {:induction false} FlushAdds(st: State, level: nat, g: File, st': State, l: nat, f: File)
    requires FlushStep(st, level, g, st') && l < NUM_LEVELS
    ensures Adds(st, Flush(level, g), st', l, f)
  {
    hide Numbered, SortedBySmallest, IsTable, LevelForOutput, At;
    FlushEditAt(level, [g], l);
  }

  lemma {:induction false} MoveAdds(st: State, level: nat, g: File, st': State, l: nat, f: File)
    requires MoveStep(st, level, g, st') && l < NUM_LEVELS
    ensures Adds(st, TrivialMove(level, g), st', l, f)
  {
    hide Numbered, SortedBySmallest, UpperClosed, Covered, At;
    assert g in [g];
    CompactionEditAt(level, [g], [], [g], l);
  }

  lemma {:induction false} MergeAdds(st: State, level: nat, in0: seq<File>, in1: seq<File>, input: seq<Entry>,
      outputs: seq<File>, st': State, l: nat, f: File)
    requires MergeStep(st, level, in0, in1, input, outputs, st') && l < NUM_LEVELS
    ensures Adds(st, Merge(level, in0, in1, input, outputs), st', l, f)
  {
    hide Numbered, SortedBySmallest, ValidInputs, Kept, MergedInput, Flatten, At;
    CompactionEditAt(level, in0, in1, outputs, l);
    if f in outputs { var i :| 0 <= i < |outputs| && outputs[i] == f; }
  }

  /** The files a step adds have new numbers, or one file moved down. */
  lemma {:induction false} StepAdds(st: State, a: Action, st': State, l: nat, f: File)
    requires Inv(st) && Inv(st') && Step(st, a, st') && l < NUM_LEVELS
    ensures |st.files| == NUM_LEVELS == |st'.files| && Adds(st, a, st', l, f)
  {
    hide Inv, At, Adds, FlushStep, MoveStep, MergeStep, EditOf, FilesOk, LevelsSorted, Numbered;
    FilesFacts(st);
    FilesFacts(st');
    match a
    case Flush(level, g) => FlushAdds(st, level, g, st', l, f);
    case TrivialMove(level, g) => MoveAdds(st, level, g, st', l, f);
    case Merge(level, in0, in1, input, outputs) => MergeAdds(st, level, in0, in1, input, outputs, st', l, f);
    case _ => NothingAdds(st, a, st', l, f);
  }

  lemma {:induction false} NothingAdds(st: State, a: Action, st': State, l: nat, f: File)
    requires !a.Flush? && !a.TrivialMove? && !a.Merge? && Step(st, a, st') && |st.files| == NUM_LEVELS && l < NUM_LEVELS
    ensures |st'.files| == NUM_LEVELS && Adds(st, a, st', l, f)
  {
    NothingAdded(l);
  }

  lemma {:induction false} NothingAdded(l: nat)
    ensures At(VersionEdit([], []), l).added == []
  {
  }

  /** Every number seen at a level is a used one, and a file of that number is at the
      level or further down. */
  ghost predicate OnlyDown(st: State, edits: seq<LevelEdit>, l: nat) {
    forall x: nat :: Seen(edits, x) ==>
      x < st.nextFile && forall k, g :: l > k >= 0 && k < |st.files| && g in st.files[k] ==> g.number != x
  }

  lemma {:induction false} StartsDown(st: State, l: nat)
    requires Inv(st) && l < NUM_LEVELS == |st.files|
    ensures OnlyDown(st, [LevelEdit({}, st.files[l])], l)
  {
    hide Inv;
    FilesFacts(st);
    hide Layered, SortedBySmallest;
    var edits := [LevelEdit({}, st.files[l])];
    forall x: nat | Seen(edits, x) ensures exists f :: f in st.files[l] && f.number == x {
      assert edits[0].added == st.files[l];
    }
  }

  lemma {:induction false} NewIsUnseen(st: State, a: Action, st': State, edits: seq<LevelEdit>, l: nat, x: nat)
    requires Inv(st) && Inv(st') && Step(st, a, st') && l < NUM_LEVELS && OnlyDown(st, edits, l)
    requires x in Numbers(At(EditOf(a), l).added)
    ensures !Seen(edits, x) && |st'.files| == NUM_LEVELS && exists f :: f in st'.files[l] && f.number == x
  {
    hide Inv, Step, At, EditOf, Seen;
    FilesFacts(st);
    var f :| f in At(EditOf(a), l).added && f.number == x;
    StepAdds(st, a, st', l, f);
  }

  lemma {:induction false} StaysDownAt(st: State, a: Action, st': State, edits: seq<LevelEdit>, l: nat, x: nat, k: nat,
      g: File)
    requires Inv(st) && Inv(st') && Step(st, a, st') && k < l < NUM_LEVELS && OnlyDown(st, edits, l)
    requires Seen(edits, x) && |st'.files| == NUM_LEVELS && g in st'.files[k]
    ensures g.number != x
  {
    hide Inv, Step, At, EditOf, Seen, LevelsSorted, FilesOk;
    FilesFacts(st);
    StepAdds(st, a, st', k, g);
  }

  lemma {:induction false} StaysDown(st: State, a: Action, st': State, edits: seq<LevelEdit>, l: nat)
    requires Inv(st) && Inv(st') && Step(st, a, st') && l < NUM_LEVELS && OnlyDown(st, edits, l)
    ensures OnlyDown(st', edits + [At(EditOf(a), l)], l)
    ensures forall x :: x in Numbers(At(EditOf(a), l).added) ==> !Seen(edits, x)
  {
    hide Inv, Step, At, EditOf, Seen, LevelsSorted, FilesOk, Numbers;
    FilesFacts(st');
    StepGrowsNumbers(st, a, st');
    var e := At(EditOf(a), l);
    forall x | x in Numbers(e.added) ensures !Seen(edits, x) { NewIsUnseen(st, a, st', edits, l, x); }
    forall x: nat | Seen(edits + [e], x)
      ensures x < st'.nextFile && forall k, g :: l > k >= 0 && k < |st'.files| && g in st'.files[k] ==> g.number != x
    {
      SeenMore(edits, e, x);
      if x in Numbers(e.added) {
        NewIsUnseen(st, a, st', edits, l, x);
      } else {
        forall k, g | l > k >= 0 && k < |st'.files| && g in st'.files[k] ensures g.number != x {
          StaysDownAt(st, a, st', edits, l, x, k, g);
        }
      }
    }
  }

  lemma {:induction false} StepGrowsNumbers(st: State, a: Action, st': State)
    requires Step(st, a, st')
    ensures st.nextFile <= st'.nextFile
  {
    hide Exchanged, ValidInputs, Replaced, LevelForOutput, MergedInput, Kept, Outputs;
  }

  lemma {:induction false} RunStaysDown(states: seq<State>, actions: seq<Action>, m: nat, n: nat, l: nat)
    requires IsStretch(states, actions) && m <= n < |states| && l < NUM_LEVELS && |states[m].files| == NUM_LEVELS
    ensures OnlyDown(states[n], Manifest(states, actions, m, n, l), l)
    ensures NeverReadded([], Manifest(states, actions, m, n, l))
    decreases n
  {
    hide Inv, Step, Init, At, EditOf, OnlyDown, Numbers;
    StretchKeepsInv(states, actions, n);
    if n == m {
      StartsDown(states[m], l);
    } else {
      RunStaysDown(states, actions, m, n - 1, l);
      StretchKeepsInv(states, actions, n - 1);
      assert Step(states[n - 1], actions[n - 1], states[n - 1 + 1]);
      var edits := Manifest(states, actions, m, n - 1, l);
      StaysDown(states[n - 1], actions[n - 1], states[n], edits, l);
      NeverOnceMore(edits, At(EditOf(actions[n - 1]), l));
    }
  }

  lemma {:induction false} NeverOnceMore(edits: seq<LevelEdit>, e: LevelEdit)
    requires NeverReadded([], edits) && forall x :: x in Numbers(e.added) ==> !Seen(edits, x)
    ensures NeverReadded([], edits + [e])
  {
    hide Numbers;
    var all := edits + [e];
    forall i, j, m: nat | 0 <= i < j < |all| && m in Numbers(all[i].added) ensures m !in Numbers(all[j].added) {
      if j == |edits| { assert Seen(edits, m); }
    }
  }

  // ----- recovery -----

  lemma {:induction false} ManifestPrefix(states: seq<State>, actions: seq<Action>, m: nat, n: nat, l: nat, i: nat)
    requires |states| == |actions| + 1 && m <= n < |states| && |states[m].files| == NUM_LEVELS && l < NUM_LEVELS
    requires 0 < i <= n - m + 1
    ensures Manifest(states, actions, m, n, l)[..i] == Manifest(states, actions, m, m + i - 1, l)
    decreases n
  {
    if i <= n - m {
      ManifestPrefix(states, actions, m, n - 1, l, i);
      assert Manifest(states, actions, m, n, l)[..i] == Manifest(states, actions, m, n - 1, l)[..i];
    } else {
      assert Manifest(states, actions, m, n, l)[..i] == Manifest(states, actions, m, n, l);
    }
  }

  /** Reading a manifest back: for every stretch of a run, every state at which a manifest
      was begun and every later state, one builder fed the snapshot and the edits since saves
      exactly the files of that state, on every level. */
  lemma {:induction false} RecoveryRebuilds(states: seq<State>, actions: seq<Action>, m: nat, n: nat, l: nat)
    requires IsStretch(states, actions) && m <= n < |states| && l < NUM_LEVELS
    ensures |states[m].files| == NUM_LEVELS == |states[n].files|
    ensures Saved([], Gathered(Manifest(states, actions, m, n, l))) == states[n].files[l]
  {
    hide Inv, Step, Init, Saved, Gathered, OneByOne, Manifest, ReplaysRight, NeverReadded, OnlyDown, SortedBySmallest;
    OneByOneIsRun(states, actions, m, n, l);
    RunStaysDown(states, actions, m, n, l);
    var edits := Manifest(states, actions, m, n, l);
    NeverReaddedReplays([], edits);
    forall i | 0 <= i <= |edits| ensures SortedBySmallest(OneByOne([], edits[..i])) {
      if i == 0 {
        NoVersion([], edits);
        NoFiles();
      } else {
        ManifestPrefix(states, actions, m, n, l, i);
        OneByOneIsRun(states, actions, m, m + i - 1, l);
        StretchKeepsInv(states, actions, m + i - 1);
        FilesFacts(states[m + i - 1]);
      }
    }
    OneBuilderForAll([], edits);
  }
}
