/** The condition under which a merge revives a key, read off the file boundaries. */
module BoundaryReads {
  import opened InternalKeys
  import opened Versions
  import opened CompactionInputs
  import opened SetupInputs
  import opened CompactionLoop
  import opened LsmState
  import opened LsmInvariants
  import opened LsmReads
  import opened LsmRuns

  /** The lower inputs end inside the versions of a user key whose newest visible one is a
      deletion marker among them with nothing below, and `g`, the first of the boundary
      files that AddBoundaryInputs would add to them, starts with a value. */
  ghost predicate CutOff(st: State, level: nat, in1: seq<File>, d: Entry, g: File)
    requires |in1| > 0 && level + 1 < |st.files|
  {
    && d in LevelEntries(in1) && d.ikey.user == LargestKey(in1).user
    && NewestAt(Stored(st), d.ikey.user, SmallestSnapshot(st), d)
    && d.ikey.kind.TypeDeletion? && BaseLevel(st.files, level, d.ikey.user)
    && SmallestBoundary(st.files[level + 1], LargestKey(in1), g) && g.smallest.kind.TypeValue?
  }

  ghost predicate CutsOff(st: State, level: nat, in1: seq<File>) {
    && |in1| > 0 && level + 1 < |st.files|
    && exists d, g :: CutOff(st, level, in1, d, g)
  }

  /** An entry of a lower input comes before every entry of a boundary file. */
  lemma {:induction false} BoundaryIsOlder(in1: seq<File>, d: Entry, g: File, x: Entry)
    requires |in1| > 0 && AllTables(in1) && IsTable(g) && d in LevelEntries(in1) && IsBoundary(g, LargestKey(in1))
    requires d.ikey.user == LargestKey(in1).user && x in g.entries && x.ikey.user == d.ikey.user
    ensures x.ikey.sequence <= d.ikey.sequence && g !in in1
  {
    var f :| f in in1 && d in f.entries;
    WithinFile(f, d);
    WithinFile(g, x);
    HullBounds(in1, f);
    if g in in1 { HullBounds(in1, g); }
  }

  lemma {:induction false} LowerTables(files: seq<seq<File>>, level: nat, in0: seq<File>, in1: seq<File>)
    requires Layered(files) && ValidInputs(files, level, in0, in1)
    ensures AllTables(in1)
  {
    hide IsTable, UpperClosed, LevelSorted;
    LowerInputs(files, level, in0, in1);
  }

  lemma {:induction false} NotRead(files: seq<seq<File>>, level: nat, in0: seq<File>, in1: seq<File>, g: File, e: Entry)
    requires Layered(files) && ValidInputs(files, level, in0, in1)
    requires g in files[level + 1] && g !in in1 && e in g.entries
    ensures e in FileEntries(files) && e !in InputEntries(in0, in1)
  {
    hide Layered, Covered, UpperClosed;
    UpperNotShared(files, level, in0, in1, level + 1, g, e);
    LowerInputs(files, level, in0, in1);
    LowerNotShared(files, level, in0, in1, level + 1, g, e);
    LevelMembers(files[level + 1], g, e);
    FileMembers(files, level + 1, e);
  }

  /** The first entry of a boundary file is older than `d`, and the merge leaves it. */
  lemma {:induction false} FirstOfBoundary(st: State, level: nat, in0: seq<File>, in1: seq<File>, d: Entry, g: File)
    requires Inv(st) && ValidInputs(st.files, level, in0, in1) && |in1| > 0
    requires d in LevelEntries(in1) && d.ikey.user == LargestKey(in1).user
    requires g in st.files[level + 1] && IsBoundary(g, LargestKey(in1))
    ensures IsTable(g) && g.entries[0] in Stored(st) - InputEntries(in0, in1)
    ensures g.entries[0].ikey.user == d.ikey.user && g.entries[0].ikey.sequence <= d.ikey.sequence
  {
    hide Inv, Layered, ValidInputs, FilesOk, TablesInOrder, LevelEntries, FileEntries, InputEntries;
    InvParts(st);
    LowerLevelParts(st.files, level, in0, in1);
    assert IsTable(g);
    LowerTables(st.files, level, in0, in1);
    BoundaryIsOlder(in1, d, g, g.entries[0]);
    NotRead(st.files, level, in0, in1, g, g.entries[0]);
  }

  /** Every older version of the key that the merge leaves is in a boundary file. */
  lemma {:induction false} OlderAfterBoundary(st: State, level: nat, in0: seq<File>, in1: seq<File>, d: Entry, x: Entry,
      g: File)
    requires Inv(st) && ValidInputs(st.files, level, in0, in1) && |in1| > 0
    requires d in LevelEntries(in1) && x in Stored(st) - InputEntries(in0, in1) && OlderAtBase(st.files, level, d, x)
    requires SmallestBoundary(st.files[level + 1], LargestKey(in1), g)
    ensures d.ikey.user == LargestKey(in1).user && !Less(x.ikey, g.smallest)
  {
    hide Inv, Layered, ValidInputs, FilesOk, TablesInOrder, LevelEntries, FileEntries, InputEntries, Stored, BaseLevel,
         Covered;
    InvParts(st);
    FilesUnique(st);
    LowerLevelParts(st.files, level, in0, in1);
    assert d in InputEntries(in0, in1) by { LowerIsInput(in0, in1, d); }
    InputsAreStored(st.files, level, in0, in1, d);
    var l, h := OlderIsInFiles(st, d, x);
    OlderLeftBehind(st.files, level, in0, in1, d, x, l, h);
    assert h !in in1 by { if h in in1 { LevelMembers(in1, h, x); LowerIsInput(in0, in1, x); } }
    var f := FileOf(in1, d);
    BoundaryToTheRight(st.files[level + 1], in0, f, h, d, x);
    assert IsTable(h);
    WithinFile(h, x);
    EndsWithKey(st.files, level, in0, in1, f, d, h, x);
  }

  lemma {:induction false} FileOf(fs: seq<File>, e: Entry) returns (f: File)
    requires e in LevelEntries(fs)
    ensures f in fs && e in f.entries
  {
    f :| f in fs && e in f.entries;
  }

  lemma {:induction false} LowerIsInput(in0: seq<File>, in1: seq<File>, e: Entry)
    requires e in LevelEntries(in1)
    ensures e in InputEntries(in0, in1)
  {
  }

  lemma {:induction false} EndsWithKey(files: seq<seq<File>>, level: nat, in0: seq<File>, in1: seq<File>, f: File,
      d: Entry, h: File, x: Entry)
    requires Layered(files) && ValidInputs(files, level, in0, in1) && |in1| > 0
    requires f in in1 && d in f.entries && IsTable(h) && x in h.entries && x.ikey.user == d.ikey.user
    requires IsBoundary(h, LargestKey(in1))
    ensures d.ikey.user == LargestKey(in1).user
  {
    hide Layered, ValidInputs;
    LowerTables(files, level, in0, in1);
    WithinFile(f, d);
    WithinFile(h, x);
    HullBounds(in1, f);
  }

  lemma {:induction false} CutOffRevives(st: State, level: nat, in0: seq<File>, in1: seq<File>, d: Entry, g: File)
    requires Inv(st) && ValidInputs(st.files, level, in0, in1) && |in1| > 0 && CutOff(st, level, in1, d, g)
    ensures ResurrectsKey(st, level, in0, in1, d.ikey.user)
  {
    hide Inv, ValidInputs, Stored, BaseLevel, LevelEntries, InputEntries;
    FirstOfBoundary(st, level, in0, in1, d, g);
    var r, k, s := g.entries[0], d.ikey.user, SmallestSnapshot(st);
    FilesUnique(st);
    forall x | x in Stored(st) - InputEntries(in0, in1) && x.ikey.user == k && x.ikey.sequence <= s
      ensures x.ikey.sequence <= r.ikey.sequence
    {
      LowerIsInput(in0, in1, d);
      assert x.ikey.sequence < d.ikey.sequence;
      OlderAfterBoundary(st, level, in0, in1, d, x, g);
    }
    assert NewestAt(Stored(st) - InputEntries(in0, in1), k, s, r);
  }

  lemma {:induction false} RevivedIsCutOff(st: State, level: nat, in0: seq<File>, in1: seq<File>, k: UserKey)
    requires Inv(st) && ValidInputs(st.files, level, in0, in1) && ResurrectsKey(st, level, in0, in1, k)
    ensures CutsOff(st, level, in1)
  {
    hide Inv, ValidInputs, Stored, BaseLevel, LevelEntries, InputEntries, BoundaryClosed, Layered;
    InvParts(st);
    LowerLevelParts(st.files, level, in0, in1);
    var s := SmallestSnapshot(st);
    var d, r :| NewestAt(Stored(st), k, s, d) && d in LevelEntries(in1)
      && d.ikey.kind.TypeDeletion? && BaseLevel(st.files, level, k)
      && NewestAt(Stored(st) - InputEntries(in0, in1), k, s, r) && r.ikey.kind.TypeValue?;
    ResurrectionNeedsBoundary(st, level, in0, in1, k);
    FilesUnique(st);
    OlderThanNewest(Stored(st), k, s, d, r);
    var g := FirstBoundary(st, level, in0, in1);
    OlderAfterBoundary(st, level, in0, in1, d, r, g);
    FirstOfBoundary(st, level, in0, in1, d, g);
    SameEntry(st, r, g);
    assert CutOff(st, level, in1, d, g);
  }

  lemma {:induction false} SameEntry(st: State, r: Entry, g: File)
    requires UniqueSeqs(Stored(st)) && IsTable(g) && r in Stored(st) && g.entries[0] in Stored(st)
    requires r.ikey.user == g.entries[0].ikey.user && !Less(r.ikey, g.smallest)
    requires g.entries[0].ikey.sequence <= r.ikey.sequence
    ensures g.entries[0] == r
  {
    hide Stored, Sorted;
  }

  lemma {:induction false} FirstBoundary(st: State, level: nat, in0: seq<File>, in1: seq<File>) returns (g: File)
    requires ValidInputs(st.files, level, in0, in1)
    requires |in1| > 0 && !BoundaryClosed(st.files[level + 1], in1)
    ensures SmallestBoundary(st.files[level + 1], LargestKey(in1), g)
  {
    g := SmallestOf(st.files[level + 1], LargestKey(in1));
  }

  lemma {:induction false} SmallestOf(fs: seq<File>, key: InternalKey) returns (g: File)
    requires exists f :: f in fs && IsBoundary(f, key)
    ensures SmallestBoundary(fs, key, g)
  {
    var n := |fs| - 1;
    assert fs == fs[..n] + [fs[n]];
    if exists f :: f in fs[..n] && IsBoundary(f, key) {
      g := SmallestOf(fs[..n], key);
      if IsBoundary(fs[n], key) && Less(fs[n].smallest, g.smallest) { g := fs[n]; }
    } else {
      g := fs[n];
    }
  }

  /** A merge revives some key exactly when its lower inputs cut one off: of all stored
      keys only the last one that they hold needs looking at. */
  lemma {:induction false} ResurrectsAtBoundary(st: State, level: nat, in0: seq<File>, in1: seq<File>)
    requires Inv(st) && ValidInputs(st.files, level, in0, in1)
    ensures Resurrects(st, level, in0, in1) <==> CutsOff(st, level, in1)
  {
    hide Inv, ValidInputs, ResurrectsKey, CutOff;
    if CutsOff(st, level, in1) {
      var d, g :| CutOff(st, level, in1, d, g);
      CutOffRevives(st, level, in0, in1, d, g);
    }
    if Resurrects(st, level, in0, in1) {
      var k :| ResurrectsKey(st, level, in0, in1, k);
      RevivedIsCutOff(st, level, in0, in1, k);
    }
  }

  /** Every read at every live snapshot agrees with the flat history in every state of a
      run if and only if no merge of the run cuts off a deleted key. */
  lemma {:induction false} RunsReadRightAtBoundaries(states: seq<State>, actions: seq<Action>)
    requires IsRun(states, actions)
    ensures (forall n :: 0 <= n < |states| ==> ReadsOk(states[n])) <==>
            (forall i :: 0 <= i < |actions| && actions[i].Merge? ==> !CutsOff(states[i], actions[i].mergeLevel, actions[i].in1))
  {
    hide Inv, ReadsOk, CutsOff, Resurrects, Init, ValidInputs, Exchanged, WriteStep, FlushStep, MoveStep, Kept, MergedInput;
    RunsReadRight(states, actions);
    forall i | 0 <= i < |actions| && actions[i].Merge?
      ensures Faithful(states[i], actions[i]) <==> !CutsOff(states[i], actions[i].mergeLevel, actions[i].in1)
    {
      RunKeepsInv(states, actions, i);
      assert Step(states[i], actions[i], states[i + 1]);
      ResurrectsAtBoundary(states[i], actions[i].mergeLevel, actions[i].in0, actions[i].in1);
    }
  }
}
