/** Which steps keep every live snapshot readable, exactly. */
module LsmReads {
  import opened InternalKeys
  import opened FlatHistory
  import opened Versions
  import opened CompactionInputs
  import opened SetupInputs
  import opened CompactionLoop
  import opened LsmState
  import opened LsmInvariants

  // ----- the drop rules on one user key -----

  /** In a sorted run an entry after a visible one of its user key is hidden. */
  lemma {:induction false} OlderIsHidden(input: seq<Entry>, i: nat, j: nat, smallest: nat)
    requires Sorted(input) && i < j < |input| && input[i].ikey.user == input[j].ikey.user
    requires input[i].ikey.sequence <= smallest
    ensures Hidden(input, j, smallest)
  {
    if i < j - 1 {
      assert Less(input[i].ikey, input[j - 1].ikey);
    }
    assert Less(input[j - 1].ikey, input[j].ikey);
  }

  /** A hidden entry is never the newest at a live snapshot. */
  lemma {:induction false} HiddenIsNotNewest(S: iset<Entry>, input: seq<Entry>, j: nat, smallest: nat, k: UserKey,
      s: nat)
    requires Sorted(input) && j < |input| && Hidden(input, j, smallest) && smallest <= s
    requires UniqueSeqs(S) && RunEntries(input) <= S
    ensures !NewestAt(S, k, s, input[j])
  {
    assert input[j - 1] in RunEntries(input) && input[j] in RunEntries(input);
    assert Less(input[j - 1].ikey, input[j].ikey);
  }

  /** Of the entries dropped, only an obsolete deletion marker can be the newest. */
  lemma {:induction false} DroppedNewest(files: seq<seq<File>>, level: nat, S: iset<Entry>, input: seq<Entry>, smallest: nat,
                                         k: UserKey, s: nat, e: Entry)
    requires Sorted(input) && smallest <= s && UniqueSeqs(S) && RunEntries(input) <= S
    requires NewestAt(S, k, s, e) && e in input && e !in Kept(files, level, input, |input|, smallest)
    ensures Obsolete(files, level, e, smallest)
  {
    KeptMembers(files, level, input, |input|, smallest);
    var j :| 0 <= j < |input| && input[j] == e;
    if Hidden(input, j, smallest) {
      HiddenIsNotNewest(S, input, j, smallest, k, s);
    }
  }

  /** Below the newest visible entry of a key the loop keeps nothing. */
  lemma {:induction false} NothingKeptBelow(files: seq<seq<File>>, level: nat, input: seq<Entry>, smallest: nat,
      d: Entry, x: Entry)
    requires Sorted(input) && d in input && d.ikey.sequence <= smallest
    requires x in Kept(files, level, input, |input|, smallest) && x.ikey.user == d.ikey.user
    ensures x == d || x.ikey.sequence >= d.ikey.sequence
  {
    KeptMembers(files, level, input, |input|, smallest);
    var i :| 0 <= i < |input| && input[i] == d;
    var j :| 0 <= j < |input| && input[j] == x && !Dropped(files, level, input, j, smallest);
    if i < j {
      OlderIsHidden(input, i, j, smallest);
    } else if j < i {
      assert Less(x.ikey, d.ikey);
    }
  }

  // ----- when a merge brings a deleted key back -----

  /** The newest visible entry of `k` is a deletion marker in a lower input
      file, the loop finds nothing below the output level and drops it, while the
      newest visible entry among those the merge does not read is a value. */
  ghost predicate ResurrectsKey(st: State, level: nat, in0: seq<File>, in1: seq<File>, k: UserKey) {
    exists d, r ::
      && NewestAt(Stored(st), k, SmallestSnapshot(st), d) && d in LevelEntries(in1)
      && d.ikey.kind.TypeDeletion? && BaseLevel(st.files, level, k)
      && NewestAt(Stored(st) - InputEntries(in0, in1), k, SmallestSnapshot(st), r) && r.ikey.kind.TypeValue?
  }

  ghost predicate Resurrects(st: State, level: nat, in0: seq<File>, in1: seq<File>) {
    exists k :: ResurrectsKey(st, level, in0, in1, k)
  }

  ghost predicate OlderAtBase(files: seq<seq<File>>, level: nat, d: Entry, r: Entry) {
    r.ikey.user == d.ikey.user && r.ikey.sequence < d.ikey.sequence && BaseLevel(files, level, d.ikey.user)
  }

  /** A merge seen as a change of the stored entries, with what the choice of
      inputs guarantees: an older entry left behind means a lower input entry. */
  ghost predicate Merged(S: iset<Entry>, S': iset<Entry>, lower: iset<Entry>, files: seq<seq<File>>, level: nat,
                         input: seq<Entry>, smallest: nat) {
    var kept := Kept(files, level, input, |input|, smallest);
    && UniqueSeqs(S) && Sorted(input) && RunEntries(input) <= S
    && S' == S - RunEntries(input) + RunEntries(kept) && RunEntries(kept) <= RunEntries(input)
    && forall d, r :: d in input && r in S - RunEntries(input) && OlderAtBase(files, level, d, r) ==> d in lower
  }

  ghost predicate Revives(S: iset<Entry>, lower: iset<Entry>, files: seq<seq<File>>, level: nat, input: seq<Entry>,
                          smallest: nat, k: UserKey) {
    exists d, r ::
      && NewestAt(S, k, smallest, d) && d in lower && d.ikey.kind.TypeDeletion? && BaseLevel(files, level, k)
      && NewestAt(S - RunEntries(input), k, smallest, r) && r.ikey.kind.TypeValue?
  }

  lemma {:induction false} MergeView(S: iset<Entry>, S': iset<Entry>, lower: iset<Entry>, files: seq<seq<File>>, level: nat,
                                     input: seq<Entry>, smallest: nat, k: UserKey, s: nat)
    requires Merged(S, S', lower, files, level, input, smallest) && smallest <= s
    requires !Revives(S, lower, files, level, input, smallest, k)
    ensures View(S', k, s) == View(S, k, s)
  {
    var e := FindNewest(S, k, s);
    if e.None? {
      ViewOfNothing(S, k, s);
      ViewOfNothing(S', k, s);
    } else {
      ViewOfNewest(S, k, s, e.value);
      if e.value in S' {
        assert NewestAt(S', k, s, e.value);
        ViewOfNewest(S', k, s, e.value);
      } else {
        DroppedNewest(files, level, S, input, smallest, k, s, e.value);
        MergeHidesAgain(S, S', lower, files, level, input, smallest, k, s, e.value);
      }
    }
  }

  /** After dropping the newest, a deletion marker, nothing shows through. */
  lemma {:induction false} MergeHidesAgain(S: iset<Entry>, S': iset<Entry>, lower: iset<Entry>, files: seq<seq<File>>, level: nat,
                                           input: seq<Entry>, smallest: nat, k: UserKey, s: nat, d: Entry)
    requires Merged(S, S', lower, files, level, input, smallest) && smallest <= s
    requires !Revives(S, lower, files, level, input, smallest, k)
    requires NewestAt(S, k, s, d) && d in input && d !in S' && Obsolete(files, level, d, smallest)
    ensures View(S', k, s) == None
  {
    var r := FindNewest(S', k, s);
    if r.None? {
      ViewOfNothing(S', k, s);
    } else {
      ViewOfNewest(S', k, s, r.value);
      if r.value in Kept(files, level, input, |input|, smallest) {
        NothingKeptBelow(files, level, input, smallest, d, r.value);
      } else {
        assert NewestAt(S, k, smallest, d);
        assert NewestAt(S - RunEntries(input), k, smallest, r.value);
      }
    }
  }

  /** A revived key reads as present again. */
  lemma {:induction false} RevivedView(S: iset<Entry>, S': iset<Entry>, lower: iset<Entry>, files: seq<seq<File>>, level: nat,
                                       input: seq<Entry>, smallest: nat, k: UserKey)
    requires Merged(S, S', lower, files, level, input, smallest) && lower <= RunEntries(input)
    requires Revives(S, lower, files, level, input, smallest, k)
    ensures View(S, k, smallest) == None && View(S', k, smallest).Some?
  {
    var d, r :| NewestAt(S, k, smallest, d) && d in lower && d.ikey.kind.TypeDeletion? && BaseLevel(files, level, k)
      && NewestAt(S - RunEntries(input), k, smallest, r) && r.ikey.kind.TypeValue?;
    ViewOfNewest(S, k, smallest, d);
    forall x | x in S' && x.ikey.user == k && x.ikey.sequence <= smallest ensures x.ikey.sequence <= r.ikey.sequence {
      if x in Kept(files, level, input, |input|, smallest) {
        NothingKeptBelow(files, level, input, smallest, d, x);
        KeptMembers(files, level, input, |input|, smallest);
      }
    }
    assert NewestAt(S', k, smallest, r);
    ViewOfNewest(S', k, smallest, r);
  }

  // ----- what the choice of inputs guarantees -----

  /** An entry left behind that is older than an input entry of its key: the
      input entry is of the lower level, and so is the one left behind. */
  lemma {:induction false} OlderLeftBehind(files: seq<seq<File>>, level: nat, in0: seq<File>, in1: seq<File>,
      d: Entry, r: Entry, l: nat, g: File)
    requires Layered(files) && UniqueSeqs(FileEntries(files)) && ValidInputs(files, level, in0, in1)
    requires d in InputEntries(in0, in1) && r !in InputEntries(in0, in1)
    requires l < NUM_LEVELS && g in files[l] && r in g.entries && OlderAtBase(files, level, d, r)
    ensures d in LevelEntries(in1) && l == level + 1
  {
    NotDeeper(files, level, l, g, r);
    if l < level {
      AboveIsNewer(files, level, in0, in1, d, r, l, g);
    } else if l == level {
      UpperIsNewer(files, level, in0, in1, d, r, g);
    } else if InLevel(in0, d) {
      InUpperRange(files, level, in0, in1, d, r, g);
    }
  }

  lemma {:induction false} AboveIsNewer(files: seq<seq<File>>, level: nat, in0: seq<File>, in1: seq<File>, d: Entry,
      r: Entry, l: nat, g: File)
    requires Layered(files) && ValidInputs(files, level, in0, in1)
    requires d in InputEntries(in0, in1) && l < level && g in files[l] && r in g.entries && r.ikey.user == d.ikey.user
    ensures r.ikey.sequence > d.ikey.sequence
  {
    hide Layered, Covered;
    LevelMembers(files[l], g, r);
    InputsPlace(files, level, in0, in1, d);
    LayersNewer(files, l, if d in LevelEntries(files[level]) then level else level + 1, r, d);
  }

  lemma {:induction false} NotDeeper(files: seq<seq<File>>, level: nat, l: nat, g: File, r: Entry)
    requires |files| == NUM_LEVELS && l < NUM_LEVELS && g in files[l] && IsTable(g) && r in g.entries
    requires BaseLevel(files, level, r.ikey.user)
    ensures l <= level + 1
  {
    WithinFile(g, r);
  }

  lemma {:induction false} UpperIsNewer(files: seq<seq<File>>, level: nat, in0: seq<File>, in1: seq<File>, d: Entry,
      r: Entry, g: File)
    requires Layered(files) && UniqueSeqs(FileEntries(files)) && ValidInputs(files, level, in0, in1)
    requires d in InputEntries(in0, in1) && r !in InputEntries(in0, in1)
    requires g in files[level] && r in g.entries && r.ikey.user == d.ikey.user
    ensures r.ikey.sequence > d.ikey.sequence
  {
    hide Layered, Covered, UpperClosed, Newer;
    LevelMembers(files[level], g, r);
    if InLevel(in0, d) {
      assert g !in in0 by { if g in in0 { LevelMembers(in0, g, r); } }
      LeftBehindNewer(files, level, in0, in1, r, d, g);
    } else {
      InputsPlace(files, level, in0, in1, d);
      LayersNewer(files, level, level + 1, r, d);
    }
  }

  lemma {:induction false} InUpperRange(files: seq<seq<File>>, level: nat, in0: seq<File>, in1: seq<File>, d: Entry,
      r: Entry, g: File)
    requires Layered(files) && ValidInputs(files, level, in0, in1)
    requires InLevel(in0, d) && r !in InputEntries(in0, in1)
    requires g in files[level + 1] && r in g.entries
    ensures r.ikey.user != d.ikey.user
  {
    hide UpperClosed, IsTable, Layered, Covered, LevelSorted, LevelEntries;
    var f :| f in in0 && d in f.entries;
    InputTable(files, level, in0, in1, f);
    LowerLevelParts(files, level, in0, in1);
    assert g !in in1 by { if g in in1 { LevelMembers(in1, g, r); } }
    LowerIsElsewhere(files[level + 1], in0, f, g, d, r);
  }

  lemma {:induction false} InputTable(files: seq<seq<File>>, level: nat, in0: seq<File>, in1: seq<File>, f: File)
    requires Layered(files) && ValidInputs(files, level, in0, in1) && f in in0
    ensures IsTable(f)
  {
    hide IsTable, UpperClosed;
    assert f in files[level];
  }

  lemma {:induction false} LowerIsElsewhere(fs: seq<File>, in0: seq<File>, f: File, g: File, d: Entry, r: Entry)
    requires IsTable(f) && IsTable(g) && f in in0 && g in fs && g !in Covered(fs, in0)
    requires d in f.entries && r in g.entries
    ensures r.ikey.user != d.ikey.user
  {
    WithinHull(in0, f, d);
    NotCovered(fs, in0, g);
    WithinFile(g, r);
  }

  lemma {:induction false} NotCovered(fs: seq<File>, in0: seq<File>, g: File)
    requires |in0| > 0 && g in fs && g !in Covered(fs, in0)
    ensures g.largest.user < SmallestKey(in0).user || LargestKey(in0).user < g.smallest.user
  {
    OverlapMembers(fs, Some(SmallestKey(in0).user), Some(LargestKey(in0).user));
  }

  /** The memtables hold nothing older than a file entry. */
  lemma {:induction false} OlderIsInFiles(st: State, d: Entry, r: Entry) returns (l: nat, g: File)
    requires TablesInOrder(st) && |st.files| == NUM_LEVELS && d in FileEntries(st.files) && r in Stored(st)
    requires r.ikey.sequence < d.ikey.sequence
    ensures l < NUM_LEVELS && g in st.files[l] && r in g.entries
  {
    assert r in FileEntries(st.files);
    l :| 0 <= l < NUM_LEVELS && InLevel(st.files[l], r);
    g :| g in st.files[l] && r in g.entries;
  }

  lemma {:induction false} MergedStored(st: State, level: nat, in0: seq<File>, in1: seq<File>, input: seq<Entry>,
                                        outputs: seq<File>, st': State)
    requires Layered(st.files) && TablesInOrder(st) && MergeStep(st, level, in0, in1, input, outputs, st')
    ensures Stored(st') == Stored(st) - RunEntries(input) + RunEntries(Flatten(outputs))
    ensures RunEntries(input) <= FileEntries(st.files)
  {
    InputRun(in0, in1, input);
    MergeStored(st, level, in0, in1, input, outputs, st');
    forall e | e in RunEntries(input) ensures e in FileEntries(st.files) {
      InputsAreStored(st.files, level, in0, in1, e);
    }
    StoredAfter(st, st', RunEntries(input), RunEntries(Flatten(outputs)));
  }

  lemma {:induction false} StoredAfter(st: State, st': State, I: iset<Entry>, K: iset<Entry>)
    requires TablesInOrder(st) && st'.mem == st.mem && st'.imm == st.imm
    requires I <= FileEntries(st.files) && FileEntries(st'.files) == FileEntries(st.files) - I + K
    ensures Stored(st') == Stored(st) - I + K
  {
    assert ImmEntries(st') == ImmEntries(st);
  }

  lemma {:induction false} MergeIsMerged(st: State, level: nat, in0: seq<File>, in1: seq<File>, input: seq<Entry>,
                                         outputs: seq<File>, st': State)
    requires Inv(st) && MergeStep(st, level, in0, in1, input, outputs, st')
    ensures Merged(Stored(st), Stored(st'), LevelEntries(in1), st.files, level, input, SmallestSnapshot(st))
    ensures InputEntries(in0, in1) == RunEntries(input)
  {
    InputRun(in0, in1, input);
    FilesUnique(st);
    MergedStored(st, level, in0, in1, input, outputs, st');
    OutputsMadeOf(st, level, in0, in1, input, outputs, SmallestSnapshot(st));
    forall d, r | d in input && r in Stored(st) - RunEntries(input) && OlderAtBase(st.files, level, d, r)
      ensures d in LevelEntries(in1)
    {
      assert d in RunEntries(input);
      var l, g := OlderIsInFiles(st, d, r);
      OlderLeftBehind(st.files, level, in0, in1, d, r, l, g);
    }
  }

  lemma {:induction false} RevivesIsResurrects(st: State, level: nat, in0: seq<File>, in1: seq<File>,
      input: seq<Entry>, k: UserKey)
    requires InputEntries(in0, in1) == RunEntries(input)
    ensures ResurrectsKey(st, level, in0, in1, k) <==>
              Revives(Stored(st), LevelEntries(in1), st.files, level, input, SmallestSnapshot(st), k)
  {
  }

  lemma {:induction false} MergeReadsRight(st: State, level: nat, in0: seq<File>, in1: seq<File>, input: seq<Entry>,
      st': State)
    requires Merged(Stored(st), Stored(st'), LevelEntries(in1), st.files, level, input, SmallestSnapshot(st))
    requires InputEntries(in0, in1) == RunEntries(input) && !Resurrects(st, level, in0, in1)
    requires ReadsOk(st) && st'.history == st.history && st'.snapshots == st.snapshots
    ensures ReadsOk(st')
  {
    forall k, s | SmallestSnapshot(st) <= s <= |st.history| ensures View(Stored(st'), k, s) == View(Entries(st.history), k, s) {
      RevivesIsResurrects(st, level, in0, in1, input, k);
      assert !ResurrectsKey(st, level, in0, in1, k);
      MergeView(Stored(st), Stored(st'), LevelEntries(in1), st.files, level, input, SmallestSnapshot(st), k, s);
    }
  }

  lemma {:induction false} LowerAreInputs(in0: seq<File>, in1: seq<File>, input: seq<Entry>)
    requires InputEntries(in0, in1) == RunEntries(input)
    ensures LevelEntries(in1) <= RunEntries(input)
  {
    hide LevelEntries, RunEntries;
    assert forall e :: e in LevelEntries(in1) ==> e in InputEntries(in0, in1);
  }

  lemma {:induction false} MergeReadsWrong(st: State, level: nat, in0: seq<File>, in1: seq<File>, input: seq<Entry>,
      st': State)
    requires Merged(Stored(st), Stored(st'), LevelEntries(in1), st.files, level, input, SmallestSnapshot(st))
    requires InputEntries(in0, in1) == RunEntries(input) && Resurrects(st, level, in0, in1)
    requires ReadsOk(st) && SmallestSnapshot(st) <= |st.history|
    requires st'.history == st.history && st'.snapshots == st.snapshots
    ensures !ReadsOk(st')
  {
    hide ResurrectsKey, Stored, Merged, Revives, InputEntries, Kept;
    var k :| ResurrectsKey(st, level, in0, in1, k);
    assert LevelEntries(in1) <= RunEntries(input) by { LowerAreInputs(in0, in1, input); }
    RevivesIsResurrects(st, level, in0, in1, input, k);
    RevivedView(Stored(st), Stored(st'), LevelEntries(in1), st.files, level, input, SmallestSnapshot(st), k);
  }

  /** A merge keeps all live reads right if and only if it resurrects no key. */
  lemma {:induction false} MergeReads(st: State, level: nat, in0: seq<File>, in1: seq<File>, input: seq<Entry>,
                                      outputs: seq<File>, st': State)
    requires Inv(st) && ReadsOk(st) && MergeStep(st, level, in0, in1, input, outputs, st')
    ensures ReadsOk(st') <==> !Resurrects(st, level, in0, in1)
  {
    hide FilesOk, TablesInOrder, Exchanged, ValidInputs, Resurrects, ReadsOk, Merged, Stored;
    MergeIsMerged(st, level, in0, in1, input, outputs, st');
    if Resurrects(st, level, in0, in1) {
      assert st.snapshots != [] ==> st.snapshots[0] in st.snapshots;
      MergeReadsWrong(st, level, in0, in1, input, st');
    } else {
      MergeReadsRight(st, level, in0, in1, input, st');
    }
  }

  // ----- the guard that rules resurrection out -----

  /** The file the value came from starts with the key the last lower input file
      of that key ends with: it is a boundary file the lower inputs lack. */
  lemma {:induction false} ResurrectionNeedsBoundary(st: State, level: nat, in0: seq<File>, in1: seq<File>, k: UserKey)
    requires Inv(st) && ValidInputs(st.files, level, in0, in1) && ResurrectsKey(st, level, in0, in1, k)
    ensures |in1| > 0 && !BoundaryClosed(st.files[level + 1], in1)
  {
    hide Inv, FilesOk, Stored, ValidInputs, Layered, TablesInOrder, BaseLevel, BoundaryClosed, Covered;
    var s := SmallestSnapshot(st);
    var d, r :| NewestAt(Stored(st), k, s, d) && d in LevelEntries(in1)
      && d.ikey.kind.TypeDeletion? && BaseLevel(st.files, level, k)
      && NewestAt(Stored(st) - InputEntries(in0, in1), k, s, r) && r.ikey.kind.TypeValue?;
    FilesUnique(st);
    OlderThanNewest(Stored(st), k, s, d, r);
    InvParts(st);
    LowerLevelParts(st.files, level, in0, in1);
    ResurrectionBoundary(st, level, in0, in1, d, r);
  }

  lemma {:induction false} ResurrectionBoundary(st: State, level: nat, in0: seq<File>, in1: seq<File>, d: Entry,
      r: Entry)
    requires Layered(st.files) && TablesInOrder(st) && UniqueSeqs(FileEntries(st.files))
    requires ValidInputs(st.files, level, in0, in1)
    requires d in LevelEntries(in1) && r in Stored(st) && r !in InputEntries(in0, in1)
    requires OlderAtBase(st.files, level, d, r)
    ensures |in1| > 0 && !BoundaryClosed(st.files[level + 1], in1)
  {
    hide Stored, ValidInputs, Layered, TablesInOrder, Covered, BaseLevel;
    LowerLevelParts(st.files, level, in0, in1);
    InputsAreStored(st.files, level, in0, in1, d);
    var l, g := OlderIsInFiles(st, d, r);
    OlderLeftBehind(st.files, level, in0, in1, d, r, l, g);
    var f :| f in in1 && d in f.entries;
    assert g !in in1 by { if g in in1 { LevelMembers(in1, g, r); } }
    BoundaryToTheRight(st.files[level + 1], in0, f, g, d, r);
  }

  lemma {:induction false} OlderThanNewest(S: iset<Entry>, k: UserKey, s: nat, d: Entry, r: Entry)
    requires UniqueSeqs(S) && NewestAt(S, k, s, d) && r in S && r.ikey.user == k && r.ikey.sequence <= s
    requires r.ikey.kind != d.ikey.kind
    ensures r.ikey.sequence < d.ikey.sequence
  {
  }

  lemma {:induction false} InvParts(st: State)
    requires Inv(st)
    ensures Layered(st.files) && TablesInOrder(st)
  {
    hide Layered, TablesInOrder;
  }

  lemma {:induction false} LowerLevelParts(files: seq<seq<File>>, level: nat, in0: seq<File>, in1: seq<File>)
    requires Layered(files) && ValidInputs(files, level, in0, in1)
    ensures |files| == NUM_LEVELS && level + 1 < NUM_LEVELS && AllTables(files[level + 1])
    ensures LevelSorted(files[level + 1])
    ensures |in0| > 0 && in1 == Covered(files[level + 1], in0)
  {
    hide AllTables, LevelSorted, UpperClosed;
  }

  lemma {:induction false} BoundaryToTheRight(fs: seq<File>, in0: seq<File>, f: File, g: File, d: Entry, r: Entry)
    requires AllTables(fs) && LevelSorted(fs) && |in0| > 0
    requires f in Covered(fs, in0) && g in fs && g !in Covered(fs, in0)
    requires d in f.entries && r in g.entries && d.ikey.user == r.ikey.user && d.ikey.sequence > r.ikey.sequence
    ensures |Covered(fs, in0)| > 0 && IsBoundary(g, LargestKey(Covered(fs, in0)))
  {
    var in1 := Covered(fs, in0);
    OverlapMembers(fs, Some(SmallestKey(in0).user), Some(LargestKey(in0).user));
    WithinFile(f, d);
    WithinFile(g, r);
    SortedIsDisjoint(fs, f, g);
    assert Less(f.largest, g.smallest);
    var h := LargestIsMet(in1);
    LeftBehindApart(fs, in0, g);
    HullBounds(in1, f);
  }

  /** When AddBoundaryInputs would add nothing to the lower inputs, the merge
      resurrects nothing. */
  lemma {:induction false} ClosedLowerInputsAreSafe(st: State, level: nat, in0: seq<File>, in1: seq<File>)
    requires Inv(st) && ValidInputs(st.files, level, in0, in1)
    requires |in1| > 0 ==> BoundaryClosed(st.files[level + 1], in1)
    ensures !Resurrects(st, level, in0, in1)
  {
    hide Inv, ValidInputs, ResurrectsKey, BoundaryClosed;
    forall k | ResurrectsKey(st, level, in0, in1, k) ensures false {
      ResurrectionNeedsBoundary(st, level, in0, in1, k);
    }
  }
}
