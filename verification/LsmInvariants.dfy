/** Every step of the store keeps the structural invariants. */
module LsmInvariants {
  import opened InternalKeys
  import opened FlatHistory
  import opened Versions
  import opened CompactionInputs
  import opened SetupInputs
  import opened CompactionLoop
  import opened LsmState

  // ----- writes -----

  lemma {:induction false} EntriesGrow(h: seq<Op>, ops: seq<Op>)
    ensures Entries(h + ops) == Entries(h) + NewEntries(h, ops)
  {
    forall e: Entry | 1 <= e.ikey.sequence <= |h| ensures Written(h, e) <==> Written(h + ops, e) {
      assert (h + ops)[e.ikey.sequence - 1] == h[e.ikey.sequence - 1];
    }
  }

  lemma {:induction false} WriteKeepsInv(st: State, ops: seq<Op>, st': State)
    requires Inv(st) && WriteStep(st, ops, st')
    ensures Inv(st') && Stored(st') == Stored(st) + NewEntries(st.history, ops)
  {
    EntriesGrow(st.history, ops);
    assert Stored(st') == Stored(st) + NewEntries(st.history, ops);
    WriteKeepsOrder(st, ops, st');
  }

  lemma {:induction false} WriteKeepsOrder(st: State, ops: seq<Op>, st': State)
    requires TablesInOrder(st) && Stored(st) <= Entries(st.history) && WriteStep(st, ops, st')
    ensures TablesInOrder(st')
  {
    forall y | y in ImmEntries(st) || y in FileEntries(st.files) ensures y.ikey.sequence <= |st.history| {
      assert y in Stored(st);
      assert y in Entries(st.history);
    }
    assert ImmEntries(st') == ImmEntries(st);
  }

  lemma {:induction false} SwitchKeepsInv(st: State, st': State)
    requires Inv(st) && SwitchStep(st, st')
    ensures Inv(st') && Stored(st') == Stored(st)
  {
    assert ImmEntries(st') == RunEntries(st.mem) && RunEntries(st'.mem) == iset{} && ImmEntries(st) == iset{};
  }

  // ----- file exchanges -----

  lemma {:induction false} LevelMembers(fs: seq<File>, f: File, e: Entry)
    requires f in fs && e in f.entries
    ensures e in LevelEntries(fs)
  {
  }

  lemma {:induction false} FileMembers(files: seq<seq<File>>, l: nat, e: Entry)
    requires l < |files| && e in LevelEntries(files[l])
    ensures e in FileEntries(files)
  {
  }

  /** In a level ordered by smallest key, being disjoint pair by pair makes it
      sorted. */
  lemma {:induction false} DisjointIsSorted(fs: seq<File>)
    requires SortedBySmallest(fs)
    requires forall f, g :: f in fs && g in fs && f != g ==> Less(f.largest, g.smallest) || Less(g.largest, f.smallest)
    ensures LevelSorted(fs)
  {
    forall i, j | 0 <= i < j < |fs| ensures Less(fs[i].largest, fs[j].smallest) {
      assert BySmallest(fs[i], fs[j]);
    }
  }

  lemma {:induction false} SortedIsDisjoint(fs: seq<File>, f: File, g: File)
    requires LevelSorted(fs) && f in fs && g in fs && f != g
    ensures Less(f.largest, g.smallest) || Less(g.largest, f.smallest)
  {
    var i :| 0 <= i < |fs| && fs[i] == f;
    var j :| 0 <= j < |fs| && fs[j] == g;
    assert i < j || j < i;
  }

  /** One level after losing files and gaining others. */
  lemma {:induction false} ReplacedMembers(fs: seq<File>, removed: seq<File>, added: seq<File>, fs': seq<File>,
      e: Entry)
    requires Replaced(fs, removed, added, fs')
    ensures e in LevelEntries(fs') ==> e in LevelEntries(fs) || e in LevelEntries(added)
    ensures e in LevelEntries(added) ==> e in LevelEntries(fs')
    ensures e in LevelEntries(fs) && e !in LevelEntries(removed) ==> e in LevelEntries(fs')
  {
    if e in LevelEntries(added) {
      var f :| f in added && e in f.entries;
      assert f in fs';
    }
    if e in LevelEntries(fs) && e !in LevelEntries(removed) {
      var f :| f in fs && e in f.entries;
      assert f in fs';
    }
  }

  lemma {:induction false} ReplacedTables(fs: seq<File>, removed: seq<File>, added: seq<File>, fs': seq<File>)
    requires Replaced(fs, removed, added, fs') && AllTables(fs) && AllTables(added)
    ensures AllTables(fs')
  {
  }

  /** A level that only lost files stays sorted. */
  lemma {:induction false} ThinnedSorted(fs: seq<File>, removed: seq<File>, fs': seq<File>)
    requires Replaced(fs, removed, [], fs') && LevelSorted(fs)
    ensures LevelSorted(fs')
  {
    forall f, g | f in fs' && g in fs' && f != g
      ensures Less(f.largest, g.smallest) || Less(g.largest, f.smallest)
    {
      SortedIsDisjoint(fs, f, g);
    }
    DisjointIsSorted(fs');
  }

  /** `f` lies entirely to one side of `g`. */
  predicate Apart(f: File, g: File) {
    Less(f.largest, g.smallest) || Less(g.largest, f.smallest)
  }

  /** A sorted level that loses files and gains ones apart from the rest and
      from each other stays sorted. */
  lemma {:induction false} ReplacedSorted(fs: seq<File>, removed: seq<File>, added: seq<File>, fs': seq<File>)
    requires Replaced(fs, removed, added, fs') && LevelSorted(fs) && LevelSorted(added)
    requires forall f, g :: f in fs && f !in removed && g in added ==> Apart(f, g)
    ensures LevelSorted(fs')
  {
    forall f, g | f in fs' && g in fs' && f != g
      ensures Less(f.largest, g.smallest) || Less(g.largest, f.smallest)
    {
      if f in added && g in added {
        SortedIsDisjoint(added, f, g);
      } else if f !in added && g !in added {
        SortedIsDisjoint(fs, f, g);
      } else if f in added {
        assert Apart(g, f);
      } else {
        assert Apart(f, g);
      }
    }
    DisjointIsSorted(fs');
  }

  // ----- flushing the immutable memtable -----

  lemma {:induction false} FlushLevel(st: State, level: nat, f: File, st': State, l: nat, e: Entry)
    requires FlushStep(st, level, f, st') && l < NUM_LEVELS
    ensures e in LevelEntries(st'.files[l]) <==> e in LevelEntries(st.files[l]) || (l == level && e in f.entries)
  {
    if l == level {
      ReplacedMembers(st.files[l], [], [f], st'.files[l], e);
      assert f in [f];
      assert LevelEntries([]) == iset{};
      assert e in LevelEntries([f]) <==> e in f.entries;
    }
  }

  lemma {:induction false} FlushStored(st: State, level: nat, f: File, st': State)
    requires FlushStep(st, level, f, st')
    ensures forall e :: e in FileEntries(st'.files) <==> e in FileEntries(st.files) || e in f.entries
    ensures Stored(st') == Stored(st)
  {
    forall e ensures e in FileEntries(st'.files) <==> e in FileEntries(st.files) || e in f.entries {
      FlushLevel(st, level, f, st', level, e);
      if l :| 0 <= l < NUM_LEVELS && InLevel(st'.files[l], e) {
        FlushLevel(st, level, f, st', l, e);
        if e !in f.entries { assert InLevel(st.files[l], e); }
      }
      if l :| 0 <= l < NUM_LEVELS && InLevel(st.files[l], e) {
        FlushLevel(st, level, f, st', l, e);
        assert InLevel(st'.files[l], e);
      }
      if e in f.entries { assert InLevel(st'.files[level], e); }
    }
    assert RunEntries(f.entries) == ImmEntries(st);
  }

  /** Files that do not overlap share no user key. */
  lemma {:induction false} NoSharedKey(f: File, g: File, x: Entry, y: Entry)
    requires IsTable(f) && IsTable(g) && !Overlaps(g, Some(f.smallest.user), Some(f.largest.user))
    requires x in f.entries && y in g.entries
    ensures x.ikey.user != y.ikey.user
  {
    WithinFile(f, x);
    WithinFile(g, y);
  }

  lemma {:induction false} FlushNewer(st: State, level: nat, f: File, st': State, a: nat, b: nat)
    requires Layered(st.files) && FlushStep(st, level, f, st') && a < b < NUM_LEVELS
    requires WrittenAfter(ImmEntries(st), FileEntries(st.files))
    ensures Newer(LevelEntries(st'.files[a]), LevelEntries(st'.files[b]))
  {
    forall x, y | x in LevelEntries(st'.files[a]) && y in LevelEntries(st'.files[b]) && x.ikey.user == y.ikey.user
      ensures x.ikey.sequence > y.ikey.sequence
    {
      FlushLevel(st, level, f, st', a, x);
      FlushLevel(st, level, f, st', b, y);
      if a == level && x in f.entries {
        assert y in FileEntries(st.files) && x in ImmEntries(st);
      } else if b == level && y in f.entries {
        var g :| g in st.files[a] && x in g.entries;
        NoSharedKey(f, g, y, x);
      } else {
        assert Newer(LevelEntries(st.files[a]), LevelEntries(st.files[b]));
      }
    }
  }

  lemma {:induction false} FlushLevel0(st: State, f: File, st': State)
    requires FlushStep(st, 0, f, st') && NumberedByAge(st.files[0])
    requires WrittenAfter(ImmEntries(st), FileEntries(st.files)) && Numbered(st.files, st.nextFile)
    ensures NumberedByAge(st'.files[0])
  {
    var fs := st'.files[0];
    forall i, j | 0 <= i < j < |fs| ensures fs[i].number != fs[j].number {
      assert fs[i] in fs && fs[j] in fs && BySmallest(fs[i], fs[j]);
    }
    forall g, h | g in fs && h in fs && g.number > h.number
      ensures Newer(RunEntries(g.entries), RunEntries(h.entries))
    {
      assert h in st.files[0];
      if g == f {
        forall x, y | x in RunEntries(g.entries) && y in RunEntries(h.entries) ensures x.ikey.sequence > y.ikey.sequence {
          assert x in ImmEntries(st) && y in LevelEntries(st.files[0]);
          FileMembers(st.files, 0, y);
        }
      }
    }
  }

  lemma {:induction false} FlushSorted(st: State, level: nat, f: File, st': State)
    requires level > 0 && FlushStep(st, level, f, st') && LevelSorted(st.files[level])
    ensures LevelSorted(st'.files[level])
  {
    assert LevelSorted([f]);
    forall g | g in st.files[level] ensures Apart(g, f) {
      assert !Overlaps(g, Some(f.smallest.user), Some(f.largest.user));
    }
    ReplacedSorted(st.files[level], [], [f], st'.files[level]);
  }

  lemma {:induction false} FlushNumbered(st: State, level: nat, f: File, st': State)
    requires FlushStep(st, level, f, st') && Numbered(st.files, st.nextFile)
    ensures Numbered(st'.files, st'.nextFile)
  {
    NumbersAdded(st.files, st.nextFile, level, [f], st'.files);
  }

  /** `files'` has new files, freshly numbered, at `level`; all others were there. */
  ghost predicate GainedFiles(files: seq<seq<File>>, next: nat, level: nat, added: seq<File>, files': seq<seq<File>>) {
    && |files| == |files'| && level < |files|
    && (forall i :: 0 <= i < |added| ==> added[i].number == next + i)
    && (forall l, g {:trigger g in files'[l]} :: 0 <= l < |files| && g in files'[l] ==> g in files[l] || (l == level && g in added))
  }

  lemma {:induction false} GainedPlace(files: seq<seq<File>>, next: nat, level: nat, added: seq<File>, files': seq<seq<File>>,
                                       l: nat, g: File)
    requires Numbered(files, next) && GainedFiles(files, next, level, added, files')
    requires l < |files| && g in files'[l]
    ensures g.number < next + |added|
    ensures if g.number < next then g in files[l] else l == level && g == added[g.number - next]
  {
    if g !in files[l] {
      var i :| 0 <= i < |added| && added[i] == g;
    }
  }

  lemma {:induction false} NumbersAdded(files: seq<seq<File>>, next: nat, level: nat, added: seq<File>,
      files': seq<seq<File>>)
    requires Numbered(files, next) && GainedFiles(files, next, level, added, files')
    ensures Numbered(files', next + |added|)
  {
    forall l, g | 0 <= l < |files'| && g in files'[l] ensures g.number < next + |added| {
      GainedPlace(files, next, level, added, files', l, g);
    }
    forall l, m, f, g | 0 <= l < |files'| && 0 <= m < |files'| && f in files'[l] && g in files'[m] && f.number == g.number
      ensures l == m && f == g
    {
      GainedPlace(files, next, level, added, files', l, f);
      GainedPlace(files, next, level, added, files', m, g);
    }
  }

  lemma {:induction false} FlushKeepsInv(st: State, level: nat, f: File, st': State)
    requires Inv(st) && FlushStep(st, level, f, st')
    ensures Inv(st') && Stored(st') == Stored(st)
  {
    FlushStored(st, level, f, st');
    FlushKeepsFiles(st, level, f, st');
    forall x | x in f.entries ensures x in ImmEntries(st) {
    }
  }

  lemma {:induction false} FlushKeepsFiles(st: State, level: nat, f: File, st': State)
    requires FilesOk(st) && FlushStep(st, level, f, st')
    requires WrittenAfter(ImmEntries(st), FileEntries(st.files))
    ensures FilesOk(st')
  {
    hide Numbered, NumberedByAge, Newer, Overlaps;
    FlushNumbered(st, level, f, st');
    if level == 0 {
      FlushLevel0(st, f, st');
    } else {
      FlushSorted(st, level, f, st');
    }
    ReplacedTables(st.files[level], [], [f], st'.files[level]);
    forall a, b | 0 <= a < b < NUM_LEVELS ensures Newer(LevelEntries(st'.files[a]), LevelEntries(st'.files[b])) {
      FlushNewer(st, level, f, st', a, b);
    }
  }

  // ----- exchanging files between a level and the next -----

  lemma {:induction false} FlattenMembers(outputs: seq<File>, e: Entry)
    ensures e in Flatten(outputs) <==> e in LevelEntries(outputs)
  {
    if |outputs| > 0 {
      var n := |outputs| - 1;
      assert outputs == outputs[..n] + [outputs[n]];
      FlattenMembers(outputs[..n], e);
    }
  }

  /** Tables cut out of one sorted run are disjoint and in order. */
  lemma {:induction false} FlattenSorted(outputs: seq<File>)
    requires AllTables(outputs) && Sorted(Flatten(outputs))
    ensures LevelSorted(outputs)
  {
    hide Less, IsTable, Flatten, Sorted;
    if |outputs| > 0 {
      var n := |outputs| - 1;
      var front := outputs[..n];
      FrontSorted(outputs);
      FlattenSorted(front);
      forall i | 0 <= i < n ensures Less(outputs[i].largest, outputs[n].smallest) {
        BeforeLast(outputs, i);
      }
    }
  }

  lemma {:induction false} FrontSorted(outputs: seq<File>)
    requires |outputs| > 0 && AllTables(outputs) && Sorted(Flatten(outputs))
    ensures AllTables(outputs[..|outputs| - 1]) && Sorted(Flatten(outputs[..|outputs| - 1]))
  {
    hide Less, IsTable;
    var flat := Flatten(outputs[..|outputs| - 1]);
    assert forall i :: 0 <= i < |flat| ==> flat[i] == Flatten(outputs)[i];
  }

  /** The largest key of a table comes before the smallest of the last one. */
  lemma {:induction false} BeforeLast(outputs: seq<File>, i: nat)
    requires i < |outputs| - 1 && AllTables(outputs) && Sorted(Flatten(outputs))
    ensures Less(outputs[i].largest, outputs[|outputs| - 1].smallest)
  {
    hide Less;
    var front, last := outputs[..|outputs| - 1], outputs[|outputs| - 1];
    var flat, f := Flatten(front), outputs[i];
    assert f in outputs && last in outputs && front[i] in front;
    var e := f.entries[|f.entries| - 1];
    assert e in f.entries && e in LevelEntries(front);
    FlattenMembers(front, e);
    var j :| 0 <= j < |flat| && flat[j] == e;
    assert Flatten(outputs)[j] == e && Flatten(outputs)[|flat|] == last.entries[0];
  }

  /** A file of the lower level that is left behind lies on one side of all the
      input files: the inputs are everything touching the upper range. */
  lemma {:induction false} LeftBehindApart(fs: seq<File>, in0: seq<File>, f: File)
    requires LevelSorted(fs) && |in0| > 0 && f in fs && f !in Covered(fs, in0)
    ensures (f.largest.user < SmallestKey(in0).user && forall g :: g in Covered(fs, in0) ==> Less(f.largest, g.smallest)) ||
            (LargestKey(in0).user < f.smallest.user && forall g :: g in Covered(fs, in0) ==> Less(g.largest, f.smallest))
  {
    var lo, hi := SmallestKey(in0).user, LargestKey(in0).user;
    OverlapMembers(fs, Some(lo), Some(hi));
    forall g | g in Covered(fs, in0)
      ensures if f.largest.user < lo then Less(f.largest, g.smallest) else Less(g.largest, f.smallest)
    {
      SortedIsDisjoint(fs, f, g);
    }
  }

  lemma {:induction false} WithinHull(in0: seq<File>, f: File, e: Entry)
    requires f in in0 && IsTable(f) && e in f.entries
    ensures SmallestKey(in0).user <= e.ikey.user <= LargestKey(in0).user
  {
    HullBounds(in0, f);
    WithinFile(f, e);
  }

  /** So it also lies on one side of every table made of the inputs' entries. */
  lemma {:induction false} OutputApart(fs: seq<File>, in0: seq<File>, f: File, g: File)
    requires LevelSorted(fs) && AllTables(fs) && AllTables(in0) && |in0| > 0
    requires f in fs && f !in Covered(fs, in0) && IsTable(g)
    requires forall e :: e in g.entries ==> InLevel(in0, e) || InLevel(Covered(fs, in0), e)
    ensures Apart(f, g)
  {
    LeftBehindApart(fs, in0, f);
    OverlapMembers(fs, Some(SmallestKey(in0).user), Some(LargestKey(in0).user));
    var first, last := g.entries[0], g.entries[|g.entries| - 1];
    OneSide(fs, in0, f, first);
    OneSide(fs, in0, f, last);
  }

  lemma {:induction false} OneSide(fs: seq<File>, in0: seq<File>, f: File, e: Entry)
    requires LevelSorted(fs) && AllTables(fs) && AllTables(in0) && |in0| > 0
    requires f in fs && f !in Covered(fs, in0)
    requires InLevel(in0, e) || InLevel(Covered(fs, in0), e)
    ensures f.largest.user < SmallestKey(in0).user ==> Less(f.largest, e.ikey)
    ensures !(f.largest.user < SmallestKey(in0).user) ==> Less(e.ikey, f.smallest)
  {
    LeftBehindApart(fs, in0, f);
    OverlapMembers(fs, Some(SmallestKey(in0).user), Some(LargestKey(in0).user));
    if InLevel(in0, e) {
      var g :| g in in0 && e in g.entries;
      WithinHull(in0, g, e);
    } else {
      var g :| g in Covered(fs, in0) && e in g.entries;
      assert g in fs;
      WithinFile(g, e);
    }
  }

  /** The tables added below hold nothing but entries of the input files. */
  ghost predicate MadeOf(added: seq<File>, in0: seq<File>, in1: seq<File>) {
    && AllTables(added) && LevelSorted(added)
    && forall g, e :: g in added && e in g.entries ==> InLevel(in0, e) || InLevel(in1, e)
  }

  lemma {:induction false} ExchangedUpper(files: seq<seq<File>>, level: nat, in0: seq<File>, in1: seq<File>,
                                          added: seq<File>, files': seq<seq<File>>, e: Entry)
    requires Exchanged(files, level, in0, in1, added, files') && e in LevelEntries(files'[level])
    ensures exists g :: g in files[level] && g !in in0 && e in g.entries
  {
    var g :| g in files'[level] && e in g.entries;
  }

  lemma {:induction false} InputsPlace(files: seq<seq<File>>, level: nat, in0: seq<File>, in1: seq<File>, e: Entry)
    requires ValidInputs(files, level, in0, in1) && (InLevel(in0, e) || InLevel(in1, e))
    ensures e in LevelEntries(files[level + 1]) || (InLevel(in0, e) && e in LevelEntries(files[level]))
  {
    if InLevel(in0, e) {
      var f :| f in in0 && e in f.entries;
      LevelMembers(files[level], f, e);
    } else {
      OverlapMembers(files[level + 1], Some(SmallestKey(in0).user), Some(LargestKey(in0).user));
      var f :| f in in1 && e in f.entries;
      LevelMembers(files[level + 1], f, e);
    }
  }

  lemma {:induction false} ExchangedLower(files: seq<seq<File>>, level: nat, in0: seq<File>, in1: seq<File>,
                                          added: seq<File>, files': seq<seq<File>>, e: Entry)
    requires ValidInputs(files, level, in0, in1) && MadeOf(added, in0, in1)
    requires Exchanged(files, level, in0, in1, added, files') && e in LevelEntries(files'[level + 1])
    ensures e in LevelEntries(files[level + 1]) || (InLevel(in0, e) && e in LevelEntries(files[level]))
  {
    var g :| g in files'[level + 1] && e in g.entries;
    if g in added {
      InputsPlace(files, level, in0, in1, e);
    } else {
      LevelMembers(files[level + 1], g, e);
    }
  }

  /** What is left behind at the upper level is newer than what moved down. */
  lemma {:induction false} LeftBehindNewer(files: seq<seq<File>>, level: nat, in0: seq<File>, in1: seq<File>,
      x: Entry, y: Entry, g: File)
    requires ValidInputs(files, level, in0, in1) && UniqueSeqs(FileEntries(files))
    requires g in files[level] && g !in in0 && x in g.entries && InLevel(in0, y) && x.ikey.user == y.ikey.user
    ensures x.ikey.sequence > y.ikey.sequence
  {
    var f :| f in in0 && y in f.entries;
    assert Less(x.ikey, y.ikey);
    assert f in files[level];
    LevelMembers(files[level], g, x);
    LevelMembers(files[level], f, y);
    FileMembers(files, level, x);
    FileMembers(files, level, y);
  }

  lemma {:induction false} UpperVersusMoved(files: seq<seq<File>>, level: nat, in0: seq<File>, in1: seq<File>,
                                            added: seq<File>, files': seq<seq<File>>, x: Entry, y: Entry)
    requires ValidInputs(files, level, in0, in1) && UniqueSeqs(FileEntries(files))
    requires Exchanged(files, level, in0, in1, added, files')
    requires x in LevelEntries(files'[level]) && InLevel(in0, y) && x.ikey.user == y.ikey.user
    ensures x.ikey.sequence > y.ikey.sequence
  {
    ExchangedUpper(files, level, in0, in1, added, files', x);
    var g :| g in files[level] && g !in in0 && x in g.entries;
    LeftBehindNewer(files, level, in0, in1, x, y, g);
  }

  lemma {:induction false} ExchangeNewerAt(files: seq<seq<File>>, level: nat, in0: seq<File>, in1: seq<File>,
                                           added: seq<File>, files': seq<seq<File>>, a: nat, b: nat, x: Entry, y: Entry)
    requires Layered(files) && UniqueSeqs(FileEntries(files))
    requires ValidInputs(files, level, in0, in1) && MadeOf(added, in0, in1)
    requires Exchanged(files, level, in0, in1, added, files') && a < b < NUM_LEVELS
    requires x in LevelEntries(files'[a]) && y in LevelEntries(files'[b]) && x.ikey.user == y.ikey.user
    ensures x.ikey.sequence > y.ikey.sequence
  {
    hide Layered, UpperClosed, Covered, Replaced, AllTables;
    var a' := ExchangedPlace(files, level, in0, in1, added, files', a, x);
    var b' := ExchangedPlace(files, level, in0, in1, added, files', b, y);
    if a' < b' {
      LayersNewer(files, a', b', x, y);
    } else {
      UpperVersusMoved(files, level, in0, in1, added, files', x, y);
    }
  }

  lemma {:induction false} LayersNewer(files: seq<seq<File>>, a: nat, b: nat, x: Entry, y: Entry)
    requires Layered(files) && a < b < NUM_LEVELS
    requires x in LevelEntries(files[a]) && y in LevelEntries(files[b]) && x.ikey.user == y.ikey.user
    ensures x.ikey.sequence > y.ikey.sequence
  {
    assert Newer(LevelEntries(files[a]), LevelEntries(files[b]));
  }

  /** The level an entry of the new version had in the old one. */
  lemma {:induction false} ExchangedPlace(files: seq<seq<File>>, level: nat, in0: seq<File>, in1: seq<File>,
                                          added: seq<File>, files': seq<seq<File>>, l: nat, e: Entry) returns (m: nat)
    requires ValidInputs(files, level, in0, in1) && MadeOf(added, in0, in1)
    requires Exchanged(files, level, in0, in1, added, files') && l < NUM_LEVELS && e in LevelEntries(files'[l])
    ensures m < NUM_LEVELS && e in LevelEntries(files[m])
    ensures m == l || (l == level + 1 && m == level && InLevel(in0, e))
  {
    m := l;
    if l == level {
      ExchangedUpper(files, level, in0, in1, added, files', e);
    } else if l == level + 1 {
      ExchangedLower(files, level, in0, in1, added, files', e);
      if e !in LevelEntries(files[l]) {
        m := level;
      }
    }
  }

  lemma {:induction false} ThinnedByAge(fs: seq<File>, removed: seq<File>, fs': seq<File>)
    requires NumberedByAge(fs) && Replaced(fs, removed, [], fs')
    ensures NumberedByAge(fs')
  {
    forall i, j | 0 <= i < j < |fs'| ensures fs'[i].number != fs'[j].number {
      assert BySmallest(fs'[i], fs'[j]) && fs'[i] in fs' && fs'[j] in fs';
      var a :| 0 <= a < |fs| && fs[a] == fs'[i];
      var b :| 0 <= b < |fs| && fs[b] == fs'[j];
      assert a < b || b < a;
    }
  }

  lemma {:induction false} ExchangeKeepsLower(files: seq<seq<File>>, level: nat, in0: seq<File>, in1: seq<File>,
                                              added: seq<File>, files': seq<seq<File>>)
    requires Layered(files)
    requires ValidInputs(files, level, in0, in1) && MadeOf(added, in0, in1)
    requires Exchanged(files, level, in0, in1, added, files')
    ensures LevelSorted(files'[level + 1])
  {
    assert forall f :: f in in0 ==> f in files[level];
    forall f, g | f in files[level + 1] && f !in in1 && g in added ensures Apart(f, g) {
      OutputApart(files[level + 1], in0, f, g);
    }
    ReplacedSorted(files[level + 1], in1, added, files'[level + 1]);
  }

  lemma {:induction false} ExchangeNewer(files: seq<seq<File>>, level: nat, in0: seq<File>, in1: seq<File>,
                                         added: seq<File>, files': seq<seq<File>>)
    requires Layered(files) && UniqueSeqs(FileEntries(files))
    requires ValidInputs(files, level, in0, in1) && MadeOf(added, in0, in1)
    requires Exchanged(files, level, in0, in1, added, files')
    ensures forall a, b :: 0 <= a < b < NUM_LEVELS ==> Newer(LevelEntries(files'[a]), LevelEntries(files'[b]))
  {
    forall a, b, x, y | 0 <= a < b < NUM_LEVELS && x in LevelEntries(files'[a]) && y in LevelEntries(files'[b]) && x.ikey.user == y.ikey.user
      ensures x.ikey.sequence > y.ikey.sequence
    {
      ExchangeNewerAt(files, level, in0, in1, added, files', a, b, x, y);
    }
  }

  /** Exchanging valid inputs for tables made of their entries keeps a version
      well layered: level + 1 stays sorted and disjoint, and every level stays
      newer than the ones below. */
  lemma {:induction false} ExchangeKeepsLayers(files: seq<seq<File>>, level: nat, in0: seq<File>, in1: seq<File>,
                                               added: seq<File>, files': seq<seq<File>>)
    requires Layered(files) && UniqueSeqs(FileEntries(files))
    requires ValidInputs(files, level, in0, in1) && MadeOf(added, in0, in1)
    requires Exchanged(files, level, in0, in1, added, files')
    ensures Layered(files')
  {
    hide NumberedByAge, Newer, UpperClosed, Covered, SortedBySmallest;
    if level == 0 {
      ThinnedByAge(files[0], in0, files'[0]);
    } else {
      ThinnedSorted(files[level], in0, files'[level]);
    }
    ExchangeKeepsLower(files, level, in0, in1, added, files');
    ReplacedTables(files[level], in0, [], files'[level]);
    ReplacedTables(files[level + 1], in1, added, files'[level + 1]);
    ExchangeNewer(files, level, in0, in1, added, files');
  }

  // ----- what an exchange does to the entries -----

  ghost function InputEntries(in0: seq<File>, in1: seq<File>): iset<Entry> {
    LevelEntries(in0) + LevelEntries(in1)
  }

  lemma {:induction false} OneLevelOnly(files: seq<seq<File>>, a: nat, b: nat, e: Entry)
    requires Layered(files) && a < NUM_LEVELS && b < NUM_LEVELS
    requires e in LevelEntries(files[a]) && e in LevelEntries(files[b])
    ensures a == b
  {
    if a < b { LayersNewer(files, a, b, e, e); }
    if b < a { LayersNewer(files, b, a, e, e); }
  }

  lemma {:induction false} UpperNotShared(files: seq<seq<File>>, level: nat, in0: seq<File>, in1: seq<File>, l: nat,
      g: File, e: Entry)
    requires Layered(files) && ValidInputs(files, level, in0, in1)
    requires l < NUM_LEVELS && g in files[l] && e in g.entries && (l == level ==> g !in in0)
    ensures e !in LevelEntries(in0)
  {
    hide Layered, Covered;
    if InLevel(in0, e) {
      var f :| f in in0 && e in f.entries;
      LevelMembers(files[l], g, e);
      LevelMembers(files[level], f, e);
      OneLevelOnly(files, l, level, e);
    }
  }

  lemma {:induction false} OneFileOnly(fs: seq<File>, f: File, g: File, e: Entry)
    requires AllTables(fs) && LevelSorted(fs) && f in fs && g in fs && e in f.entries && e in g.entries
    ensures f == g
  {
    if f != g {
      SortedIsDisjoint(fs, f, g);
      WithinFile(f, e);
      WithinFile(g, e);
    }
  }

  lemma {:induction false} LevelParts(files: seq<seq<File>>, l: nat)
    requires Layered(files) && l < NUM_LEVELS
    ensures |files| == NUM_LEVELS && AllTables(files[l]) && (l > 0 ==> LevelSorted(files[l]))
  {
    hide AllTables, LevelSorted;
  }

  lemma {:induction false} LowerInputs(files: seq<seq<File>>, level: nat, in0: seq<File>, in1: seq<File>)
    requires ValidInputs(files, level, in0, in1)
    ensures SubsetOf(in1, files[level + 1])
  {
    OverlapMembers(files[level + 1], Some(SmallestKey(in0).user), Some(LargestKey(in0).user));
  }

  lemma {:induction false} LowerNotShared(files: seq<seq<File>>, level: nat, in0: seq<File>, in1: seq<File>, l: nat,
      g: File, e: Entry)
    requires Layered(files) && |files| == NUM_LEVELS && level + 1 < NUM_LEVELS && SubsetOf(in1, files[level + 1])
    requires l < NUM_LEVELS && g in files[l] && e in g.entries && (l == level + 1 ==> g !in in1)
    ensures e !in LevelEntries(in1)
  {
    hide Layered, AllTables, LevelSorted;
    LevelParts(files, l);
    if InLevel(in1, e) {
      var f :| f in in1 && e in f.entries;
      LevelMembers(files[l], g, e);
      LevelMembers(files[level + 1], f, e);
      OneLevelOnly(files, l, level + 1, e);
      OneFileOnly(files[l], f, g, e);
    }
  }

  lemma {:induction false} InputsAreStored(files: seq<seq<File>>, level: nat, in0: seq<File>, in1: seq<File>, e: Entry)
    requires ValidInputs(files, level, in0, in1) && e in InputEntries(in0, in1)
    ensures e in FileEntries(files)
  {
    InputsPlace(files, level, in0, in1, e);
    if e in LevelEntries(files[level]) { FileMembers(files, level, e); } else { FileMembers(files, level + 1, e); }
  }

  lemma {:induction false} KeptFile(files: seq<seq<File>>, level: nat, in0: seq<File>, in1: seq<File>,
                                    added: seq<File>, files': seq<seq<File>>, e: Entry) returns (l: nat, g: File)
    requires Exchanged(files, level, in0, in1, added, files')
    requires e in FileEntries(files') && e !in LevelEntries(added)
    ensures l < NUM_LEVELS && g in files[l] && e in g.entries
    ensures (l == level ==> g !in in0) && (l == level + 1 ==> g !in in1)
  {
    l :| 0 <= l < NUM_LEVELS && InLevel(files'[l], e);
    g :| g in files'[l] && e in g.entries;
    assert g !in added;
  }

  lemma {:induction false} ExchangedFrom(files: seq<seq<File>>, level: nat, in0: seq<File>, in1: seq<File>,
                                         added: seq<File>, files': seq<seq<File>>, e: Entry)
    requires Layered(files) && ValidInputs(files, level, in0, in1)
    requires Exchanged(files, level, in0, in1, added, files')
    requires e in FileEntries(files') && e !in LevelEntries(added)
    ensures e in FileEntries(files) && e !in InputEntries(in0, in1)
  {
    var l, g := KeptFile(files, level, in0, in1, added, files', e);
    UpperNotShared(files, level, in0, in1, l, g, e);
    LowerInputs(files, level, in0, in1);
    LowerNotShared(files, level, in0, in1, l, g, e);
    LevelMembers(files[l], g, e);
    FileMembers(files, l, e);
  }

  lemma {:induction false} ExchangedInto(files: seq<seq<File>>, level: nat, in0: seq<File>, in1: seq<File>,
                                         added: seq<File>, files': seq<seq<File>>, e: Entry)
    requires Exchanged(files, level, in0, in1, added, files')
    requires (e in FileEntries(files) && e !in InputEntries(in0, in1)) || e in LevelEntries(added)
    ensures e in FileEntries(files')
  {
    if e in LevelEntries(added) {
      ReplacedMembers(files[level + 1], in1, added, files'[level + 1], e);
      FileMembers(files', level + 1, e);
    } else {
      var l :| 0 <= l < NUM_LEVELS && InLevel(files[l], e);
      if l == level { ReplacedMembers(files[l], in0, [], files'[l], e); }
      if l == level + 1 { ReplacedMembers(files[l], in1, added, files'[l], e); }
      assert e in LevelEntries(files'[l]);
      FileMembers(files', l, e);
    }
  }

  lemma {:induction false} ExchangedStored(files: seq<seq<File>>, level: nat, in0: seq<File>, in1: seq<File>,
                                           added: seq<File>, files': seq<seq<File>>)
    requires Layered(files) && ValidInputs(files, level, in0, in1)
    requires Exchanged(files, level, in0, in1, added, files')
    ensures FileEntries(files') == FileEntries(files) - InputEntries(in0, in1) + LevelEntries(added)
  {
    forall e ensures e in FileEntries(files') <==> e in FileEntries(files) - InputEntries(in0, in1) + LevelEntries(added) {
      if e in FileEntries(files') && e !in LevelEntries(added) {
        ExchangedFrom(files, level, in0, in1, added, files', e);
      }
      if e in FileEntries(files) - InputEntries(in0, in1) + LevelEntries(added) {
        ExchangedInto(files, level, in0, in1, added, files', e);
      }
    }
  }

  lemma {:induction false} FlattenRun(outputs: seq<File>)
    ensures LevelEntries(outputs) == RunEntries(Flatten(outputs))
  {
    forall e ensures e in LevelEntries(outputs) <==> e in RunEntries(Flatten(outputs)) {
      FlattenMembers(outputs, e);
    }
  }

  lemma {:induction false} InputRun(in0: seq<File>, in1: seq<File>, input: seq<Entry>)
    requires MergedInput(in0, in1, input)
    ensures InputEntries(in0, in1) == RunEntries(input)
  {
  }

  /** A merge replaces the entries it read by the ones its loop kept. */
  lemma {:induction false} MergeStored(st: State, level: nat, in0: seq<File>, in1: seq<File>, input: seq<Entry>,
                                       outputs: seq<File>, st': State)
    requires Layered(st.files) && MergeStep(st, level, in0, in1, input, outputs, st')
    ensures FileEntries(st'.files) == FileEntries(st.files) - RunEntries(input) + RunEntries(Flatten(outputs))
  {
    InputRun(in0, in1, input);
    FlattenRun(outputs);
    ExchangedStored(st.files, level, in0, in1, outputs, st'.files);
  }

  lemma {:induction false} OutputsMadeOf(st: State, level: nat, in0: seq<File>, in1: seq<File>, input: seq<Entry>,
      outputs: seq<File>, smallest: nat)
    requires MergedInput(in0, in1, input) && AllTables(outputs)
    requires Flatten(outputs) == Kept(st.files, level, input, |input|, smallest)
    ensures MadeOf(outputs, in0, in1)
    ensures RunEntries(Flatten(outputs)) <= RunEntries(input)
  {
    KeptSorted(st.files, level, input, |input|, smallest);
    KeptMembers(st.files, level, input, |input|, smallest);
    FlattenSorted(outputs);
    forall g, e | g in outputs && e in g.entries ensures InLevel(in0, e) || InLevel(in1, e) {
      LevelMembers(outputs, g, e);
      FlattenMembers(outputs, e);
    }
  }

  lemma {:induction false} MergeNumbered(st: State, level: nat, in0: seq<File>, in1: seq<File>, outputs: seq<File>,
      st': State)
    requires Numbered(st.files, st.nextFile) && Outputs(outputs, st.nextFile)
    requires Exchanged(st.files, level, in0, in1, outputs, st'.files)
    ensures Numbered(st'.files, st.nextFile + |outputs|)
  {
    NumbersAdded(st.files, st.nextFile, level + 1, outputs, st'.files);
  }

  lemma {:induction false} ExchangedOrder(files: seq<seq<File>>, level: nat, in0: seq<File>, in1: seq<File>,
                                          added: seq<File>, files': seq<seq<File>>)
    requires Exchanged(files, level, in0, in1, added, files')
    requires forall l :: 0 <= l < NUM_LEVELS ==> SortedBySmallest(files[l])
    ensures forall l :: 0 <= l < NUM_LEVELS ==> SortedBySmallest(files'[l])
  {
  }

  lemma {:induction false} MergeKeepsFiles(st: State, level: nat, in0: seq<File>, in1: seq<File>, input: seq<Entry>,
                                           outputs: seq<File>, st': State)
    requires FilesOk(st) && UniqueSeqs(FileEntries(st.files)) && MergeStep(st, level, in0, in1, input, outputs, st')
    ensures FilesOk(st')
  {
    OutputsMadeOf(st, level, in0, in1, input, outputs, SmallestSnapshot(st));
    assert Layered(st'.files) by { ExchangeKeepsLayers(st.files, level, in0, in1, outputs, st'.files); }
    ExchangedOrder(st.files, level, in0, in1, outputs, st'.files);
    MergeNumbered(st, level, in0, in1, outputs, st');
  }

  /** Fewer file entries: nothing about the order of the tables is lost. */
  lemma {:induction false} FewerEntriesKeepInv(st: State, st': State)
    requires Inv(st) && FilesOk(st')
    requires st' == st.(files := st'.files, nextFile := st'.nextFile)
    requires FileEntries(st'.files) <= FileEntries(st.files)
    ensures Inv(st')
  {
    assert ImmEntries(st') == ImmEntries(st);
  }

  lemma {:induction false} FilesUnique(st: State)
    requires Inv(st)
    ensures UniqueSeqs(Stored(st)) && UniqueSeqs(FileEntries(st.files))
  {
    EntriesUnique(st.history);
  }

  lemma {:induction false} MergeKeepsInv(st: State, level: nat, in0: seq<File>, in1: seq<File>, input: seq<Entry>,
                                         outputs: seq<File>, st': State)
    requires Inv(st) && MergeStep(st, level, in0, in1, input, outputs, st')
    ensures Inv(st')
  {
    FilesUnique(st);
    MergeKeepsFiles(st, level, in0, in1, input, outputs, st');
    MergeStored(st, level, in0, in1, input, outputs, st');
    OutputsMadeOf(st, level, in0, in1, input, outputs, SmallestSnapshot(st));
    forall e | e in RunEntries(input) ensures e in FileEntries(st.files) {
      InputsAreStored(st.files, level, in0, in1, e);
    }
    FewerEntriesKeepInv(st, st');
  }

  lemma {:induction false} MovedPlace(files: seq<seq<File>>, next: nat, level: nat, f: File, files': seq<seq<File>>,
      l: nat, g: File)
    requires Numbered(files, next) && Exchanged(files, level, [f], [], [f], files') && f in files[level]
    requires l < NUM_LEVELS && g in files'[l]
    ensures if g == f then l == level + 1 else g in files[l]
  {
    assert f in [f];
  }

  lemma {:induction false} ExchangedShape(files: seq<seq<File>>, level: nat, out0: seq<File>, out1: seq<File>,
                                          added: seq<File>, files': seq<seq<File>>)
    requires Exchanged(files, level, out0, out1, added, files')
    ensures |files| == NUM_LEVELS == |files'| && level + 1 < NUM_LEVELS
  {
    hide Replaced;
  }

  lemma {:induction false} MoveNumbered(files: seq<seq<File>>, next: nat, level: nat, f: File, files': seq<seq<File>>)
    requires Numbered(files, next) && Exchanged(files, level, [f], [], [f], files') && f in files[level]
    ensures Numbered(files', next)
  {
    hide Exchanged;
    assert |files'| == NUM_LEVELS == |files| && level + 1 < NUM_LEVELS by { ExchangedShape(files, level, [f], [], [f], files'); }
    forall l, g | 0 <= l < NUM_LEVELS && g in files'[l] ensures g.number < next {
      MovedPlace(files, next, level, f, files', l, g);
    }
    forall l, m, g, h | 0 <= l < NUM_LEVELS && 0 <= m < NUM_LEVELS && g in files'[l] && h in files'[m] && g.number == h.number
      ensures l == m && g == h
    {
      MovedPlace(files, next, level, f, files', l, g);
      MovedPlace(files, next, level, f, files', m, h);
      SameOldFile(files, next, level, f, l, m, g, h);
    }
  }

  lemma {:induction false} SameOldFile(files: seq<seq<File>>, next: nat, level: nat, f: File, l: nat, m: nat, g: File,
      h: File)
    requires Numbered(files, next) && level < |files| && l < |files| && m < |files| && f in files[level]
    requires if g == f then l == level + 1 else g in files[l]
    requires if h == f then m == level + 1 else h in files[m]
    requires g.number == h.number
    ensures l == m && g == h
  {
  }

  lemma {:induction false} MoveStored(st: State, level: nat, f: File, st': State)
    requires Layered(st.files) && MoveStep(st, level, f, st')
    ensures FileEntries(st'.files) == FileEntries(st.files)
  {
    hide Layered, Exchanged, ValidInputs, FileEntries;
    ExchangedStored(st.files, level, [f], [], [f], st'.files);
    assert InputEntries([f], []) == LevelEntries([f]);
    forall e | e in InputEntries([f], []) ensures e in FileEntries(st.files) {
      InputsAreStored(st.files, level, [f], [], e);
    }
  }

  lemma {:induction false} SingleMadeOf(files: seq<seq<File>>, level: nat, f: File)
    requires Layered(files) && ValidInputs(files, level, [f], [])
    ensures f in files[level] && MadeOf([f], [f], [])
  {
    assert f in [f];
  }

  lemma {:induction false} MoveKeepsFiles(st: State, level: nat, f: File, st': State)
    requires FilesOk(st) && UniqueSeqs(FileEntries(st.files)) && MoveStep(st, level, f, st')
    ensures FilesOk(st')
  {
    SingleMadeOf(st.files, level, f);
    assert Layered(st'.files) by { ExchangeKeepsLayers(st.files, level, [f], [], [f], st'.files); }
    ExchangedOrder(st.files, level, [f], [], [f], st'.files);
    MoveNumbered(st.files, st.nextFile, level, f, st'.files);
  }

  lemma {:induction false} MoveKeepsInv(st: State, level: nat, f: File, st': State)
    requires Inv(st) && MoveStep(st, level, f, st')
    ensures Inv(st') && Stored(st') == Stored(st)
  {
    FilesUnique(st);
    MoveKeepsFiles(st, level, f, st');
    MoveStored(st, level, f, st');
    FewerEntriesKeepInv(st, st');
    assert ImmEntries(st') == ImmEntries(st);
  }
}
