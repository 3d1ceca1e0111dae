/** The iterators a compaction merges and a reader merges
    (db/version_set.cc: MakeInputIterator, AddIterators;
    db/db_impl.cc: NewInternalIterator). */
module CompactionChildren {
  import opened InternalKeys
  import opened Versions
  import opened CompactionInputs
  import opened SetupInputs
  import opened CompactionLoop
  import opened LsmState
  import opened LsmInvariants
  import opened MergedRuns

  // ----- the runs of some files -----

  /** One child per file. */
  function EachFile(fs: seq<File>): (r: seq<seq<Entry>>)
    ensures |r| == |fs| && forall i :: 0 <= i < |fs| ==> r[i] == fs[i].entries
  {
    seq(|fs|, i requires 0 <= i < |fs| => fs[i].entries)
  }

  lemma {:induction false} EachFileMembers(fs: seq<File>, e: Entry)
    ensures InRuns(EachFile(fs), e) <==> InLevel(fs, e)
  {
    if InLevel(fs, e) {
      var f :| f in fs && e in f.entries;
      var i :| 0 <= i < |fs| && fs[i] == f;
      assert e in EachFile(fs)[i];
    }
  }

  /** A concatenating iterator over the files of a sorted level. */
  lemma {:induction false} LevelRunSorted(fs: seq<File>)
    requires AllTables(fs) && LevelSorted(fs)
    ensures Sorted(Flatten(fs))
  {
    if |fs| > 0 {
      var n := |fs| - 1;
      var front, last := fs[..n], fs[n];
      assert forall f :: f in front ==> f in fs;
      LevelRunSorted(front);
      assert last in fs;
      var flat := Flatten(front);
      forall i, j | 0 <= i < |flat| && 0 <= j < |last.entries| ensures Less(flat[i].ikey, last.entries[j].ikey) {
        FlattenMembers(front, flat[i]);
        assert flat[i] in flat && last.entries[j] in last.entries;
        var f :| f in front && flat[i] in f.entries;
        var k :| 0 <= k < n && front[k] == f;
        assert Less(fs[k].largest, fs[n].smallest);
        WithinFile(f, flat[i]);
        WithinFile(last, last.entries[j]);
      }
      ConcatSorted(flat, last.entries);
    }
  }

  lemma {:induction false} ConcatSorted(a: seq<Entry>, b: seq<Entry>)
    requires Sorted(a) && Sorted(b)
    requires forall i, j :: 0 <= i < |a| && 0 <= j < |b| ==> Less(a[i].ikey, b[j].ikey)
    ensures Sorted(a + b)
  {
  }

  // ----- gluing children together -----

  lemma {:induction false} InRunsSum(a: seq<seq<Entry>>, b: seq<seq<Entry>>, e: Entry)
    ensures InRuns(a + b, e) <==> InRuns(a, e) || InRuns(b, e)
  {
    if InRuns(a, e) {
      var i :| 0 <= i < |a| && e in a[i];
      assert e in (a + b)[i];
    }
    if InRuns(b, e) {
      var i :| 0 <= i < |b| && e in b[i];
      assert e in (a + b)[|a| + i];
    }
  }

  ghost predicate ApartRuns(a: seq<seq<Entry>>, b: seq<seq<Entry>>) {
    forall x, y :: InRuns(a, x) && InRuns(b, y) ==> x.ikey != y.ikey
  }

  lemma {:induction false} MergeableSum(a: seq<seq<Entry>>, b: seq<seq<Entry>>)
    requires Mergeable(a) && Mergeable(b) && ApartRuns(a, b)
    ensures Mergeable(a + b)
  {
    var c := a + b;
    forall i, j | 0 <= i < j < |c| ensures DistinctKeys(c[i], c[j]) {
      if i < |a| && |a| <= j {
        assert c[i] == a[i] && c[j] == b[j - |a|];
      } else if j < |a| {
        assert DistinctKeys(a[i], a[j]);
      } else {
        assert DistinctKeys(b[i - |a|], b[j - |a|]);
      }
    }
  }

  // ----- level 0 -----

  /** Files of level 0 listed without repetition. */
  ghost predicate DistinctNumbers(fs: seq<File>) {
    forall i, j :: 0 <= i < j < |fs| ==> fs[i].number != fs[j].number
  }

  lemma {:induction false} FilterDistinct(fs: seq<File>, lo: Option<UserKey>, hi: Option<UserKey>)
    requires DistinctNumbers(fs)
    ensures DistinctNumbers(OverlapFilter(fs, lo, hi))
  {
    if |fs| > 0 {
      var n := |fs| - 1;
      FilterDistinct(fs[..n], lo, hi);
      OverlapMembers(fs[..n], lo, hi);
      var front := OverlapFilter(fs[..n], lo, hi);
      forall i | 0 <= i < |front| ensures front[i].number != fs[n].number {
        assert front[i] in front;
      }
    }
  }

  lemma {:induction false} Level0Mergeable(fs: seq<File>, in0: seq<File>)
    requires AllTables(fs) && NumberedByAge(fs) && SubsetOf(in0, fs) && DistinctNumbers(in0)
    ensures Mergeable(EachFile(in0))
  {
    var runs := EachFile(in0);
    assert forall i :: 0 <= i < |in0| ==> in0[i] in in0;
    forall i, j | 0 <= i < j < |runs| ensures DistinctKeys(runs[i], runs[j]) {
      Level0Distinct(fs, in0[i], in0[j]);
    }
  }

  lemma {:induction false} Level0Distinct(fs: seq<File>, f: File, g: File)
    requires NumberedByAge(fs) && f in fs && g in fs && f.number != g.number
    ensures DistinctKeys(f.entries, g.entries)
  {
    var F, G := RunEntries(f.entries), RunEntries(g.entries);
    assert if f.number > g.number then Newer(F, G) else Newer(G, F);
    forall x, y | x in f.entries && y in g.entries ensures x.ikey != y.ikey {
      assert x in F && y in G;
    }
  }

  // ----- MakeInputIterator -----

  /** The children for one of the two input lists. */
  function InputChildren(level: nat, fs: seq<File>): seq<seq<Entry>> {
    if |fs| == 0 then []
    else if level == 0 then EachFile(fs)
    else [Flatten(fs)]
  }

  function MakeInputIterator(level: nat, in0: seq<File>, in1: seq<File>): seq<seq<Entry>> {
    InputChildren(level, in0) + InputChildren(level + 1, in1)
  }

  lemma {:induction false} OneRun(es: seq<Entry>)
    ensures forall e :: InRuns([es], e) <==> e in es
    ensures Sorted(es) ==> Mergeable([es])
  {
    assert forall e :: e in [es][0] ==> InRuns([es], e);
  }

  lemma {:induction false} InputChildrenMembers(level: nat, fs: seq<File>, e: Entry)
    ensures InRuns(InputChildren(level, fs), e) <==> InLevel(fs, e)
  {
    if |fs| == 0 {
    } else if level == 0 {
      EachFileMembers(fs, e);
    } else {
      OneRun(Flatten(fs));
      FlattenMembers(fs, e);
    }
  }

  lemma {:induction false} UpperChildren(fs: seq<File>, level: nat, in0: seq<File>)
    requires AllTables(fs) && Picked(fs, level, in0) && SubsetOf(in0, fs)
    requires if level == 0 then NumberedByAge(fs) else LevelSorted(fs)
    ensures Mergeable(InputChildren(level, in0))
  {
    if level == 0 {
      var lo, hi :| in0 == OverlapFilter(fs, lo, hi) && forall f :: f in in0 ==> Inside(f, lo, hi);
      FilterDistinct(fs, lo, hi);
      Level0Mergeable(fs, in0);
    } else {
      var a, b :| 0 <= a < b <= |fs| && in0 == fs[a..b];
      LevelRunSorted(in0);
      OneRun(Flatten(in0));
    }
  }

  lemma {:induction false} LowerChildren(fs: seq<File>, level: nat, in0: seq<File>, in1: seq<File>)
    requires AllTables(fs) && LevelSorted(fs) && |in0| > 0 && in1 == Covered(fs, in0)
    ensures Mergeable(InputChildren(level + 1, in1))
  {
    var lo, hi := Some(SmallestKey(in0).user), Some(LargestKey(in0).user);
    var a, b := FilterIsSlice(fs, lo, hi);
    assert forall f :: f in in1 ==> f in fs;
    if |in1| > 0 {
      LevelRunSorted(in1);
      OneRun(Flatten(in1));
    }
  }

  /** The children of a compaction have no key in common, and merged they are
      the entries of all its input files. */
  lemma {:induction false} InputIsMergeable(files: seq<seq<File>>, level: nat, in0: seq<File>, in1: seq<File>)
    requires Layered(files) && ValidInputs(files, level, in0, in1) && Picked(files[level], level, in0)
    ensures Mergeable(MakeInputIterator(level, in0, in1))
  {
    hide NumberedByAge, Newer, Picked, UpperClosed, MergedRuns.Mergeable, Covered;
    UpperChildren(files[level], level, in0);
    LowerChildren(files[level + 1], level, in0, in1);
    InputsApart(files, level, in0, in1);
    MergeableSum(InputChildren(level, in0), InputChildren(level + 1, in1));
  }

  /** Runs of newer entries have no key in common with runs of older ones. */
  lemma {:induction false} NewerApart(a: seq<seq<Entry>>, b: seq<seq<Entry>>, S: iset<Entry>, T: iset<Entry>)
    requires Newer(S, T)
    requires forall x :: InRuns(a, x) ==> x in S
    requires forall y :: InRuns(b, y) ==> y in T
    ensures ApartRuns(a, b)
  {
    hide InRuns;
  }

  lemma {:induction false} ChildrenOf(level: nat, some: seq<File>, fs: seq<File>)
    requires SubsetOf(some, fs)
    ensures forall x :: InRuns(InputChildren(level, some), x) ==> x in LevelEntries(fs)
  {
    hide InRuns, InputChildren;
    forall x | InRuns(InputChildren(level, some), x) ensures x in LevelEntries(fs) {
      InputChildrenMembers(level, some, x);
    }
  }

  lemma {:induction false} AdjacentNewer(files: seq<seq<File>>, a: nat, b: nat)
    requires Layered(files) && a < b < NUM_LEVELS
    ensures Newer(LevelEntries(files[a]), LevelEntries(files[b]))
  {
    hide Newer, LevelEntries, AllTables, LevelSorted;
  }

  lemma {:induction false} InputsApart(files: seq<seq<File>>, level: nat, in0: seq<File>, in1: seq<File>)
    requires Layered(files) && ValidInputs(files, level, in0, in1)
    ensures ApartRuns(InputChildren(level, in0), InputChildren(level + 1, in1))
  {
    LowerInputs(files, level, in0, in1);
    AdjacentNewer(files, level, level + 1);
    hide Layered, Covered, UpperClosed, InputChildren, InRuns, SubsetOf, Newer, LevelEntries;
    ChildrenOf(level, in0, files[level]);
    ChildrenOf(level + 1, in1, files[level + 1]);
    NewerApart(InputChildren(level, in0), InputChildren(level + 1, in1), LevelEntries(files[level]), LevelEntries(files[level + 1]));
  }

  lemma {:induction false} InputIsMerged(level: nat, in0: seq<File>, in1: seq<File>)
    requires Mergeable(MakeInputIterator(level, in0, in1))
    ensures MergedInput(in0, in1, MergeAll(MakeInputIterator(level, in0, in1)))
  {
    var runs := MakeInputIterator(level, in0, in1);
    MergeAllSorted(runs);
    hide MergeAll;
    forall e ensures e in MergeAll(runs) <==> InLevel(in0, e) || InLevel(in1, e) {
      MergeAllMembers(runs, e);
      InRunsSum(InputChildren(level, in0), InputChildren(level + 1, in1), e);
      InputChildrenMembers(level, in0, e);
      InputChildrenMembers(level + 1, in1, e);
    }
  }

  // ----- NewInternalIterator -----

  /** Version::AddIterators on the levels above `n`. */
  function AddIterators(files: seq<seq<File>>, n: nat): seq<seq<Entry>>
    requires n <= |files|
  {
    if n == 0 then [] else AddIterators(files, n - 1) + InputChildren(n - 1, files[n - 1])
  }

  function ImmChildren(imm: Option<seq<Entry>>): seq<seq<Entry>> {
    if imm.Some? then [imm.value] else []
  }

  function NewInternalIterator(mem: seq<Entry>, imm: Option<seq<Entry>>, files: seq<seq<File>>): seq<seq<Entry>> {
    [mem] + ImmChildren(imm) + AddIterators(files, |files|)
  }

  lemma {:induction false} AddIteratorsMembers(files: seq<seq<File>>, n: nat, e: Entry)
    requires n <= |files|
    ensures InRuns(AddIterators(files, n), e) <==> e in FileEntries(files[..n])
  {
    hide InRuns, InputChildren;
    if n == 0 {
      NoRuns(e);
    } else {
      AddIteratorsMembers(files, n - 1, e);
      InRunsSum(AddIterators(files, n - 1), InputChildren(n - 1, files[n - 1]), e);
      InputChildrenMembers(n - 1, files[n - 1], e);
      DeeperEntries(files, n - 1);
    }
  }

  lemma {:induction false} NoRuns(e: Entry)
    ensures !InRuns([], e)
  {
  }

  lemma {:induction false} OneLevelMergeable(files: seq<seq<File>>, l: nat)
    requires Layered(files) && l < NUM_LEVELS
    ensures Mergeable(InputChildren(l, files[l]))
  {
    hide Newer;
    if l == 0 {
      Level0Mergeable(files[0], files[0]);
    } else {
      LevelRunSorted(files[l]);
      OneRun(Flatten(files[l]));
    }
  }

  lemma {:induction false} NoneMergeable()
    ensures Mergeable([])
  {
  }

  lemma {:induction false} AddIteratorsMergeable(files: seq<seq<File>>, n: nat)
    requires Layered(files) && n <= NUM_LEVELS
    ensures Mergeable(AddIterators(files, n))
  {
    hide Layered, InRuns, InputChildren, Newer, LevelEntries, FileEntries, MergedRuns.Mergeable;
    assert |files| == NUM_LEVELS by { LevelFacts(files, 0); }
    if n == 0 {
      NoneMergeable();
    } else {
      AddIteratorsMergeable(files, n - 1);
      OneLevelMergeable(files, n - 1);
      UpperNewer(files, n - 1);
      var above := AddIterators(files, n - 1);
      forall x | InRuns(above, x) ensures x in FileEntries(files[..n - 1]) {
        AddIteratorsMembers(files, n - 1, x);
      }
      ChildrenOf(n - 1, files[n - 1], files[n - 1]);
      NewerApart(above, InputChildren(n - 1, files[n - 1]), FileEntries(files[..n - 1]), LevelEntries(files[n - 1]));
      MergeableSum(above, InputChildren(n - 1, files[n - 1]));
    }
  }

  lemma {:induction false} WrittenAfterIsNewer(S: iset<Entry>, T: iset<Entry>)
    requires WrittenAfter(S, T)
    ensures Newer(S, T)
  {
  }

  lemma {:induction false} MemChildren(st: State)
    requires TablesInOrder(st)
    ensures Mergeable([st.mem] + ImmChildren(st.imm))
    ensures forall e :: InRuns([st.mem] + ImmChildren(st.imm), e) <==> e in RunEntries(st.mem) || e in ImmEntries(st)
    ensures WrittenAfter(RunEntries(st.mem) + ImmEntries(st), FileEntries(st.files))
  {
    OneRun(st.mem);
    if st.imm.Some? {
      OneRun(st.imm.value);
      NewerApart([st.mem], [st.imm.value], RunEntries(st.mem), ImmEntries(st));
      MergeableSum([st.mem], [st.imm.value]);
    }
    hide InRuns;
    forall e ensures InRuns([st.mem] + ImmChildren(st.imm), e) <==> e in RunEntries(st.mem) || e in ImmEntries(st) {
      InRunsSum([st.mem], ImmChildren(st.imm), e);
      NoRuns(e);
    }
  }

  /** The iterator a reader gets merges exactly the stored entries. */
  lemma {:induction false} InternalIteratorIsStored(st: State)
    requires Inv(st)
    ensures var runs := NewInternalIterator(st.mem, st.imm, st.files);
            Mergeable(runs) && Sorted(MergeAll(runs)) && RunEntries(MergeAll(runs)) == Stored(st)
  {
    var upper, lower := [st.mem] + ImmChildren(st.imm), AddIterators(st.files, |st.files|);
    assert st.files[..|st.files|] == st.files;
    MemChildren(st);
    AddIteratorsMergeable(st.files, NUM_LEVELS);
    WrittenAfterIsNewer(RunEntries(st.mem) + ImmEntries(st), FileEntries(st.files));
    hide Inv, InRuns, AddIterators, ImmChildren, FileEntries, RunEntries, MergedRuns.Mergeable, MergeAll, WrittenAfter, Newer;
    forall e ensures InRuns(lower, e) <==> e in FileEntries(st.files) {
      AddIteratorsMembers(st.files, |st.files|, e);
    }
    NewerApart(upper, lower, RunEntries(st.mem) + ImmEntries(st), FileEntries(st.files));
    MergeableSum(upper, lower);
    MergeAllSorted(upper + lower);
    forall e ensures e in MergeAll(upper + lower) <==> e in Stored(st) {
      MergeAllMembers(upper + lower, e);
      InRunsSum(upper, lower, e);
    }
    RunsAsSets(MergeAll(upper + lower), Stored(st));
  }

  lemma {:induction false} RunsAsSets(es: seq<Entry>, S: iset<Entry>)
    requires forall e :: e in es <==> e in S
    ensures RunEntries(es) == S
  {
  }
}
