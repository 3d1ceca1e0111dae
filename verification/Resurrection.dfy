/** A run of the program in which a deleted key comes back.

    SetupOtherInputs looks for boundary files at the upper level only
    (db/version_set.cc).  Here a snapshot makes a manual compaction keep both versions
    of key 5, and the output reaches its size limit between them; once the snapshot is
    gone, a second manual compaction takes in the table that ends with the deletion
    marker, not the table that starts with the value it hides, and drops the marker. */
module Resurrection {
  import opened InternalKeys
  import opened FlatHistory
  import opened Versions
  import opened CompactionInputs
  import opened SetupInputs
  import opened CompactionLoop
  import opened LsmState
  import opened LsmReads
  import opened LsmRuns
  import opened DbImpl

  // ----- table sizes -----

  /** The defaults of Options: block_size and max_file_size. */
  const BLOCK_SIZE := 4096
  const MAX_FILE_SIZE := 2_097_152

  /** Lengths, user key and tag of an entry, with its value. */
  function EntrySize(e: Entry): nat { |e.value| + 20 }

  /** The block being filled once `es` are added: written out when it is full. */
  function OpenBlock(es: seq<Entry>): nat {
    if |es| == 0 then 0
    else
      var block := OpenBlock(es[..|es| - 1]) + EntrySize(es[|es| - 1]);
      if block >= BLOCK_SIZE then 0 else block
  }

  /** The blocks written out so far. */
  function Flushed(es: seq<Entry>): nat {
    if |es| == 0 then 0
    else
      var block := OpenBlock(es[..|es| - 1]) + EntrySize(es[|es| - 1]);
      Flushed(es[..|es| - 1]) + if block >= BLOCK_SIZE then block else 0
  }

  function Finished(es: seq<Entry>): nat { Flushed(es) + OpenBlock(es) }

  /** Uncompressed data blocks; the index and the footer are not counted. */
  function Sizes(): FileSize { FileSize(Flushed, Finished) }

  // ----- the run -----

  function Big(): (v: Value) ensures |v| == 2_094_576 { seq(2_094_576, _ => 'x') }
  function Fill(): (v: Value) ensures |v| == 4_060 { seq(4_060, _ => 'y') }

  const PUT4 := Op(4.0, TypeValue, Fill())
  const PUT5 := Op(5.0, TypeValue, "v")
  const DEL5 := Op(5.0, TypeDeletion, "")
  const BIG3 := Op(3.0, TypeValue, Big())
  const PUT3 := Op(3.0, TypeValue, "w")
  const E1 := Entry(InternalKey(4.0, 1, TypeValue), Fill())
  const E2 := Entry(InternalKey(5.0, 2, TypeValue), "v")
  const E3 := Entry(InternalKey(5.0, 3, TypeDeletion), "")
  const E4 := Entry(InternalKey(3.0, 4, TypeValue), Big())
  const E5 := Entry(InternalKey(3.0, 5, TypeValue), "w")

  function Table(number: nat, es: seq<Entry>): (f: File)
    requires |es| > 0 && Sorted(es) && forall e :: e in es ==> e.ikey.sequence <= MAX_SEQUENCE
    ensures IsTable(f)
  {
    FinishOutput(number, Finished(es), es)
  }

  /** The older table at level 2, the one flushed above it, the two the first merge
      writes, the second one flushed above them, and what the last merge writes. */
  const Z: File := Table(3, [E1])
  const A: File := Table(5, [E4, E3, E2])
  const F1: File := Table(6, [E4, E1, E3])
  const F2: File := Table(7, [E2])
  const G: File := Table(9, [E5])
  const H: File := Table(10, [E5, E1])

  const H1 := [PUT4]
  const H2 := [PUT4, PUT5]
  const H4 := [PUT4, PUT5, DEL5, BIG3]
  const H5 := [PUT4, PUT5, DEL5, BIG3, PUT3]

  function Levels(one: seq<File>, two: seq<File>): (r: seq<seq<File>>)
    ensures |r| == NUM_LEVELS && r[1] == one && r[2] == two
    ensures forall l :: 0 <= l < NUM_LEVELS && l != 1 && l != 2 ==> r[l] == []
  {
    [[], one, two, [], [], [], []]
  }

  function TheStates(): seq<State> {
    [State([], [], None, Levels([], []), [], 2),
     State(H1, [E1], None, Levels([], []), [], 2),
     State(H1, [], Some([E1]), Levels([], []), [], 3),
     State(H1, [], None, Levels([], [Z]), [], 4),
     State(H2, [E2], None, Levels([], [Z]), [], 4),
     State(H2, [E2], None, Levels([], [Z]), [2], 4),
     State(H4, [E4, E3, E2], None, Levels([], [Z]), [2], 4),
     State(H4, [], Some([E4, E3, E2]), Levels([], [Z]), [2], 5),
     State(H4, [], None, Levels([A], [Z]), [2], 6),
     State(H4, [], None, Levels([], [F1, F2]), [2], 8),
     State(H4, [], None, Levels([], [F1, F2]), [], 8),
     State(H5, [E5], None, Levels([], [F1, F2]), [], 8),
     State(H5, [], Some([E5]), Levels([], [F1, F2]), [], 9),
     State(H5, [], None, Levels([G], [F1, F2]), [], 10),
     State(H5, [], None, Levels([], [H, F2]), [], 11)]
  }

  function TheActions(): seq<Action> {
    [Write([PUT4]), SwitchMemTable, Flush(2, Z), Write([PUT5]), TakeSnapshot, Write([DEL5, BIG3]), SwitchMemTable,
     Flush(1, A), Merge(1, [A], [Z], [E4, E1, E3, E2], [F1, F2]), ReleaseSnapshot(0), Write([PUT3]), SwitchMemTable,
     Flush(1, G), Merge(1, [G], [F1], [E5, E4, E1, E3], [H])]
  }

  // ----- the writes -----

  lemma {:induction false} Write1()
    ensures WriteStep(TheStates()[0], [PUT4], TheStates()[1])
  {
    assert [] + [PUT4] == H1;
    forall e ensures e in NewEntries([], [PUT4]) <==> e == E1 {
      if e in NewEntries([], [PUT4]) { assert e == EntryAt(H1, 0); }
    }
  }

  lemma {:induction false} Write2()
    ensures WriteStep(TheStates()[3], [PUT5], TheStates()[4])
  {
    assert H1 + [PUT5] == H2;
    assert Written(H2, E2);
    forall e ensures e in NewEntries(H1, [PUT5]) <==> e == E2 {
      if e in NewEntries(H1, [PUT5]) { assert e == EntryAt(H2, 1); }
    }
    assert RunEntries([E2]) == RunEntries([]) + NewEntries(H1, [PUT5]);
  }

  lemma {:induction false} Write3()
    ensures WriteStep(TheStates()[5], [DEL5, BIG3], TheStates()[6])
  {
    assert H2 + [DEL5, BIG3] == H4;
    assert Written(H4, E3) && Written(H4, E4);
    forall e ensures e in NewEntries(H2, [DEL5, BIG3]) <==> e == E3 || e == E4 {
      if e in NewEntries(H2, [DEL5, BIG3]) { assert e == EntryAt(H4, 2) || e == EntryAt(H4, 3); }
    }
    assert RunEntries([E4, E3, E2]) == RunEntries([E2]) + NewEntries(H2, [DEL5, BIG3]);
  }

  lemma {:induction false} Write4()
    ensures WriteStep(TheStates()[10], [PUT3], TheStates()[11])
  {
    assert H4 + [PUT3] == H5;
    assert Written(H5, E5);
    forall e ensures e in NewEntries(H4, [PUT3]) <==> e == E5 {
      if e in NewEntries(H4, [PUT3]) { assert e == EntryAt(H5, 4); }
    }
    assert RunEntries([E5]) == RunEntries([]) + NewEntries(H4, [PUT3]);
  }

  // ----- the sizes -----

  /** The deletion marker fills the block that takes the output past its limit. */
  lemma {:induction false} FirstOutputSize()
    ensures Flushed([E4]) == 2_094_596 && Flushed([E4, E1]) == 2_094_596
    ensures Flushed([E4, E1, E3]) == 2_098_696 == F1.size
  {
    assert [E4, E1, E3][..2] == [E4, E1] && [E4, E1][..1] == [E4] && [E4][..0] == [];
    assert OpenBlock([E4]) == 0;
    assert OpenBlock([E4, E1]) == 4_080;
  }

  lemma {:induction false} OlderSize()
    ensures Z.size == 4_080
  {
    assert [E1][..0] == [];
  }

  lemma {:induction false} OneOverlapping(f: File, lo: Option<UserKey>, hi: Option<UserKey>)
    ensures OverlapFilter([], lo, hi) == [] && TotalFileSize([]) == 0
    ensures OverlapFilter([f], lo, hi) == (if Overlaps(f, lo, hi) then [f] else [])
    ensures TotalFileSize([f]) == f.size
  {
    assert [f][..0] == [];
  }

  // ----- the flushes -----

  lemma {:induction false} Picks1()
    ensures PicksLevel(Levels([], []), Z, MAX_FILE_SIZE, 2)
  {
    OneOverlapping(Z, Some(4.0), Some(4.0));
  }

  lemma {:induction false} Flush1()
    ensures FlushStep(TheStates()[2], 2, Z, TheStates()[3])
    ensures CodeChooses(TheStates()[2], Flush(2, Z), false, MAX_FILE_SIZE, Sizes())
  {
    hide PicksLevel, OpenBlock, Flushed;
    assert Replaced([], [], [Z], [Z]);
    Picks1();
  }

  lemma {:induction false} Picks2()
    ensures PicksLevel(Levels([], [Z]), A, MAX_FILE_SIZE, 1)
  {
    OneOverlapping(Z, Some(3.0), Some(5.0));
    OlderSize();
    assert Z in [Z] && Overlaps(Z, Some(3.0), Some(5.0));
  }

  lemma {:induction false} Flush2()
    ensures FlushStep(TheStates()[7], 1, A, TheStates()[8])
    ensures CodeChooses(TheStates()[7], Flush(1, A), false, MAX_FILE_SIZE, Sizes())
  {
    hide PicksLevel, OpenBlock, Flushed;
    assert Replaced([], [], [A], [A]);
    Picks2();
  }

  lemma {:induction false} Picks3()
    ensures PicksLevel(Levels([], [F1, F2]), G, MAX_FILE_SIZE, 1)
  {
    LowerFiltered();
    FirstOutputSize();
    OneOverlapping(F1, Some(3.0), Some(3.0));
    assert F1 in [F1, F2] && Overlaps(F1, Some(3.0), Some(3.0));
  }

  lemma {:induction false} Flush3()
    ensures FlushStep(TheStates()[12], 1, G, TheStates()[13])
    ensures CodeChooses(TheStates()[12], Flush(1, G), false, MAX_FILE_SIZE, Sizes())
  {
    hide PicksLevel, OpenBlock, Flushed;
    assert Replaced([], [], [G], [G]);
    Picks3();
  }

  // ----- the first merge -----

  lemma {:induction false} UpperAlone(f: File)
    ensures SubsetOf([f], [f]) && UpperClosed([f], [f]) && SmallestKey([f]) == f.smallest
    ensures LargestKey([f]) == f.largest
  {
  }

  lemma {:induction false} Merge1Kept()
    ensures Kept(Levels([A], [Z]), 1, [E4, E1, E3, E2], 4, 2) == [E4, E1, E3, E2]
  {
    var files, input := Levels([A], [Z]), [E4, E1, E3, E2];
    assert Kept(files, 1, input, 1, 2) == [E4];
    assert Kept(files, 1, input, 2, 2) == [E4, E1];
    assert Kept(files, 1, input, 3, 2) == [E4, E1, E3];
  }

  lemma {:induction false} Merge1Files()
    ensures Exchanged(Levels([A], [Z]), 1, [A], [Z], [F1, F2], Levels([], [F1, F2]))
  {
    assert Replaced([A], [A], [], []);
    assert Replaced([Z], [Z], [F1, F2], [F1, F2]);
  }

  lemma {:induction false} Outputs1()
    ensures Outputs([F1, F2], 6) && Flatten([F1, F2]) == [E4, E1, E3, E2]
  {
    hide Finished, Less, IsTable;
    assert [F1, F2][..1] == [F1] && [F1][..0] == [];
    assert Flatten([F1]) == [E4, E1, E3];
  }

  /** The limit is reached with the deletion marker and no sooner. */
  lemma {:induction false} Cut1()
    ensures RightlyCut([F1, F2], Sizes(), MAX_FILE_SIZE, false)
  {
    FirstOutputSize();
    assert [E4, E1, E3][..2] == [E4, E1] && [E4, E1, E3][..1] == [E4];
    assert Filled(F1, Sizes(), MAX_FILE_SIZE);
  }

  lemma {:induction false} Input1()
    ensures MergedInput([A], [Z], [E4, E1, E3, E2])
  {
    hide OpenBlock, Flushed;
    assert A in [A] && Z in [Z];
  }

  lemma {:induction false} NothingBelow(one: seq<File>, two: seq<File>, in0: seq<File>, in1: seq<File>)
    ensures !TooMuchBelow(Levels(one, two), 1, in0, in1, MAX_FILE_SIZE)
  {
  }

  lemma {:induction false} Merge1()
    ensures MergeStep(TheStates()[8], 1, [A], [Z], [E4, E1, E3, E2], [F1, F2], TheStates()[9])
    ensures CodeChooses(TheStates()[8], Merge(1, [A], [Z], [E4, E1, E3, E2], [F1, F2]), true, MAX_FILE_SIZE, Sizes())
  {
    hide Kept, Exchanged, UpperClosed, Flatten, Outputs, RightlyCut, TooMuchBelow, MergedInput, Less, IsTable, Sorted,
         OpenBlock, Flushed;
    UpperAlone(A);
    OneOverlapping(Z, Some(3.0), Some(5.0));
    Input1();
    Merge1Kept();
    Merge1Files();
    Outputs1();
    Cut1();
    NothingBelow([A], [Z], [A], [Z]);
  }

  // ----- the last merge -----

  lemma {:induction false} LowerFiltered()
    ensures OverlapFilter([F1, F2], Some(3.0), Some(3.0)) == [F1]
  {
    assert [F1, F2][..1] == [F1];
    OneOverlapping(F1, Some(3.0), Some(3.0));
  }

  lemma {:induction false} Merge2Kept()
    ensures Kept(Levels([G], [F1, F2]), 1, [E5, E4, E1, E3], 4, 5) == [E5, E1]
  {
    var files, input := Levels([G], [F1, F2]), [E5, E4, E1, E3];
    assert Kept(files, 1, input, 1, 5) == [E5];
    assert Hidden(input, 1, 5);
    assert Kept(files, 1, input, 2, 5) == [E5];
    assert Kept(files, 1, input, 3, 5) == [E5, E1];
    assert BaseLevel(files, 1, 5.0);
    assert Obsolete(files, 1, E3, 5);
  }

  lemma {:induction false} Merge2Files()
    ensures Exchanged(Levels([G], [F1, F2]), 1, [G], [F1], [H], Levels([], [H, F2]))
  {
    assert Replaced([G], [G], [], []);
    assert F1 != F2;
    assert Replaced([F1, F2], [F1], [H], [H, F2]);
  }

  lemma {:induction false} Input2()
    ensures MergedInput([G], [F1], [E5, E4, E1, E3])
  {
    hide OpenBlock, Flushed;
    assert G in [G] && F1 in [F1];
  }

  lemma {:induction false} Outputs2()
    ensures Outputs([H], 10) && Flatten([H]) == [E5, E1]
  {
    hide OpenBlock, Flushed, Less;
    assert [H][..0] == [];
  }

  lemma {:induction false} Cut2()
    ensures RightlyCut([H], Sizes(), MAX_FILE_SIZE, false)
  {
    assert [E5, E1][..1] == [E5] && [E5][..0] == [];
  }

  lemma {:induction false} Merge2()
    ensures MergeStep(TheStates()[13], 1, [G], [F1], [E5, E4, E1, E3], [H], TheStates()[14])
    ensures CodeChooses(TheStates()[13], Merge(1, [G], [F1], [E5, E4, E1, E3], [H]), true, MAX_FILE_SIZE, Sizes())
  {
    hide Kept, Exchanged, UpperClosed, RightlyCut, TooMuchBelow, MergedInput, Outputs, Flatten, Less, IsTable, Sorted,
         OpenBlock, Flushed;
    UpperAlone(G);
    LowerFiltered();
    Input2();
    Merge2Kept();
    Merge2Files();
    Outputs2();
    Cut2();
    NothingBelow([G], [F1, F2], [G], [F1]);
  }

  // ----- the run and its end -----

  lemma {:induction false} ItIsARun()
    ensures IsRun(TheStates(), TheActions())
  {
    hide WriteStep, FlushStep, MergeStep, CodeChooses, OpenBlock, Flushed, IsTable, Less;
    Write1();
    Write2();
    Write3();
    Write4();
    Flush1();
    Flush2();
    Flush3();
    Merge1();
    Merge2();
    var states, actions := TheStates(), TheActions();
    assert states[0].files == Init().files;
    forall i | 0 <= i < |actions| ensures Step(states[i], actions[i], states[i + 1]) {
    }
  }

  /** Each step is one the code would take, its merges on request. */
  lemma {:induction false} TheCodeTakesIt(i: nat)
    requires i < |TheActions()|
    ensures CodeChooses(TheStates()[i], TheActions()[i], TheActions()[i].Merge?, MAX_FILE_SIZE, Sizes())
  {
    hide FlushStep, MergeStep, PicksLevel, RightlyCut, Movable, OpenBlock, Flushed, IsTable, Less;
    Flush1();
    Flush2();
    Flush3();
    Merge1();
    Merge2();
  }

  lemma {:induction false} ReplayedHistory()
    ensures Lookup(Replay(H5), 5.0) == None
  {
    assert H5[..4] == H4 && H4[..3][..2] == H2;
    assert 5.0 !in Replay(H4[..3]);
    assert 5.0 !in Replay(H4);
  }

  lemma {:induction false} LeftInFiles(e: Entry)
    ensures e in FileEntries(Levels([], [H, F2])) <==> e == E5 || e == E1 || e == E2
  {
    var files := Levels([], [H, F2]);
    assert H in files[2] && F2 in files[2];
    assert InLevel(files[2], E5) && InLevel(files[2], E1) && InLevel(files[2], E2);
    if l :| 0 <= l < NUM_LEVELS && InLevel(files[l], e) {
      assert l == 2;
    }
  }

  lemma {:induction false} KeyIsShown()
    ensures View(Stored(TheStates()[14]), 5.0, 5) == Some("v")
  {
    var S := Stored(TheStates()[14]);
    forall e ensures e in S <==> e == E5 || e == E1 || e == E2 {
      LeftInFiles(e);
    }
    assert NewestAt(S, 5.0, 5, E2);
    ViewOfNewest(S, 5.0, 5, E2);
  }

  /** The deleted key reads as present at the end of a run the code can take. */
  lemma {:induction false} DeletedKeyReturns()
    ensures IsRun(TheStates(), TheActions())
    ensures forall i: nat :: i < |TheActions()| ==>
              CodeChooses(TheStates()[i], TheActions()[i], TheActions()[i].Merge?, MAX_FILE_SIZE, Sizes())
    ensures var st := TheStates()[14];
            && Lookup(Replay(st.history), 5.0) == None
            && View(Stored(st), 5.0, |st.history|) == Some("v")
            && !ReadsOk(st)
  {
    hide IsRun, Replay, ReadsOk, View, Stored, CodeChooses;
    ItIsARun();
    forall i: nat | i < |TheActions()|
      ensures CodeChooses(TheStates()[i], TheActions()[i], TheActions()[i].Merge?, MAX_FILE_SIZE, Sizes())
    {
      TheCodeTakesIt(i);
    }
    ReplayedHistory();
    KeyIsShown();
    var st := TheStates()[14];
    assert st.history[..5] == st.history;
    if ReadsOk(st) { ReadsAreReplay(st, 5.0, 5); }
  }
}
