/** Whole runs of the store. */
module LsmRuns {
  import opened InternalKeys
  import opened FlatHistory
  import opened Versions
  import opened CompactionInputs
  import opened SetupInputs
  import opened CompactionLoop
  import opened LsmState
  import opened LsmInvariants
  import opened LsmReads

  // ----- one step -----

  lemma {:induction false} EmptyFilesOk(files: seq<seq<File>>)
    requires |files| == NUM_LEVELS && forall l :: 0 <= l < NUM_LEVELS ==> files[l] == []
    ensures Layered(files) && FileEntries(files) == iset{} && Numbered(files, 2)
  {
    hide LevelEntries, AllTables, NumberedByAge, LevelSorted, Newer;
    EmptyLevelOk();
  }

  lemma {:induction false} EmptyLevelOk()
    ensures AllTables([]) && NumberedByAge([]) && LevelSorted([])
    ensures LevelEntries([]) == iset{} && Newer(iset{}, iset{})
  {
  }

  lemma {:induction false} InitFiles()
    ensures FilesOk(Init()) && FileEntries(Init().files) == iset{}
  {
    hide Layered, Numbered, FileEntries;
    EmptyFilesOk(Init().files);
  }

  lemma {:induction false} InitHolds()
    ensures Inv(Init()) && ReadsOk(Init())
  {
    InitFiles();
    hide FilesOk, FileEntries;
    var st := Init();
    assert Stored(st) == iset{};
    forall k, s | 0 <= s <= 0 ensures View(Stored(st), k, s) == View(Entries([]), k, s) {
      ViewOfNothing(Stored(st), k, s);
      ViewOfNothing(Entries([]), k, s);
    }
  }

  lemma {:induction false} SnapshotsKeepInv(st: State, st': State)
    requires Inv(st) && SnapshotsOk(st') && st' == st.(snapshots := st'.snapshots)
    ensures Inv(st') && Stored(st') == Stored(st)
  {
    hide Layered, Newer, WrittenAfter, Numbered;
    assert ImmEntries(st') == ImmEntries(st);
  }

  lemma {:induction false} DropKeepsInv(st: State, st': State)
    requires Inv(st) && DropStep(st, st')
    ensures Inv(st') && Stored(st') == Stored(st)
  {
    assert ImmEntries(st') == iset{} && ImmEntries(st) == iset{};
  }

  lemma {:induction false} StepKeepsInv(st: State, a: Action, st': State)
    requires Inv(st) && Step(st, a, st')
    ensures Inv(st')
  {
    hide Inv, WriteStep, SwitchStep, DropStep, FlushStep, MoveStep, MergeStep;
    match a
    case Write(ops) => WriteKeepsInv(st, ops, st');
    case SwitchMemTable => SwitchKeepsInv(st, st');
    case DropEmptyMemTable => DropKeepsInv(st, st');
    case Flush(level, f) => FlushKeepsInv(st, level, f, st');
    case TrivialMove(level, f) => MoveKeepsInv(st, level, f, st');
    case Merge(level, in0, in1, input, outputs) => MergeKeepsInv(st, level, in0, in1, input, outputs, st');
    case TakeSnapshot => SnapshotStep(st, a, st');
    case ReleaseSnapshot(i) => SnapshotStep(st, a, st');
  }

  lemma {:induction false} ReleaseKeepsOrder(st: State, n: nat, st': State)
    requires SnapshotsOk(st) && ReleaseStep(st, n, st')
    ensures SnapshotsOk(st')
  {
    var at := (i: int) => if i < n then i else i + 1;
    assert forall i :: 0 <= i < |st'.snapshots| ==> st'.snapshots[i] == st.snapshots[at(i)];
    assert forall s :: s in st'.snapshots ==> s in st.snapshots;
  }

  lemma {:induction false} TakeKeepsOrder(st: State, st': State)
    requires SnapshotsOk(st) && st' == st.(snapshots := st.snapshots + [|st.history|])
    ensures SnapshotsOk(st')
  {
    assert forall i :: 0 <= i < |st.snapshots| ==> st.snapshots[i] in st.snapshots;
  }

  lemma {:induction false} SnapshotStep(st: State, a: Action, st': State)
    requires Inv(st) && Step(st, a, st') && (a.TakeSnapshot? || a.ReleaseSnapshot?)
    ensures Inv(st') && Stored(st') == Stored(st) && SmallestSnapshot(st) <= SmallestSnapshot(st')
  {
    hide FilesOk, TablesInOrder, Stored, FlushStep, MoveStep, MergeStep;
    if a.ReleaseSnapshot? {
      ReleaseKeepsOrder(st, a.index, st');
    } else {
      TakeKeepsOrder(st, st');
    }
    assert SnapshotsOk(st');
    SnapshotsKeepInv(st, st');
    assert st.snapshots != [] ==> st.snapshots[0] in st.snapshots;
  }

  /** A merge step that resurrects no key; every other step qualifies. */
  ghost predicate Faithful(st: State, a: Action) {
    a.Merge? ==> !Resurrects(st, a.mergeLevel, a.in0, a.in1)
  }

  /** Writes show the same additions everywhere. */
  lemma {:induction false} WriteReads(st: State, ops: seq<Op>, st': State)
    requires Inv(st) && ReadsOk(st) && WriteStep(st, ops, st')
    ensures ReadsOk(st')
  {
    WriteKeepsInv(st, ops, st');
    EntriesGrow(st.history, ops);
    FilesUnique(st');
    EntriesUnique(st'.history);
    SmallestIsWritten(st);
    assert Stored(st) <= Entries(st.history);
    hide Inv, WriteStep, Stored;
    var h, N := st.history, NewEntries(st.history, ops);
    forall k, s | SmallestSnapshot(st') <= s <= |st'.history|
      ensures View(Stored(st'), k, s) == View(Entries(st'.history), k, s)
    {
      var t := if s <= |h| then s else |h|;
      assert View(Stored(st), k, t) == View(Entries(h), k, t);
      ViewExtends(Stored(st), Entries(h), N, |h|, k, s);
    }
  }

  lemma {:induction false} SmallestIsWritten(st: State)
    requires SnapshotsOk(st)
    ensures SmallestSnapshot(st) <= |st.history|
  {
    if st.snapshots != [] { assert st.snapshots[0] in st.snapshots; }
  }

  /** Adding the same newer entries to two sets that agree up to `n`. */
  lemma {:induction false} ViewExtends(A: iset<Entry>, B: iset<Entry>, N: iset<Entry>, n: nat, k: UserKey, s: nat)
    requires UniqueSeqs(A + N) && UniqueSeqs(B + N)
    requires forall x :: x in A || x in B ==> x.ikey.sequence <= n
    requires forall x :: x in N ==> x.ikey.sequence > n
    requires var t := if s <= n then s else n; View(A, k, t) == View(B, k, t)
    ensures View(A + N, k, s) == View(B + N, k, s)
  {
    var t := if s <= n then s else n;
    var e := FindNewest(N, k, s);
    if e.Some? {
      assert NewestAt(A + N, k, s, e.value) && NewestAt(B + N, k, s, e.value);
      ViewOfNewest(A + N, k, s, e.value);
      ViewOfNewest(B + N, k, s, e.value);
    } else {
      ViewWithout(A, N, n, k, s);
      ViewWithout(B, N, n, k, s);
    }
  }

  lemma {:induction false} ViewWithout(A: iset<Entry>, N: iset<Entry>, n: nat, k: UserKey, s: nat)
    requires UniqueSeqs(A + N) && forall x :: x in A ==> x.ikey.sequence <= n
    requires forall x :: x in N && x.ikey.user == k ==> x.ikey.sequence > s
    ensures View(A + N, k, s) == View(A, k, if s <= n then s else n)
  {
    var t := if s <= n then s else n;
    assert UniqueSeqs(A) by { assert forall x :: x in A ==> x in A + N; }
    var e := FindNewest(A, k, t);
    if e.Some? {
      assert NewestAt(A + N, k, s, e.value);
      ViewOfNewest(A + N, k, s, e.value);
      ViewOfNewest(A, k, t, e.value);
    } else {
      ViewOfNothing(A + N, k, s);
      ViewOfNothing(A, k, t);
    }
  }

  /** Steps that change neither entries nor history, and release nothing early. */
  lemma {:induction false} SameEntriesRead(st: State, st': State)
    requires ReadsOk(st) && Stored(st') == Stored(st) && st'.history == st.history
    requires SmallestSnapshot(st) <= SmallestSnapshot(st')
    ensures ReadsOk(st')
  {
    hide Stored, Entries;
    forall k, s | SmallestSnapshot(st') <= s <= |st'.history|
      ensures View(Stored(st'), k, s) == View(Entries(st'.history), k, s)
    {
      assert View(Stored(st), k, s) == View(Entries(st.history), k, s);
    }
  }

  /** One step keeps all live reads right exactly when it is faithful. */
  lemma {:induction false} StepReads(st: State, a: Action, st': State)
    requires Inv(st) && ReadsOk(st) && Step(st, a, st')
    ensures ReadsOk(st') <==> Faithful(st, a)
  {
    hide Inv, ReadsOk, WriteStep, Stored, Resurrects, Exchanged, ValidInputs, Replaced, LevelForOutput;
    match a
    case Write(ops) => WriteReads(st, ops, st');
    case SwitchMemTable => SwitchKeepsInv(st, st'); SameEntriesRead(st, st');
    case DropEmptyMemTable => DropKeepsInv(st, st'); SameEntriesRead(st, st');
    case Flush(level, f) => FlushKeepsInv(st, level, f, st'); SameEntriesRead(st, st');
    case TrivialMove(level, f) => MoveKeepsInv(st, level, f, st'); SameEntriesRead(st, st');
    case Merge(level, in0, in1, input, outputs) => MergeReads(st, level, in0, in1, input, outputs, st');
    case TakeSnapshot => SnapshotStep(st, a, st'); SameEntriesRead(st, st');
    case ReleaseSnapshot(i) => SnapshotStep(st, a, st'); SameEntriesRead(st, st');
  }

  // ----- runs -----

  ghost predicate IsRun(states: seq<State>, actions: seq<Action>) {
    && |states| == |actions| + 1 && states[0] == Init()
    && forall i :: 0 <= i < |actions| ==> Step(states[i], actions[i], states[i + 1])
  }

  /** A run, or a stretch of one: the steps from any sound state on. */
  ghost predicate IsStretch(states: seq<State>, actions: seq<Action>) {
    && |states| == |actions| + 1 && Inv(states[0])
    && forall i :: 0 <= i < |actions| ==> Step(states[i], actions[i], states[i + 1])
  }

  lemma {:induction false} RunIsStretch(states: seq<State>, actions: seq<Action>)
    requires IsRun(states, actions)
    ensures IsStretch(states, actions)
  {
    hide Inv, Step;
    InitHolds();
  }

  lemma {:induction false} StretchKeepsInv(states: seq<State>, actions: seq<Action>, n: nat)
    requires IsStretch(states, actions) && n < |states|
    ensures Inv(states[n])
  {
    hide Inv, Step;
    if n > 0 {
      StretchKeepsInv(states, actions, n - 1);
      StepKeepsInv(states[n - 1], actions[n - 1], states[n]);
    }
  }

  lemma {:induction false} RunKeepsInv(states: seq<State>, actions: seq<Action>, n: nat)
    requires IsRun(states, actions) && n < |states|
    ensures Inv(states[n])
  {
    hide Inv, Step;
    RunIsStretch(states, actions);
    StretchKeepsInv(states, actions, n);
  }

  lemma {:induction false} FaithfulRunReads(states: seq<State>, actions: seq<Action>, n: nat)
    requires IsRun(states, actions) && n < |states|
    requires forall i :: 0 <= i < n ==> Faithful(states[i], actions[i])
    ensures ReadsOk(states[n])
  {
    hide Inv, Step, Init, ReadsOk, Faithful;
    if n == 0 {
      InitHolds();
    } else {
      RunKeepsInv(states, actions, n - 1);
      FaithfulRunReads(states, actions, n - 1);
      StepReads(states[n - 1], actions[n - 1], states[n]);
    }
  }

  /** The main theorem: along a run every read at every live snapshot is right in
      every state if and only if no merge of the run resurrects a key. */
  lemma {:induction false} RunsReadRight(states: seq<State>, actions: seq<Action>)
    requires IsRun(states, actions)
    ensures (forall n :: 0 <= n < |states| ==> ReadsOk(states[n])) <==>
            (forall i :: 0 <= i < |actions| ==> Faithful(states[i], actions[i]))
  {
    hide Inv, Step, Init, ReadsOk, Faithful;
    if forall n :: 0 <= n < |states| ==> ReadsOk(states[n]) {
      forall i | 0 <= i < |actions| ensures Faithful(states[i], actions[i]) {
        RunKeepsInv(states, actions, i);
        StepReads(states[i], actions[i], states[i + 1]);
      }
    }
    if forall i :: 0 <= i < |actions| ==> Faithful(states[i], actions[i]) {
      forall n | 0 <= n < |states| ensures ReadsOk(states[n]) {
        FaithfulRunReads(states, actions, n);
      }
    }
  }

  /** In a state with right reads, a live snapshot shows the map left by the
      operations applied before it was taken. */
  lemma {:induction false} ReadsAreReplay(st: State, k: UserKey, s: nat)
    requires ReadsOk(st) && SmallestSnapshot(st) <= s <= |st.history|
    ensures View(Stored(st), k, s) == Lookup(Replay(st.history[..s]), k)
  {
    hide Stored, Entries;
    assert View(Stored(st), k, s) == View(Entries(st.history), k, s);
    ViewIsReplay(st.history, k, s);
  }

  lemma {:induction false} HistoryGrows(states: seq<State>, actions: seq<Action>, m: nat, n: nat)
    requires IsRun(states, actions) && m <= n < |states|
    ensures states[m].history <= states[n].history
  {
    if m < n {
      HistoryGrows(states, actions, m, n - 1);
      StepGrows(states[n - 1], actions[n - 1], states[n]);
    }
  }

  lemma {:induction false} StepGrows(st: State, a: Action, st': State)
    requires Step(st, a, st')
    ensures st.history <= st'.history
  {
    hide Exchanged, ValidInputs, Replaced, LevelForOutput;
  }

  /** Snapshot stability: what a snapshot taken at state `m` shows at any later
      state `n` where it is still live is the map as it was at state `m`. */
  lemma {:induction false} SnapshotsAreStable(states: seq<State>, actions: seq<Action>, m: nat, n: nat, k: UserKey)
    requires IsRun(states, actions) && m <= n < |states|
    requires forall i :: 0 <= i < n ==> Faithful(states[i], actions[i])
    requires SmallestSnapshot(states[n]) <= |states[m].history|
    ensures View(Stored(states[n]), k, |states[m].history|) == Lookup(Replay(states[m].history), k)
  {
    hide Faithful, Step, Stored, ReadsOk, Init;
    HistoryGrows(states, actions, m, n);
    FaithfulRunReads(states, actions, n);
    ReadsAreReplay(states[n], k, |states[m].history|);
    assert states[n].history[..|states[m].history|] == states[m].history;
  }
}
