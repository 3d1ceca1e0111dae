/** The store as a state machine: memtables, leveled files, snapshots, and the
    steps DBImpl takes under its mutex (db/db_impl.cc, db/version_set.cc). */
module LsmState {
  import opened InternalKeys
  import opened FlatHistory
  import opened Versions
  import opened CompactionInputs
  import opened SetupInputs
  import opened CompactionLoop

  /** config::kMaxMemCompactLevel */
  const MAX_MEM_COMPACT_LEVEL := 2

  datatype State = State(
    history: seq<Op>,            // every operation ever applied: the specification
    mem: seq<Entry>,             // mem_, in internal key order
    imm: Option<seq<Entry>>,     // imm_
    files: seq<seq<File>>,       // versions_->current()->files_
    snapshots: seq<nat>,         // snapshots_, oldest first
    nextFile: nat)               // versions_->next_file_number_

  /** smallest_snapshot of a compaction: the oldest snapshot, or LastSequence(). */
  function SmallestSnapshot(st: State): nat {
    if |st.snapshots| == 0 then |st.history| else st.snapshots[0]
  }

  ghost function ImmEntries(st: State): iset<Entry> {
    if st.imm.Some? then RunEntries(st.imm.value) else iset{}
  }

  ghost function Stored(st: State): iset<Entry> {
    RunEntries(st.mem) + ImmEntries(st) + FileEntries(st.files)
  }

  // ----- invariants -----

  /** `b` sorts after `a` in Builder::BySmallestKey. */
  predicate BySmallest(a: File, b: File) {
    Less(a.smallest, b.smallest) || (a.smallest == b.smallest && a.number < b.number)
  }

  ghost predicate SortedBySmallest(fs: seq<File>) {
    forall i, j :: 0 <= i < j < |fs| ==> BySmallest(fs[i], fs[j])
  }

  /** File numbers are allocated below `next` and never shared. */
  ghost predicate Numbered(files: seq<seq<File>>, next: nat) {
    && (forall l, f :: 0 <= l < |files| && f in files[l] ==> f.number < next)
    && (forall l, m, f, g :: 0 <= l < |files| && 0 <= m < |files| && f in files[l] && g in files[m] && f.number == g.number ==>
          l == m && f == g)
  }

  /** Every entry of `S` was written after every entry of `T`. */
  ghost predicate WrittenAfter(S: iset<Entry>, T: iset<Entry>) {
    forall x, y :: x in S && y in T ==> x.ikey.sequence > y.ikey.sequence
  }

  ghost predicate FilesOk(st: State) {
    && Layered(st.files)
    && Numbered(st.files, st.nextFile)
    && (forall l :: 0 <= l < NUM_LEVELS ==> SortedBySmallest(st.files[l]))
  }

  ghost predicate TablesInOrder(st: State) {
    && Sorted(st.mem) && (st.imm.Some? ==> Sorted(st.imm.value))
    && WrittenAfter(RunEntries(st.mem), ImmEntries(st))
    && WrittenAfter(RunEntries(st.mem), FileEntries(st.files))
    && WrittenAfter(ImmEntries(st), FileEntries(st.files))
  }

  ghost predicate SnapshotsOk(st: State) {
    && (forall i, j :: 0 <= i < j < |st.snapshots| ==> st.snapshots[i] <= st.snapshots[j])
    && (forall s :: s in st.snapshots ==> s <= |st.history|)
  }

  /** What every reachable state satisfies. */
  ghost predicate Inv(st: State) {
    && |st.history| < MAX_SEQUENCE
    && FilesOk(st) && TablesInOrder(st) && SnapshotsOk(st)
    && Stored(st) <= Entries(st.history)
  }

  /** Every snapshot that may still be read shows exactly the history. */
  ghost predicate ReadsOk(st: State) {
    forall k, s :: SmallestSnapshot(st) <= s <= |st.history| ==>
      View(Stored(st), k, s) == View(Entries(st.history), k, s)
  }

  // ----- steps -----

  /** The entries that applying `ops` after history `h` brings. */
  ghost function NewEntries(h: seq<Op>, ops: seq<Op>): iset<Entry> {
    iset e: Entry | |h| < e.ikey.sequence && Written(h + ops, e)
  }

  /** Builder::SaveTo for one level: `removed` gone, `added` in, ordered by
      smallest key. */
  ghost predicate Replaced(fs: seq<File>, removed: seq<File>, added: seq<File>, fs': seq<File>) {
    && (forall f :: f in fs' <==> (f in fs && f !in removed) || f in added)
    && SortedBySmallest(fs')
  }

  /** The merged iterator over the input files. */
  ghost predicate MergedInput(in0: seq<File>, in1: seq<File>, input: seq<Entry>) {
    && Sorted(input)
    && forall e :: e in input <==> InLevel(in0, e) || InLevel(in1, e)
  }

  /** PickLevelForMemTableOutput may choose `level` for this file: nothing at
      that level or above touches its user keys, or it stays at level 0. */
  ghost predicate LevelForOutput(files: seq<seq<File>>, f: File, level: nat)
    requires |files| == NUM_LEVELS
  {
    && level <= MAX_MEM_COMPACT_LEVEL
    && (level > 0 ==> forall l, g :: 0 <= l <= level && g in files[l] ==> !Overlaps(g, Some(f.smallest.user), Some(f.largest.user)))
  }

  datatype Action =
    | Write(ops: seq<Op>)
    | SwitchMemTable
    | DropEmptyMemTable
    | Flush(level: nat, file: File)
    | TrivialMove(moveLevel: nat, moved: File)
    | Merge(mergeLevel: nat, in0: seq<File>, in1: seq<File>, input: seq<Entry>, outputs: seq<File>)
    | TakeSnapshot
    | ReleaseSnapshot(index: nat)

  /** The new levels of a file exchange between `level` and the one below. */
  ghost predicate Exchanged(files: seq<seq<File>>, level: nat, out0: seq<File>, out1: seq<File>, added: seq<File>, files': seq<seq<File>>) {
    && |files| == NUM_LEVELS == |files'| && level + 1 < NUM_LEVELS
    && Replaced(files[level], out0, [], files'[level])
    && Replaced(files[level + 1], out1, added, files'[level + 1])
    && (forall l :: 0 <= l < NUM_LEVELS && l != level && l != level + 1 ==> files'[l] == files[l])
  }

  /** DBImpl::Write with the batch group `ops`: the memtable gains its entries. */
  ghost predicate WriteStep(st: State, ops: seq<Op>, st': State) {
    && |st.history| + |ops| < MAX_SEQUENCE
    && Sorted(st'.mem) && RunEntries(st'.mem) == RunEntries(st.mem) + NewEntries(st.history, ops)
    && st' == st.(history := st.history + ops, mem := st'.mem)
  }

  /** MakeRoomForWrite's last branch; the new log takes a file number. */
  ghost predicate SwitchStep(st: State, st': State) {
    st.imm.None? && st' == st.(imm := Some(st.mem), mem := [], nextFile := st.nextFile + 1)
  }

  /** CompactMemTable when there is nothing to write. */
  ghost predicate DropStep(st: State, st': State) {
    st.imm == Some([]) && st' == st.(imm := None, nextFile := st.nextFile + 1)
  }

  /** CompactMemTable */
  ghost predicate FlushStep(st: State, level: nat, f: File, st': State) {
    && st.imm == Some(f.entries) && IsTable(f) && f.number == st.nextFile
    && |st.files| == NUM_LEVELS == |st'.files|
    && LevelForOutput(st.files, f, level)
    && Replaced(st.files[level], [], [f], st'.files[level])
    && (forall l :: 0 <= l < NUM_LEVELS && l != level ==> st'.files[l] == st.files[l])
    && st' == st.(imm := None, files := st'.files, nextFile := st.nextFile + 1)
  }

  /** BackgroundCompaction moving one file down. */
  ghost predicate MoveStep(st: State, level: nat, f: File, st': State) {
    && ValidInputs(st.files, level, [f], [])
    && Exchanged(st.files, level, [f], [], [f], st'.files)
    && st' == st.(files := st'.files)
  }

  /** BackgroundCompaction merging `in0` and `in1` into `outputs`. */
  ghost predicate MergeStep(st: State, level: nat, in0: seq<File>, in1: seq<File>, input: seq<Entry>, outputs: seq<File>, st': State) {
    && ValidInputs(st.files, level, in0, in1)
    && MergedInput(in0, in1, input)
    && Outputs(outputs, st.nextFile)
    && Flatten(outputs) == Kept(st.files, level, input, |input|, SmallestSnapshot(st))
    && Exchanged(st.files, level, in0, in1, outputs, st'.files)
    && st' == st.(files := st'.files, nextFile := st.nextFile + |outputs|)
  }

  ghost predicate ReleaseStep(st: State, i: nat, st': State) {
    i < |st.snapshots| && st' == st.(snapshots := st.snapshots[..i] + st.snapshots[i + 1..])
  }

  ghost predicate Step(st: State, a: Action, st': State) {
    match a
    case Write(ops) => WriteStep(st, ops, st')
    case SwitchMemTable => SwitchStep(st, st')
    case DropEmptyMemTable => DropStep(st, st')
    case Flush(level, f) => FlushStep(st, level, f, st')
    case TrivialMove(level, f) => MoveStep(st, level, f, st')
    case Merge(level, in0, in1, input, outputs) => MergeStep(st, level, in0, in1, input, outputs, st')
    case TakeSnapshot => st' == st.(snapshots := st.snapshots + [|st.history|])
    case ReleaseSnapshot(i) => ReleaseStep(st, i, st')
  }

  function Init(): State {
    State([], [], None, seq(NUM_LEVELS, _ => []), [], 2)
  }
}
