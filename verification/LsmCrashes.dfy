/** Runs of the store with crashes in them.

    A crash loses the memtables and perhaps the last records of the live log; opening the
    store again brings the rest of the logs back into a memtable (db/db_impl.cc: Recover,
    RecoverLogFile). */
module LsmCrashes {
  import opened InternalKeys
  import opened FlatHistory
  import opened Versions
  import opened CompactionInputs
  import opened SetupInputs
  import opened CompactionLoop
  import opened LsmState
  import opened LsmInvariants
  import opened LsmReads
  import opened LsmRuns
  import opened BoundaryReads

  function Flat(batches: seq<seq<Op>>): seq<Op> {
    if |batches| == 0 then [] else Flat(batches[..|batches| - 1]) + batches[|batches| - 1]
  }

  lemma {:induction false} FlatSum(a: seq<seq<Op>>, b: seq<seq<Op>>)
    ensures Flat(a + b) == Flat(a) + Flat(b)
  {
    hide Flat;
    if |b| == 0 {
      assert a + b == a;
      NoBatches(Flat(a));
    } else {
      var n := |b| - 1;
      FlatSum(a, b[..n]);
      assert a + b == a + b[..n] + [b[n]] && b == b[..n] + [b[n]];
      FlatSnoc(a + b[..n], b[n]);
      FlatSnoc(b[..n], b[n]);
      assert Flat(a) + Flat(b[..n]) + b[n] == Flat(a) + (Flat(b[..n]) + b[n]);
    }
  }

  lemma {:induction false} NoBatches(ops: seq<Op>)
    ensures Flat([]) == [] && ops + [] == ops
  {
  }

  lemma {:induction false} FlatSnoc(batches: seq<seq<Op>>, ops: seq<Op>)
    ensures Flat(batches + [ops]) == Flat(batches) + ops
  {
    assert (batches + [ops])[..|batches|] == batches;
  }

  lemma {:induction false} FlatOne(ops: seq<Op>)
    ensures Flat([]) == [] && Flat([ops]) == ops
  {
    assert [ops][..0] == [];
  }

  /** The store with what its files hold: `base` are the operations in tables, and each
      log has a record for every batch. */
  datatype Durable = Durable(st: State, base: seq<Op>, oldLog: seq<seq<Op>>, liveLog: seq<seq<Op>>)

  datatype Event = Runs(action: Action) | Crash(kept: nat)

  /** The tables hold operations of `base` only, the immutable memtable the old log, the
      memtable the live one. */
  ghost predicate LogsOk(d: Durable) {
    && d.st.history == d.base + Flat(d.oldLog) + Flat(d.liveLog)
    && FileEntries(d.st.files) <= Entries(d.base)
    && ImmEntries(d.st) == NewEntries(d.base, Flat(d.oldLog))
    && RunEntries(d.st.mem) == NewEntries(d.base + Flat(d.oldLog), Flat(d.liveLog))
    && (d.st.imm.None? ==> d.oldLog == [])
  }

  ghost predicate DurableOk(d: Durable) {
    Inv(d.st) && LogsOk(d)
  }

  /** The logs along with a step of the store. */
  ghost predicate Logged(d: Durable, a: Action, d': Durable) {
    match a
    case Write(ops) => d' == d.(st := d'.st, liveLog := d.liveLog + [ops])
    case SwitchMemTable => d' == d.(st := d'.st, oldLog := d.liveLog, liveLog := [])
    case Flush(_, _) => d' == d.(st := d'.st, base := d.base + Flat(d.oldLog), oldLog := [])
    case DropEmptyMemTable => d' == d.(st := d'.st, base := d.base + Flat(d.oldLog), oldLog := [])
    case _ => d' == d.(st := d'.st)
  }

  /** Of all records in the logs the first `kept` are left. */
  ghost predicate CrashStep(d: Durable, kept: nat, d': Durable) {
    && kept <= |d.oldLog + d.liveLog|
    && var left := (d.oldLog + d.liveLog)[..kept];
       && d' == Durable(d'.st, d.base, [], left)
       && d'.st == State(d.base + Flat(left), d'.st.mem, None, d.st.files, [], d'.st.nextFile)
       && d'.st.nextFile >= d.st.nextFile
       && Sorted(d'.st.mem) && RunEntries(d'.st.mem) == NewEntries(d.base, Flat(left))
  }

  ghost predicate Happens(d: Durable, e: Event, d': Durable) {
    match e
    case Runs(a) => Step(d.st, a, d'.st) && Logged(d, a, d')
    case Crash(kept) => CrashStep(d, kept, d')
  }

  // ----- what every reachable state satisfies -----

  lemma {:induction false} NewBetween(h: seq<Op>, a: seq<Op>, b: seq<Op>)
    ensures NewEntries(h, a + b) == NewEntries(h, a) + NewEntries(h + a, b)
  {
    assert h + (a + b) == (h + a) + b;
    forall e: Entry | 1 <= e.ikey.sequence <= |h + a| ensures Written(h + a, e) <==> Written(h + a + b, e) {
      assert (h + a + b)[e.ikey.sequence - 1] == (h + a)[e.ikey.sequence - 1];
    }
  }

  lemma {:induction false} NothingNew(h: seq<Op>)
    ensures NewEntries(h, []) == iset{}
  {
    assert h + [] == h;
  }

  lemma {:induction false} WriteLogs(d: Durable, ops: seq<Op>, d': Durable)
    requires LogsOk(d) && Happens(d, Runs(Action.Write(ops)), d')
    ensures LogsOk(d')
  {
    hide NewEntries, Entries, FileEntries, RunEntries, Flat;
    FlatSum(d.liveLog, [ops]);
    FlatOne(ops);
    NewBetween(d.base + Flat(d.oldLog), Flat(d.liveLog), ops);
    assert ImmEntries(d'.st) == ImmEntries(d.st);
    assert d.st.history + ops == d.base + Flat(d.oldLog) + (Flat(d.liveLog) + ops);
  }

  lemma {:induction false} SwitchLogs(d: Durable, d': Durable)
    requires LogsOk(d) && Happens(d, Runs(SwitchMemTable), d')
    ensures LogsOk(d')
  {
    hide NewEntries, Entries, FileEntries;
    FlatOne([]);
    assert d.base + [] == d.base;
    NothingNew(d.base + Flat(d.liveLog));
    assert d.base + Flat(d.liveLog) + [] == d.base + Flat(d.liveLog);
    assert ImmEntries(d'.st) == RunEntries(d.st.mem) && RunEntries([]) == iset{};
  }

  /** The old log's entries are in a table now. */
  lemma {:induction false} FlushLogs(d: Durable, d': Durable)
    requires LogsOk(d) && d'.st == d.st.(imm := None, files := d'.st.files, nextFile := d'.st.nextFile)
    requires d' == d.(st := d'.st, base := d.base + Flat(d.oldLog), oldLog := [])
    requires FileEntries(d'.st.files) == FileEntries(d.st.files) + ImmEntries(d.st)
    ensures LogsOk(d')
  {
    hide FileEntries, RunEntries, Flat, Entries, NewEntries;
    FlatOne([]);
    assert d'.base + [] == d'.base;
    NothingNew(d'.base);
    EntriesGrow(d.base, Flat(d.oldLog));
  }

  lemma {:induction false} SameLogs(d: Durable, d': Durable)
    requires LogsOk(d) && d' == d.(st := d'.st) && FileEntries(d'.st.files) <= FileEntries(d.st.files)
    requires d'.st.history == d.st.history && d'.st.mem == d.st.mem && d'.st.imm == d.st.imm
    ensures LogsOk(d')
  {
    hide FileEntries, RunEntries, Flat, Entries, NewEntries;
    assert ImmEntries(d'.st) == ImmEntries(d.st);
  }

  lemma {:induction false} FlushedFiles(st: State, level: nat, f: File, st': State)
    requires FlushStep(st, level, f, st')
    ensures FileEntries(st'.files) == FileEntries(st.files) + ImmEntries(st)
  {
    hide FileEntries, Stored;
    FlushStored(st, level, f, st');
  }

  lemma {:induction false} RunsKeepLogs(d: Durable, a: Action, d': Durable)
    requires DurableOk(d) && Happens(d, Runs(a), d')
    ensures LogsOk(d')
  {
    hide LogsOk, NewEntries, Entries, FileEntries, RunEntries, Flat, FlushStep, MoveStep, MergeStep, FilesOk, TablesInOrder;
    match a
    case Write(ops) => WriteLogs(d, ops, d');
    case SwitchMemTable => SwitchLogs(d, d');
    case Flush(level, f) =>
      FlushedFiles(d.st, level, f, d'.st);
      FlushFields(d.st, level, f, d'.st);
      FlushLogs(d, d');
    case DropEmptyMemTable =>
      NothingInImm(d.st);
      FlushLogs(d, d');
    case TrivialMove(level, f) =>
      InvParts(d.st);
      MoveStored(d.st, level, f, d'.st);
      MoveFields(d.st, level, f, d'.st);
      SameLogs(d, d');
    case Merge(level, in0, in1, input, outputs) =>
      InvParts(d.st);
      MergeShrinks(d.st, level, in0, in1, input, outputs, d'.st);
      SameLogs(d, d');
    case _ => SameLogs(d, d');
  }

  lemma {:induction false} NothingInImm(st: State)
    requires st.imm == Some([])
    ensures ImmEntries(st) == iset{}
  {
  }

  lemma {:induction false} FlushFields(st: State, level: nat, f: File, st': State)
    requires FlushStep(st, level, f, st')
    ensures st' == st.(imm := None, files := st'.files, nextFile := st'.nextFile)
  {
    hide Replaced, LevelForOutput, IsTable;
  }

  lemma {:induction false} MoveFields(st: State, level: nat, f: File, st': State)
    requires MoveStep(st, level, f, st')
    ensures st' == st.(files := st'.files)
  {
    hide Exchanged, ValidInputs;
  }

  lemma {:induction false} MergeShrinks(st: State, level: nat, in0: seq<File>, in1: seq<File>, input: seq<Entry>,
      outputs: seq<File>, st': State)
    requires Layered(st.files) && TablesInOrder(st) && MergeStep(st, level, in0, in1, input, outputs, st')
    ensures FileEntries(st'.files) <= FileEntries(st.files) && RunEntries(input) <= FileEntries(st.files)
    ensures st' == st.(files := st'.files, nextFile := st'.nextFile)
  {
    hide Layered, TablesInOrder, Exchanged, ValidInputs, Kept, FileEntries, Flatten, Sorted, Stored;
    MergeStored(st, level, in0, in1, input, outputs, st');
    OutputsMadeOf(st, level, in0, in1, input, outputs, SmallestSnapshot(st));
    MergedStored(st, level, in0, in1, input, outputs, st');
  }

  lemma {:induction false} CrashKeepsOk(d: Durable, kept: nat, d': Durable)
    requires DurableOk(d) && CrashStep(d, kept, d')
    ensures DurableOk(d')
  {
    hide Flat, Layered, FileEntries, RunEntries;
    var left := (d.oldLog + d.liveLog)[..kept];
    FlatOne([]);
    assert d.base + [] == d.base;
    NothingNew(d.base);
    EntriesGrow(d.base, Flat(left));
    assert |d'.st.history| <= |d.st.history| by { LeftIsPrefix(d, kept); }
    assert ImmEntries(d'.st) == iset{};
  }

  /** What is left of the history is a prefix of it. */
  lemma {:induction false} LeftIsPrefix(d: Durable, kept: nat)
    requires LogsOk(d) && kept <= |d.oldLog + d.liveLog|
    ensures d.base + Flat((d.oldLog + d.liveLog)[..kept]) <= d.st.history
  {
    hide FileEntries, RunEntries, ImmEntries, NewEntries, Entries, Flat;
    var all := d.oldLog + d.liveLog;
    FlatSum(d.oldLog, d.liveLog);
    FlatSum(all[..kept], all[kept..]);
    assert all == all[..kept] + all[kept..];
    assert d.st.history == d.base + Flat(all);
    assert d.base + Flat(all) == d.base + Flat(all[..kept]) + Flat(all[kept..]);
  }

  lemma {:induction false} HappensKeepsOk(d: Durable, e: Event, d': Durable)
    requires DurableOk(d) && Happens(d, e, d')
    ensures DurableOk(d')
  {
    hide Inv, LogsOk, Step, Logged, CrashStep;
    match e
    case Runs(a) =>
      RunsKeepLogs(d, a, d');
      StepKeepsInv(d.st, a, d'.st);
    case Crash(kept) => CrashKeepsOk(d, kept, d');
  }

  // ----- reading after a crash -----

  /** The oldest sequence number at which the store may have to be read: a live
      snapshot's, or where a crash can take it back to. */
  function Oldest(d: Durable): nat {
    if |d.base| <= SmallestSnapshot(d.st) then |d.base| else SmallestSnapshot(d.st)
  }

  /** The store as if that number were a live snapshot. */
  function Guarded(d: Durable): State { d.st.(snapshots := [Oldest(d)]) }

  /** Entries no newer than `t`. */
  ghost function UpTo(S: iset<Entry>, t: nat): iset<Entry> {
    iset e | e in S && e.ikey.sequence <= t
  }

  lemma {:induction false} ViewUpTo(S: iset<Entry>, t: nat, k: UserKey, s: nat)
    requires s <= t && UniqueSeqs(S)
    ensures View(UpTo(S, t), k, s) == View(S, k, s)
  {
    var e := FindNewest(S, k, s);
    if e.Some? {
      assert NewestAt(UpTo(S, t), k, s, e.value);
      ViewOfNewest(S, k, s, e.value);
      ViewOfNewest(UpTo(S, t), k, s, e.value);
    } else {
      ViewOfNothing(S, k, s);
      ViewOfNothing(UpTo(S, t), k, s);
    }
  }

  lemma {:induction false} EntriesOfPrefix(h: seq<Op>, t: nat)
    requires t <= |h|
    ensures Entries(h[..t]) == UpTo(Entries(h), t)
  {
    forall e: Entry | 1 <= e.ikey.sequence <= t ensures Written(h[..t], e) <==> Written(h, e) {
      assert h[..t][e.ikey.sequence - 1] == h[e.ikey.sequence - 1];
    }
  }

  lemma {:induction false} GuardedOk(d: Durable)
    requires DurableOk(d)
    ensures Inv(Guarded(d)) && Oldest(d) <= |d.base| <= |d.st.history| && Stored(Guarded(d)) == Stored(d.st)
  {
    hide Layered, Numbered, SortedBySmallest, TablesInOrder, Flat, FileEntries, RunEntries, NewEntries, Entries;
    SmallestIsWritten(d.st);
    assert ImmEntries(Guarded(d)) == ImmEntries(d.st);
    assert TablesInOrder(Guarded(d)) by { SameTables(d.st, Guarded(d)); }
  }

  lemma {:induction false} SameTables(st: State, st': State)
    requires TablesInOrder(st) && st' == st.(snapshots := st'.snapshots)
    ensures TablesInOrder(st')
  {
    hide Sorted, WrittenAfter;
    assert ImmEntries(st') == ImmEntries(st);
  }

  // ----- merges -----

  /** Entries no newer than both numbers are dropped alike. */
  lemma {:induction false} KeptAlike(files: seq<seq<File>>, level: nat, input: seq<Entry>, n: nat, a: nat, b: nat)
    requires n <= |input| && forall e :: e in input ==> e.ikey.sequence <= a && e.ikey.sequence <= b
    ensures Kept(files, level, input, n, a) == Kept(files, level, input, n, b)
  {
    if n > 0 {
      KeptAlike(files, level, input, n - 1, a, b);
      assert input[n - 1] in input && (n > 1 ==> input[n - 2] in input);
    }
  }

  lemma {:induction false} GuardedMerge(d: Durable, level: nat, in0: seq<File>, in1: seq<File>, input: seq<Entry>,
      outputs: seq<File>, d': Durable)
    requires DurableOk(d) && MergeStep(d.st, level, in0, in1, input, outputs, d'.st) && d' == d.(st := d'.st)
    ensures MergeStep(Guarded(d), level, in0, in1, input, outputs, Guarded(d'))
  {
    hide Inv, LogsOk, Kept, Exchanged, ValidInputs, Outputs, Flatten, MergedInput;
    assert FileEntries(d.st.files) <= Entries(d.base) by { TablesInBase(d); }
    InvParts(d.st);
    MergeShrinks(d.st, level, in0, in1, input, outputs, d'.st);
    if Oldest(d) != SmallestSnapshot(d.st) {
      forall e | e in input ensures e.ikey.sequence <= |d.base| {
        assert e in RunEntries(input);
      }
      KeptAlike(d.st.files, level, input, |input|, Oldest(d), SmallestSnapshot(d.st));
    }
  }

  lemma {:induction false} TablesInBase(d: Durable)
    requires LogsOk(d)
    ensures FileEntries(d.st.files) <= Entries(d.base)
  {
    hide FileEntries, Entries, RunEntries, ImmEntries, NewEntries, Flat;
  }

  /** The merge revives a key at the oldest number that may have to be read. */
  ghost predicate Undoes(d: Durable, a: Action) {
    a.Merge? && Resurrects(Guarded(d), a.mergeLevel, a.in0, a.in1)
  }

  lemma {:induction false} MergeGuards(d: Durable, a: Action, d': Durable)
    requires DurableOk(d) && a.Merge? && Happens(d, Runs(a), d') && ReadsOk(Guarded(d))
    ensures ReadsOk(Guarded(d')) <==> !Undoes(d, a)
  {
    hide DurableOk, Inv, ReadsOk, MergeStep, Resurrects;
    GuardedOk(d);
    GuardedMerge(d, a.mergeLevel, a.in0, a.in1, a.input, a.outputs, d');
    MergeReads(Guarded(d), a.mergeLevel, a.in0, a.in1, a.input, a.outputs, Guarded(d'));
  }

  // ----- the other steps -----

  lemma {:induction false} OldestRises(d: Durable, a: Action, d': Durable)
    requires DurableOk(d) && Happens(d, Runs(a), d')
    ensures Oldest(d) <= Oldest(d')
  {
    hide Flat, LogsOk, Exchanged, ValidInputs, Kept, MergedInput, Replaced, NewEntries, FilesOk, TablesInOrder, Stored;
    assert d.st.snapshots != [] ==> d.st.snapshots[0] in d.st.snapshots;
  }

  /** With a smaller oldest number the claim is stronger. */
  lemma {:induction false} ReadsFromLater(st: State, st': State)
    requires ReadsOk(st) && Stored(st') == Stored(st) && st'.history == st.history
    requires SmallestSnapshot(st) <= SmallestSnapshot(st')
    ensures ReadsOk(st')
  {
    hide Stored;
    SameEntriesRead(st, st');
  }

  lemma {:induction false} QuietGuards(d: Durable, a: Action, d': Durable)
    requires DurableOk(d) && DurableOk(d') && Happens(d, Runs(a), d') && ReadsOk(Guarded(d)) && !a.Merge?
    ensures ReadsOk(Guarded(d'))
  {
    hide DurableOk, Inv, ReadsOk, Stored, Logged, FlushStep, MoveStep, Entries;
    GuardedOk(d);
    GuardedOk(d');
    OldestRises(d, a, d');
    if a.Write? {
      var mid := d'.st.(snapshots := [Oldest(d)]);
      WriteReads(Guarded(d), a.ops, mid);
      assert Stored(mid) == Stored(d'.st) by { SnapshotsAside(d'.st, mid); }
      ReadsFromLater(mid, Guarded(d'));
    } else {
      QuietStored(d, a, d');
      ReadsFromLater(Guarded(d), Guarded(d'));
    }
  }

  lemma {:induction false} SnapshotsAside(st: State, st': State)
    requires st' == st.(snapshots := st'.snapshots)
    ensures Stored(st') == Stored(st)
  {
    assert ImmEntries(st') == ImmEntries(st);
  }

  lemma {:induction false} QuietStored(d: Durable, a: Action, d': Durable)
    requires DurableOk(d) && Happens(d, Runs(a), d') && !a.Merge? && !a.Write?
    ensures Stored(d'.st) == Stored(d.st) && d'.st.history == d.st.history
  {
    hide Inv, LogsOk, Stored, Logged, Replaced, Exchanged, ValidInputs, LevelForOutput;
    match a
    case SwitchMemTable => SwitchKeepsInv(d.st, d'.st);
    case DropEmptyMemTable => DropKeepsInv(d.st, d'.st);
    case Flush(level, f) => FlushKeepsInv(d.st, level, f, d'.st);
    case TrivialMove(level, f) => MoveKeepsInv(d.st, level, f, d'.st);
    case TakeSnapshot => SnapshotStep(d.st, a, d'.st);
    case ReleaseSnapshot(i) => SnapshotStep(d.st, a, d'.st);
  }

  // ----- crashes -----

  /** What is stored up to the last operation left. */
  lemma {:induction false} StoredUpTo(d: Durable, kept: nat)
    requires DurableOk(d) && kept <= |d.oldLog + d.liveLog|
    ensures var left := Flat((d.oldLog + d.liveLog)[..kept]);
            && d.base + left <= d.st.history
            && UpTo(Stored(d.st), |d.base + left|) == FileEntries(d.st.files) + NewEntries(d.base, left)
  {
    hide Inv, Flat, FileEntries, Stored;
    var all, h := d.oldLog + d.liveLog, d.base;
    var left, rest := Flat(all[..kept]), Flat(all[kept..]);
    LeftIsPrefix(d, kept);
    AllEntries(d);
    FlatSum(all[..kept], all[kept..]);
    assert all == all[..kept] + all[kept..];
    NewBetween(h, left, rest);
    forall e | e in FileEntries(d.st.files) ensures e.ikey.sequence <= |h| {
      assert e in Entries(h);
    }
  }

  /** What is stored after a crash is what was stored up to the last operation left. */
  lemma {:induction false} CrashStored(d: Durable, kept: nat, d': Durable)
    requires DurableOk(d) && CrashStep(d, kept, d')
    ensures Stored(d'.st) == UpTo(Stored(d.st), |d'.st.history|) && d'.st.history <= d.st.history
  {
    hide Inv, Flat, FileEntries, UpTo, NewEntries, RunEntries, LogsOk, Sorted;
    StoredUpTo(d, kept);
    assert ImmEntries(d'.st) == iset{};
  }

  lemma {:induction false} AllEntries(d: Durable)
    requires LogsOk(d)
    ensures Stored(d.st) == FileEntries(d.st.files) + NewEntries(d.base, Flat(d.oldLog + d.liveLog))
  {
    hide FileEntries, RunEntries, ImmEntries, NewEntries, Flat, Entries;
    FlatSum(d.oldLog, d.liveLog);
    NewBetween(d.base, Flat(d.oldLog), Flat(d.liveLog));
  }

  lemma {:induction false} CrashGuards(d: Durable, kept: nat, d': Durable)
    requires DurableOk(d) && DurableOk(d') && CrashStep(d, kept, d') && ReadsOk(Guarded(d))
    ensures ReadsOk(Guarded(d'))
  {
    hide DurableOk, Inv, Stored, View, Entries, UpTo, CrashStep;
    CrashStored(d, kept, d');
    GuardedOk(d);
    GuardedOk(d');
    var t := |d'.st.history|;
    assert Oldest(d') >= Oldest(d) by { CrashFields(d, kept, d'); }
    EntriesOfPrefix(d.st.history, t);
    assert d'.st.history == d.st.history[..t];
    forall k, s | Oldest(d') <= s <= t ensures View(Stored(Guarded(d')), k, s) == View(Entries(d'.st.history), k, s) {
      UniqueParts(d);
      ViewUpTo(Stored(d.st), t, k, s);
      ViewUpTo(Entries(d.st.history), t, k, s);
      assert View(Stored(Guarded(d)), k, s) == View(Entries(d.st.history), k, s);
    }
  }

  lemma {:induction false} UniqueParts(d: Durable)
    requires DurableOk(d)
    ensures UniqueSeqs(Stored(d.st)) && UniqueSeqs(Entries(d.st.history))
  {
    hide Stored, LogsOk;
    FilesUnique(d.st);
    EntriesUnique(d.st.history);
  }

  lemma {:induction false} CrashFields(d: Durable, kept: nat, d': Durable)
    requires CrashStep(d, kept, d')
    ensures Oldest(d') == |d.base|
  {
    hide Flat, RunEntries, NewEntries, Sorted;
  }

  // ----- runs -----

  ghost predicate IsCrashRun(ds: seq<Durable>, events: seq<Event>) {
    && |ds| == |events| + 1 && ds[0] == Durable(Init(), [], [], [])
    && forall i :: 0 <= i < |events| ==> Happens(ds[i], events[i], ds[i + 1])
  }

  lemma {:induction false} NewIsOk()
    ensures DurableOk(Durable(Init(), [], [], []))
    ensures ReadsOk(Guarded(Durable(Init(), [], [], [])))
  {
    var d := Durable(Init(), [], [], []);
    InitHolds();
    InitFiles();
    NothingNew([]);
    FlatOne([]);
    hide Inv, FileEntries, Stored, View;
    SnapshotsAside(d.st, Guarded(d));
    ReadsFromLater(Init(), Guarded(d));
  }

  lemma {:induction false} CrashRunKeepsOk(ds: seq<Durable>, events: seq<Event>, n: nat)
    requires IsCrashRun(ds, events) && n < |ds|
    ensures DurableOk(ds[n])
  {
    hide DurableOk, Happens, Init;
    if n == 0 {
      NewIsOk();
    } else {
      CrashRunKeepsOk(ds, events, n - 1);
      HappensKeepsOk(ds[n - 1], events[n - 1], ds[n]);
    }
  }

  lemma {:induction false} EventGuards(d: Durable, e: Event, d': Durable)
    requires DurableOk(d) && Happens(d, e, d') && ReadsOk(Guarded(d))
    ensures ReadsOk(Guarded(d')) <==> !(e.Runs? && Undoes(d, e.action))
  {
    hide DurableOk, ReadsOk, Step, Logged, CrashStep, Resurrects;
    HappensKeepsOk(d, e, d');
    match e
    case Runs(a) => if a.Merge? { MergeGuards(d, a, d'); } else { QuietGuards(d, a, d'); }
    case Crash(kept) => CrashGuards(d, kept, d');
  }

  /** With crashes anywhere in a run: every live snapshot, and every place a crash may take
      the store back to, reads as the operations that are left, in every state, if and
      only if no merge of the run revives a key there. */
  lemma {:induction false} CrashRunsReadRight(ds: seq<Durable>, events: seq<Event>)
    requires IsCrashRun(ds, events)
    ensures (forall n :: 0 <= n < |ds| ==> ReadsOk(Guarded(ds[n]))) <==>
            (forall i :: 0 <= i < |events| && events[i].Runs? ==> !Undoes(ds[i], events[i].action))
  {
    hide DurableOk, ReadsOk, Happens, Undoes, Guarded, Init;
    if forall n :: 0 <= n < |ds| ==> ReadsOk(Guarded(ds[n])) {
      forall i | 0 <= i < |events| && events[i].Runs? ensures !Undoes(ds[i], events[i].action) {
        CrashRunKeepsOk(ds, events, i);
        EventGuards(ds[i], events[i], ds[i + 1]);
      }
    }
    if forall i :: 0 <= i < |events| && events[i].Runs? ==> !Undoes(ds[i], events[i].action) {
      forall n | 0 <= n < |ds| ensures ReadsOk(Guarded(ds[n])) {
        RightUpTo(ds, events, n);
      }
    }
  }

  lemma {:induction false} RightUpTo(ds: seq<Durable>, events: seq<Event>, n: nat)
    requires IsCrashRun(ds, events) && n < |ds|
    requires forall i :: 0 <= i < |events| && events[i].Runs? ==> !Undoes(ds[i], events[i].action)
    ensures ReadsOk(Guarded(ds[n]))
  {
    hide DurableOk, ReadsOk, Happens, Undoes, Guarded, Init;
    if n == 0 {
      NewIsOk();
    } else {
      RightUpTo(ds, events, n - 1);
      CrashRunKeepsOk(ds, events, n - 1);
      EventGuards(ds[n - 1], events[n - 1], ds[n]);
    }
  }

  /** Read off the file boundaries: the condition on a merge, with what a crash can take
      away left out of account. */
  lemma {:induction false} UndoesAtBoundary(d: Durable, a: Action, d': Durable)
    requires DurableOk(d) && a.Merge? && Happens(d, Runs(a), d')
    ensures Undoes(d, a) <==> CutsOff(Guarded(d), a.mergeLevel, a.in1)
    ensures |a.in1| > 0 && BoundaryClosed(d.st.files[a.mergeLevel + 1], a.in1) ==> !Undoes(d, a)
    ensures a.in1 == [] ==> !Undoes(d, a)
  {
    hide DurableOk, Inv, Resurrects, CutsOff, BoundaryClosed, Exchanged, Kept, Guarded, UpperClosed, Covered;
    GuardedOk(d);
    assert ValidInputs(Guarded(d).files, a.mergeLevel, a.in0, a.in1) by { GuardedFiles(d); }
    ResurrectsAtBoundary(Guarded(d), a.mergeLevel, a.in0, a.in1);
    GuardedFiles(d);
    if a.in1 == [] || BoundaryClosed(d.st.files[a.mergeLevel + 1], a.in1) {
      ClosedLowerInputsAreSafe(Guarded(d), a.mergeLevel, a.in0, a.in1);
    }
  }

  lemma {:induction false} GuardedFiles(d: Durable)
    ensures Guarded(d).files == d.st.files
  {
  }

  /** What survives crashes reads right without them, too. */
  lemma {:induction false} GuardedReads(d: Durable)
    requires ReadsOk(Guarded(d))
    ensures ReadsOk(d.st)
  {
    hide ReadsOk, Stored;
    assert Stored(d.st) == Stored(Guarded(d)) by { SnapshotsAside(d.st, Guarded(d)); }
    ReadsFromLater(Guarded(d), d.st);
  }
}
