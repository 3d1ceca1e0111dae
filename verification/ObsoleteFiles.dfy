/** Which files DeleteObsoleteFiles may delete (db/db_impl.cc, db/version_set.cc).

    The background thread writes tables and installs versions; writers switch to new log
    files; readers hold on to old versions.  The files come and go around the store's
    memtables and versions, which LsmState describes, while file numbers are taken as the
    code takes them: when a file is opened. */
module ObsoleteFiles {
  import opened InternalKeys
  import opened FlatHistory
  import opened Versions
  import opened SetupInputs
  import opened LsmState
  import opened LsmRuns

  /** A log file: the entries of its records, oldest first. */
  datatype LogFile = LogFile(number: nat, entries: seq<Entry>)

  /** The flush of the immutable memtable: its table exists once it is Some; after Built
      its number is no longer a pending output, but in no version yet. */
  datatype FlushPhase = NoFlush | Building(number: nat, table: Option<File>) | Built(table: Option<File>)

  /** The compaction at work, and after it is installed. */
  datatype Job =
    | NoJob
    | Merging(level: nat, in0: seq<File>, in1: seq<File>, outputs: seq<File>)
    | Merged(outputs: seq<File>)

  datatype Store = Store(
    db: State,                          // memtables, versions_->current() and next_file_number_
    tables: map<nat, seq<Entry>>,       // table files that exist, with what they hold
    logs: seq<LogFile>,                 // log files that exist, by number
    held: seq<seq<seq<File>>>,          // versions that readers and compactions hold on to
    pending: set<nat>,                  // pending_outputs_
    logNumber: nat,                     // versions_->LogNumber()
    logfileNumber: nat,                 // logfile_number_
    flush: FlushPhase,
    job: Job)

  function Created(): Store {
    Store(Init().(nextFile := 4), map[], [LogFile(3, [])], [], {}, 3, 3, NoFlush, NoJob)
  }

  function OutputsOf(job: Job): seq<File> {
    match job case NoJob => [] case Merging(_, _, _, outputs) => outputs case Merged(outputs) => outputs
  }

  /** The table file of `f` exists and holds what it should. */
  predicate There(tables: map<nat, seq<Entry>>, f: File) {
    f.number in tables && tables[f.number] == f.entries
  }

  ghost predicate InVersion(files: seq<seq<File>>, f: File) {
    exists l :: 0 <= l < |files| && f in files[l]
  }

  /** AddLiveFiles */
  ghost predicate Live(s: Store, n: nat) {
    exists f: File :: f.number == n && (InVersion(s.db.files, f) || exists v :: v in s.held && InVersion(v, f))
  }

  ghost predicate InLogs(logs: seq<LogFile>, from: nat, e: Entry) {
    exists l :: l in logs && l.number >= from && e in l.entries
  }

  /** The entries in the logs numbered `from` or higher. */
  ghost function LogEntries(logs: seq<LogFile>, from: nat): iset<Entry> {
    iset e | InLogs(logs, from, e)
  }

  ghost predicate InTables(tables: map<nat, seq<Entry>>, files: seq<seq<File>>, e: Entry) {
    exists f :: InVersion(files, f) && f.number in tables && e in tables[f.number]
  }

  /** The entries in the table files that a version names. */
  ghost function TableEntries(tables: map<nat, seq<Entry>>, files: seq<seq<File>>): iset<Entry> {
    iset e | InTables(tables, files, e)
  }

  /** What Recover finds: the tables of the current version, and the logs it asks for. */
  ghost function Recovered(s: Store): iset<Entry> {
    TableEntries(s.tables, s.db.files) + LogEntries(s.logs, s.logNumber)
  }

  function KeptLogs(logs: seq<LogFile>, from: nat): seq<LogFile> {
    if |logs| == 0 then []
    else KeptLogs(logs[..|logs| - 1], from) + if logs[|logs| - 1].number >= from then [logs[|logs| - 1]] else []
  }

  /** The record of a batch. */
  function BatchEntries(h: seq<Op>, ops: seq<Op>): (r: seq<Entry>)
    ensures |r| == |ops| && forall i :: 0 <= i < |ops| ==> r[i] == EntryAt(h + ops, |h| + i)
  {
    seq(|ops|, i requires 0 <= i < |ops| => EntryAt(h + ops, |h| + i))
  }

  datatype Action =
    | Write(ops: seq<Op>) | SwitchLog
    | BeginFlush | CreateTable(file: File) | FinishTable | InstallFlush(level: nat)
    | BeginCompaction(jobLevel: nat, in0: seq<File>, in1: seq<File>) | OpenOutput(output: File)
    | InstallCompaction | EndCompaction
    | Move(moveLevel: nat, moved: File)
    | Hold | LetGo(i: nat)
    | Delete

  /** DeleteObsoleteFiles */
  ghost function Deleted(s: Store): Store {
    s.(tables := map n | n in s.tables && (n in s.pending || Live(s, n)) :: s.tables[n], logs := KeptLogs(s.logs, s.logNumber))
  }

  /** A version with `table`, if there is one, added at `level`. */
  ghost predicate Added(files: seq<seq<File>>, level: nat, table: Option<File>, files': seq<seq<File>>) {
    && |files'| == |files| && level < |files|
    && (forall l :: 0 <= l < |files| && l != level ==> files'[l] == files[l])
    && if table.Some? then Replaced(files[level], [], [table.value], files'[level]) else files'[level] == files[level]
  }

  ghost predicate Step(s: Store, a: Action, s': Store) {
    match a
    case Write(ops) =>
      && |s.logs| > 0 && WriteStep(s.db, ops, s'.db)
      && var last := s.logs[|s.logs| - 1];
         s' == s.(db := s'.db,
                  logs := s.logs[..|s.logs| - 1] + [LogFile(last.number, last.entries + BatchEntries(s.db.history, ops))])
    case SwitchLog =>
      && SwitchStep(s.db, s'.db)
      && s' == s.(db := s'.db, logs := s.logs + [LogFile(s.db.nextFile, [])], logfileNumber := s.db.nextFile)
    case BeginFlush =>
      && s.db.imm.Some? && s.flush.NoFlush?
      && s' == s.(flush := Building(s.db.nextFile, None), pending := s.pending + {s.db.nextFile},
                  db := s.db.(nextFile := s.db.nextFile + 1))
    case CreateTable(f) =>
      && s.flush.Building? && s.flush.table.None? && s.db.imm == Some(f.entries) && |f.entries| > 0
      && f.number == s.flush.number
      && s' == s.(flush := Building(f.number, Some(f)), tables := s.tables[f.number := f.entries])
    case FinishTable =>
      && s.flush.Building? && s.db.imm.Some? && (|s.db.imm.value| > 0 <==> s.flush.table.Some?)
      && s' == s.(flush := Built(s.flush.table), pending := s.pending - {s.flush.number})
    case InstallFlush(level) =>
      && s.flush.Built? && s.db.imm.Some? && Added(s.db.files, level, s.flush.table, s'.db.files)
      && s' == s.(db := s.db.(imm := None, files := s'.db.files), flush := NoFlush, logNumber := s.logfileNumber)
    case BeginCompaction(level, in0, in1) =>
      && s.job.NoJob? && ValidInputs(s.db.files, level, in0, in1)
      && s' == s.(job := Merging(level, in0, in1, []), held := s.held + [s.db.files])
    case OpenOutput(f) =>
      && s.job.Merging? && f.number == s.db.nextFile
      && s' == s.(job := s.job.(outputs := s.job.outputs + [f]), pending := s.pending + {f.number},
                  tables := s.tables[f.number := f.entries], db := s.db.(nextFile := f.number + 1))
    case InstallCompaction =>
      && s.job.Merging? && Exchanged(s.db.files, s.job.level, s.job.in0, s.job.in1, s.job.outputs, s'.db.files)
      && s' == s.(db := s.db.(files := s'.db.files), job := Merged(s.job.outputs))
    case EndCompaction =>
      && !s.job.NoJob?
      && s' == s.(job := NoJob, pending := s.pending - set f | f in OutputsOf(s.job) :: f.number)
    case Move(level, f) =>
      && s.job.NoJob? && MoveStep(s.db, level, f, s'.db) && s' == s.(db := s'.db)
    case Hold =>
      s' == s.(held := s.held + [s.db.files])
    case LetGo(i) =>
      i < |s.held| && s' == s.(held := s.held[..i] + s.held[i + 1..])
    case Delete =>
      // on the background thread: not while it is between building and installing
      !s.flush.Built? && s' == Deleted(s)
  }

  // ----- what every reachable state satisfies -----

  ghost predicate AllThere(s: Store, files: seq<seq<File>>) {
    forall f :: InVersion(files, f) ==> There(s.tables, f) && f.number < s.db.nextFile
  }

  /** A file that a version or the compaction uses. */
  ghost predicate InUse(s: Store, f: File) {
    InVersion(s.db.files, f) || (exists v :: v in s.held && InVersion(v, f)) || f in OutputsOf(s.job)
  }

  ghost predicate FlushTable(s: Store) {
    match s.flush
    case NoFlush => true
    case Building(n, t) =>
      && n in s.pending && (forall f :: InUse(s, f) ==> f.number != n)
      && (t.Some? ==> t.value.number == n && There(s.tables, t.value) && s.db.imm == Some(t.value.entries))
    case Built(t) =>
      && (t.Some? ==> There(s.tables, t.value) && t.value.number < s.db.nextFile && s.db.imm == Some(t.value.entries))
      && (t.None? ==> s.db.imm == Some([]))
  }

  ghost predicate TablesExist(s: Store) {
    && AllThere(s, s.db.files) && (forall v :: v in s.held ==> AllThere(s, v))
    && (forall f :: f in OutputsOf(s.job) ==> There(s.tables, f) && f.number in s.pending)
    && (forall n :: n in s.pending ==> n < s.db.nextFile)
    && FlushTable(s)
  }

  ghost predicate LogsExist(s: Store) {
    && |s.logs| > 0 && s.logs[|s.logs| - 1].number == s.logfileNumber
    && RunEntries(s.logs[|s.logs| - 1].entries) == RunEntries(s.db.mem)
    && ByNumber(s.logs)
    && s.logNumber <= s.logfileNumber < s.db.nextFile
    && (s.db.imm.None? ==> s.logNumber == s.logfileNumber)
    && LogEntries(s.logs, s.logNumber) == RunEntries(s.db.mem) + ImmEntries(s.db)
  }

  ghost predicate ByNumber(logs: seq<LogFile>) {
    forall i, j :: 0 <= i < j < |logs| ==> logs[i].number < logs[j].number
  }

  ghost predicate Safe(s: Store) {
    TablesExist(s) && LogsExist(s)
  }

  // ----- logs -----

  lemma {:induction false} LogEntriesSnoc(logs: seq<LogFile>, l: LogFile, from: nat)
    ensures LogEntries(logs + [l], from) ==
            LogEntries(logs, from) + if l.number >= from then RunEntries(l.entries) else iset{}
  {
    assert l in logs + [l];
    forall e ensures e in LogEntries(logs + [l], from) <==>
                     e in LogEntries(logs, from) || (l.number >= from && e in l.entries)
    {
      if e in LogEntries(logs, from) {
        var m :| m in logs && m.number >= from && e in m.entries;
        assert m in logs + [l];
      }
    }
  }

  lemma {:induction false} KeptMembers(logs: seq<LogFile>, from: nat)
    ensures forall l :: l in KeptLogs(logs, from) <==> l in logs && l.number >= from
  {
    if |logs| > 0 {
      var n := |logs| - 1;
      assert logs == logs[..n] + [logs[n]];
      KeptMembers(logs[..n], from);
    }
  }

  lemma {:induction false} KeptSorted(logs: seq<LogFile>, from: nat)
    requires ByNumber(logs)
    ensures ByNumber(KeptLogs(logs, from))
  {
    if |logs| > 0 {
      var n := |logs| - 1;
      KeptSorted(logs[..n], from);
      KeptMembers(logs[..n], from);
      var front := KeptLogs(logs[..n], from);
      forall i | 0 <= i < |front| ensures front[i].number < logs[n].number {
        assert front[i] in front;
      }
    }
  }

  lemma {:induction false} BatchIsNew(h: seq<Op>, ops: seq<Op>)
    ensures RunEntries(BatchEntries(h, ops)) == NewEntries(h, ops)
  {
    var r := BatchEntries(h, ops);
    forall e ensures e in r <==> e in NewEntries(h, ops) {
      if e in NewEntries(h, ops) { assert e == r[e.ikey.sequence - 1 - |h|]; }
    }
  }

  lemma {:induction false} RunOfSum(a: seq<Entry>, b: seq<Entry>)
    ensures RunEntries(a + b) == RunEntries(a) + RunEntries(b)
  {
  }

  lemma {:induction false} WriteKeepsLogs(s: Store, ops: seq<Op>, s': Store)
    requires LogsExist(s) && Step(s, Action.Write(ops), s')
    ensures LogsExist(s')
  {
    hide LogEntries, RunEntries, NewEntries, Sorted, ByNumber;
    var n := |s.logs| - 1;
    var front, last, batch := s.logs[..n], s.logs[n], BatchEntries(s.db.history, ops);
    assert s.logs == front + [last];
    BatchIsNew(s.db.history, ops);
    RunOfSum(last.entries, batch);
    LogEntriesSnoc(front, last, s.logNumber);
    LogEntriesSnoc(front, LogFile(last.number, last.entries + batch), s.logNumber);
    assert ByNumber(s'.logs) by { SameNumbers(s.logs, s'.logs); }
    assert ImmEntries(s'.db) == ImmEntries(s.db);
  }

  lemma {:induction false} SameNumbers(a: seq<LogFile>, b: seq<LogFile>)
    requires ByNumber(a) && |a| == |b| && forall i :: 0 <= i < |a| ==> a[i].number == b[i].number
    ensures ByNumber(b)
  {
  }

  lemma {:induction false} SwitchKeepsLogs(s: Store, s': Store)
    requires LogsExist(s) && Step(s, SwitchLog, s')
    ensures LogsExist(s')
  {
    hide LogEntries;
    LogEntriesSnoc(s.logs, LogFile(s.db.nextFile, []), s.logNumber);
    NumbersBelow(s);
    assert RunEntries([]) == iset{};
    assert ImmEntries(s'.db) == RunEntries(s.db.mem) && ImmEntries(s.db) == iset{};
  }

  lemma {:induction false} NumbersBelow(s: Store)
    requires LogsExist(s)
    ensures forall i :: 0 <= i < |s.logs| ==> s.logs[i].number <= s.logfileNumber
    ensures forall l :: l in s.logs[..|s.logs| - 1] ==> l.number < s.logfileNumber
  {
    hide LogEntries, RunEntries, ImmEntries;
  }

  /** Only the newest log is left to replay, and it has the whole memtable. */
  lemma {:induction false} InstallKeepsLogs(s: Store, level: nat, s': Store)
    requires LogsExist(s) && Step(s, InstallFlush(level), s')
    ensures LogsExist(s')
  {
    hide Added, RunEntries;
    var n := |s.logs| - 1;
    assert s.logs == s.logs[..n] + [s.logs[n]];
    NumbersBelow(s);
    assert LogEntries(s.logs[..n], s.logfileNumber) == iset{};
    LogEntriesSnoc(s.logs[..n], s.logs[n], s.logfileNumber);
  }

  lemma {:induction false} DeleteKeepsLogs(s: Store, s': Store)
    requires LogsExist(s) && Step(s, Delete, s')
    ensures LogsExist(s') && LogEntries(s'.logs, s.logNumber) == LogEntries(s.logs, s.logNumber)
  {
    hide RunEntries, ImmEntries, Live;
    KeptMembers(s.logs, s.logNumber);
    KeptSorted(s.logs, s.logNumber);
    var n := |s.logs| - 1;
    assert s.logs[n] in s.logs;
  }

  lemma {:induction false} StepKeepsLogs(s: Store, a: Action, s': Store)
    requires LogsExist(s) && Step(s, a, s')
    ensures LogsExist(s')
  {
    if a.Write? { WriteKeepsLogs(s, a.ops, s'); }
    else if a.SwitchLog? { SwitchKeepsLogs(s, s'); }
    else if a.InstallFlush? { InstallKeepsLogs(s, a.level, s'); }
    else if a.Delete? { DeleteKeepsLogs(s, s'); }
    else {
      hide LogEntries, KeptLogs, RunEntries, ByNumber, Exchanged, ValidInputs;
      assert ImmEntries(s'.db) == ImmEntries(s.db);
    }
  }

  // ----- tables -----

  /** The tables of every file in use survive a step that removes none of them. */
  lemma {:induction false} StillThere(s: Store, s': Store, files: seq<seq<File>>)
    requires AllThere(s, files) && s.db.nextFile <= s'.db.nextFile
    requires forall f :: InVersion(files, f) && There(s.tables, f) ==> There(s'.tables, f)
    ensures AllThere(s', files)
  {
  }

  ghost predicate NoneLost(s: Store, s': Store) {
    s.db.nextFile <= s'.db.nextFile && forall f :: InUse(s, f) && There(s.tables, f) ==> There(s'.tables, f)
  }

  lemma {:induction false} VersionsStay(s: Store, s': Store)
    requires TablesExist(s) && NoneLost(s, s')
    ensures AllThere(s', s.db.files) && forall v :: v in s.held ==> AllThere(s', v)
  {
    hide FlushTable, There, InVersion;
    StillThere(s, s', s.db.files);
    forall v | v in s.held ensures AllThere(s', v) {
      StillThere(s, s', v);
    }
  }

  lemma {:induction false} DeleteLosesNone(s: Store, s': Store)
    requires TablesExist(s) && Step(s, Delete, s')
    ensures NoneLost(s, s')
  {
    hide InVersion, KeptLogs, FlushTable;
    forall f | InUse(s, f) && There(s.tables, f) ensures There(s'.tables, f) {
      if f in OutputsOf(s.job) { assert f.number in s.pending; } else { assert Live(s, f.number); }
    }
  }

  lemma {:induction false} DeleteKeepsTables(s: Store, s': Store)
    requires TablesExist(s) && Step(s, Delete, s')
    ensures TablesExist(s')
  {
    hide InVersion, KeptLogs, Live;
    DeleteLosesNone(s, s');
    VersionsStay(s, s');
  }

  lemma {:induction false} CreateKeepsTables(s: Store, f: File, s': Store)
    requires TablesExist(s) && Step(s, CreateTable(f), s')
    ensures TablesExist(s')
  {
    hide InVersion;
    VersionsStay(s, s');
  }

  lemma {:induction false} OpenKeepsTables(s: Store, f: File, s': Store)
    requires TablesExist(s) && Step(s, OpenOutput(f), s')
    ensures TablesExist(s')
  {
    hide InVersion;
    forall g | InUse(s, g) ensures g.number < f.number { InUseBelow(s, g); }
    VersionsStay(s, s');
  }

  lemma {:induction false} InUseBelow(s: Store, f: File)
    requires TablesExist(s) && InUse(s, f)
    ensures f.number < s.db.nextFile
  {
    hide InVersion, FlushTable;
  }

  lemma {:induction false} BeginKeepsTables(s: Store, s': Store)
    requires TablesExist(s) && Step(s, BeginFlush, s')
    ensures TablesExist(s')
  {
    hide InVersion;
    VersionsStay(s, s');
    forall f | InUse(s', f) ensures f.number != s.db.nextFile { InUseBelow(s, f); }
  }

  lemma {:induction false} AddedMembers(files: seq<seq<File>>, level: nat, table: Option<File>, files': seq<seq<File>>, f: File)
    requires Added(files, level, table, files')
    ensures InVersion(files', f) <==> InVersion(files, f) || table == Some(f)
  {
    if InVersion(files, f) {
      var l :| 0 <= l < |files| && f in files[l];
      assert f in files'[l];
    }
    if table == Some(f) { assert f in files'[level]; }
  }

  lemma {:induction false} InstallKeepsTables(s: Store, level: nat, s': Store)
    requires TablesExist(s) && Step(s, InstallFlush(level), s')
    ensures TablesExist(s')
  {
    hide InVersion, Added;
    VersionsStay(s, s');
    forall f | InVersion(s'.db.files, f) ensures There(s.tables, f) && f.number < s.db.nextFile {
      AddedMembers(s.db.files, level, s.flush.table, s'.db.files, f);
    }
  }

  lemma {:induction false} ExchangedMembers(files: seq<seq<File>>, level: nat, in0: seq<File>, in1: seq<File>,
      outputs: seq<File>, files': seq<seq<File>>, f: File)
    requires Exchanged(files, level, in0, in1, outputs, files') && InVersion(files', f)
    ensures InVersion(files, f) || f in outputs
  {
    var l :| 0 <= l < |files'| && f in files'[l];
    assert f in files[l] || f in outputs;
  }

  lemma {:induction false} CompactionKeepsTables(s: Store, s': Store)
    requires TablesExist(s) && Step(s, InstallCompaction, s')
    ensures TablesExist(s')
  {
    hide InVersion, Exchanged;
    VersionsStay(s, s');
    var j := s.job;
    forall f | InVersion(s'.db.files, f) ensures InVersion(s.db.files, f) || f in j.outputs {
      ExchangedMembers(s.db.files, j.level, j.in0, j.in1, j.outputs, s'.db.files, f);
    }
    forall f | InUse(s', f) ensures InUse(s, f) { }
  }

  lemma {:induction false} MoveKeepsTables(s: Store, level: nat, f: File, s': Store)
    requires TablesExist(s) && Step(s, Move(level, f), s')
    ensures TablesExist(s')
  {
    hide InVersion, Exchanged, ValidInputs;
    VersionsStay(s, s');
    forall g | InVersion(s'.db.files, g) ensures InVersion(s.db.files, g) {
      ExchangedMembers(s.db.files, level, [f], [], [f], s'.db.files, g);
      MovedWasThere(s.db.files, level, f);
    }
    forall g | InUse(s', g) ensures InUse(s, g) { }
  }

  lemma {:induction false} MovedWasThere(files: seq<seq<File>>, level: nat, f: File)
    requires ValidInputs(files, level, [f], [])
    ensures InVersion(files, f)
  {
    assert f in [f];
  }

  /** Steps that touch no table and only let go of files. */
  lemma {:induction false} QuietKeepsTables(s: Store, a: Action, s': Store)
    requires TablesExist(s) && Step(s, a, s')
    requires a.Write? || a.SwitchLog? || a.FinishTable? || a.BeginCompaction? || a.EndCompaction? || a.Hold? || a.LetGo?
    ensures TablesExist(s')
  {
    hide InVersion, ValidInputs, NewEntries, Sorted;
    VersionsStay(s, s');
    if a.LetGo? { assert forall v :: v in s'.held ==> v in s.held; }
    forall f | InUse(s', f) ensures InUse(s, f) { }
  }

  lemma {:induction false} StepKeepsTables(s: Store, a: Action, s': Store)
    requires TablesExist(s) && Step(s, a, s')
    ensures TablesExist(s')
  {
    hide TablesExist, Step;
    match a
    case BeginFlush => BeginKeepsTables(s, s');
    case CreateTable(f) => CreateKeepsTables(s, f, s');
    case InstallFlush(level) => InstallKeepsTables(s, level, s');
    case OpenOutput(f) => OpenKeepsTables(s, f, s');
    case InstallCompaction => CompactionKeepsTables(s, s');
    case Move(level, f) => MoveKeepsTables(s, level, f, s');
    case Delete => DeleteKeepsTables(s, s');
    case _ => QuietKeepsTables(s, a, s');
  }

  // ----- nothing is lost -----

  lemma {:induction false} EntriesOfVersion(files: seq<seq<File>>, e: Entry)
    ensures e in FileEntries(files) <==> exists f :: InVersion(files, f) && e in f.entries
  {
    if f: File :| InVersion(files, f) && e in f.entries {
      var l :| 0 <= l < |files| && f in files[l];
      assert InLevel(files[l], e);
    }
    if e in FileEntries(files) {
      var l :| 0 <= l < |files| && InLevel(files[l], e);
      var f :| f in files[l] && e in f.entries;
      assert InVersion(files, f);
    }
  }

  lemma {:induction false} TablesHold(s: Store)
    requires AllThere(s, s.db.files)
    ensures TableEntries(s.tables, s.db.files) == FileEntries(s.db.files)
  {
    hide InVersion, FileEntries;
    forall e ensures e in TableEntries(s.tables, s.db.files) <==> e in FileEntries(s.db.files) {
      EntriesOfVersion(s.db.files, e);
    }
  }

  /** Recovering would give back exactly the entries that the store holds. */
  lemma {:induction false} SafeMeans(s: Store)
    requires Safe(s)
    ensures Recovered(s) == Stored(s.db) && forall f :: InUse(s, f) ==> There(s.tables, f)
  {
    hide InVersion, There, FileEntries, TableEntries, LogEntries, FlushTable, ImmEntries;
    TablesHold(s);
  }

  lemma {:induction false} FlushStores(s: Store, level: nat, s': Store)
    requires Safe(s) && Step(s, InstallFlush(level), s')
    ensures Stored(s'.db) == Stored(s.db)
  {
    hide InVersion, FileEntries, Added, LogsExist;
    var table := s.flush.table;
    forall e ensures e in FileEntries(s'.db.files) <==> e in FileEntries(s.db.files) || e in ImmEntries(s.db) {
      EntriesOfVersion(s.db.files, e);
      EntriesOfVersion(s'.db.files, e);
      forall f ensures InVersion(s'.db.files, f) <==> InVersion(s.db.files, f) || table == Some(f) {
        AddedMembers(s.db.files, level, table, s'.db.files, f);
      }
    }
    assert ImmEntries(s'.db) == iset{};
  }

  lemma {:induction false} MoveStores(s: Store, level: nat, f: File, s': Store)
    requires Step(s, Move(level, f), s')
    ensures Stored(s'.db) == Stored(s.db)
  {
    hide InVersion, FileEntries, UpperClosed, Covered;
    forall e ensures e in FileEntries(s'.db.files) <==> e in FileEntries(s.db.files) {
      EntriesOfVersion(s.db.files, e);
      EntriesOfVersion(s'.db.files, e);
      forall g ensures InVersion(s'.db.files, g) <==> InVersion(s.db.files, g) {
        MovedMembers(s.db.files, level, f, s'.db.files, g);
      }
    }
    assert ImmEntries(s'.db) == ImmEntries(s.db);
  }

  lemma {:induction false} MovedMembers(files: seq<seq<File>>, level: nat, f: File, files': seq<seq<File>>, g: File)
    requires ValidInputs(files, level, [f], []) && Exchanged(files, level, [f], [], [f], files')
    ensures InVersion(files', g) <==> InVersion(files, g)
  {
    hide ValidInputs, SortedBySmallest;
    MovedWasThere(files, level, f);
    if InVersion(files', g) { ExchangedMembers(files, level, [f], [], [f], files', g); }
    if g != f && InVersion(files, g) {
      var l :| 0 <= l < |files| && g in files[l];
      assert g in files'[l];
    }
    if g == f { assert f in [f] && f in files'[level + 1]; }
  }

  /** Of all steps only a compaction changes what is stored, and a write, which adds its
      own entries. */
  lemma {:induction false} OnlyCompactionsDrop(s: Store, a: Action, s': Store)
    requires Safe(s) && Step(s, a, s') && !a.InstallCompaction?
    ensures Stored(s'.db) == Stored(s.db) + if a.Write? then NewEntries(s.db.history, a.ops) else iset{}
  {
    if a.InstallFlush? { FlushStores(s, a.level, s'); }
    else if a.Move? { MoveStores(s, a.moveLevel, a.moved, s'); }
    else {
      hide FileEntries, RunEntries, Safe, NewEntries, Sorted, ValidInputs;
      if a.SwitchLog? { NothingInRun(); }
      assert ImmEntries(s'.db) == if a.SwitchLog? then RunEntries(s.db.mem) else ImmEntries(s.db);
    }
  }

  lemma {:induction false} NothingInRun()
    ensures RunEntries([]) == iset{}
  {
  }

  // ----- every run -----

  ghost predicate IsRun(ss: seq<Store>, actions: seq<Action>) {
    && |ss| == |actions| + 1 && ss[0] == Created()
    && forall i :: 0 <= i < |actions| ==> Step(ss[i], actions[i], ss[i + 1])
  }

  lemma {:induction false} NoTablesYet()
    ensures TablesExist(Created())
  {
  }

  lemma {:induction false} CreatedIsSafe()
    ensures Safe(Created())
  {
    NoTablesYet();
    hide TablesExist;
    LogEntriesSnoc([], LogFile(3, []), 3);
    NothingInRun();
    assert [] + [LogFile(3, [])] == [LogFile(3, [])];
    assert LogEntries([], 3) == iset{};
  }

  /** Nothing still needed is deleted: in every reachable state each table of a version in
      use and each output being written exists with its entries, and recovering from the
      current version's tables and the logs that remain gives exactly what is stored. */
  lemma {:induction false} NothingNeededIsDeleted(ss: seq<Store>, actions: seq<Action>, n: nat)
    requires IsRun(ss, actions) && n < |ss|
    ensures Safe(ss[n])
    ensures Recovered(ss[n]) == Stored(ss[n].db) && forall f :: InUse(ss[n], f) ==> There(ss[n].tables, f)
  {
    hide Step, Created, TablesExist, LogsExist, Stored, InUse, Recovered, There;
    if n == 0 {
      CreatedIsSafe();
    } else {
      NothingNeededIsDeleted(ss, actions, n - 1);
      assert Step(ss[n - 1], actions[n - 1], ss[n - 1 + 1]);
      StepKeepsTables(ss[n - 1], actions[n - 1], ss[n]);
      StepKeepsLogs(ss[n - 1], actions[n - 1], ss[n]);
    }
    SafeMeans(ss[n]);
  }

  /** So while live reads are right, what is recovered at any moment reads as the replayed
      operations. */
  lemma {:induction false} RecoveryReadsRight(ss: seq<Store>, actions: seq<Action>, n: nat, k: UserKey, t: nat)
    requires IsRun(ss, actions) && n < |ss| && ReadsOk(ss[n].db)
    requires SmallestSnapshot(ss[n].db) <= t <= |ss[n].db.history|
    ensures View(Recovered(ss[n]), k, t) == Lookup(Replay(ss[n].db.history[..t]), k)
  {
    hide Step, Created, Safe, Stored, Recovered, IsRun, ReadsOk, View, Replay;
    NothingNeededIsDeleted(ss, actions, n);
    ReadsAreReplay(ss[n].db, k, t);
  }

  /** It matters that the background thread does not delete between erasing the pending
      number of a flushed table and installing it: a second thread doing so would delete
      the table of the new version. */
  lemma {:induction false} DeletingInTheWindowLosesATable(s: Store, s1: Store, level: nat, s2: Store)
    requires TablesExist(s) && s.flush.Built? && s.flush.table.Some?
    requires var n := s.flush.table.value.number; n !in s.pending && !Live(s, n)
    requires s1 == Deleted(s) && Step(s1, InstallFlush(level), s2)
    ensures InVersion(s2.db.files, s.flush.table.value) && !There(s2.tables, s.flush.table.value)
  {
    hide KeptLogs, TablesExist, InVersion, Added, Live;
    AddedMembers(s1.db.files, level, s1.flush.table, s2.db.files, s.flush.table.value);
  }
}
