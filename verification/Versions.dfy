/** Table files, levels and point lookups through a version (db/version_set.cc).

    A table file is represented by its number, its size and the sorted run of
    entries it holds; FileMetaData::smallest and largest are the keys of the
    first and last entry, as BuildTable and DoCompactionWork record them. */
module Versions {
  import opened InternalKeys

  /** config::kNumLevels */
  const NUM_LEVELS := 7

  /** FileMetaData, with the entries of the table file it stands for. */
  datatype FileMetaData = FileMetaData(number: nat, size: nat, smallest: InternalKey, largest: InternalKey,
                                       entries: seq<Entry>)

  type File = f: FileMetaData | !Less(f.largest, f.smallest) && f.largest.sequence <= MAX_SEQUENCE
    witness FileMetaData(0, 0, InternalKey(0.0, 0, TypeDeletion), InternalKey(0.0, 0, TypeDeletion), [])

  /** The metadata describe the table, as BuildTable and DoCompactionWork leave
      them: the keys of its first and last entry. */
  ghost predicate IsTable(f: File) {
    && |f.entries| > 0 && Sorted(f.entries)
    && f.smallest == f.entries[0].ikey && f.largest == f.entries[|f.entries| - 1].ikey
  }

  ghost predicate AllTables(fs: seq<File>) {
    forall f :: f in fs ==> IsTable(f)
  }

  lemma {:induction false} WithinFile(f: File, e: Entry)
    requires IsTable(f) && e in f.entries
    ensures !Less(e.ikey, f.smallest) && !Less(f.largest, e.ikey)
    ensures f.smallest.user <= e.ikey.user <= f.largest.user
  {
    var i :| 0 <= i < |f.entries| && f.entries[i] == e;
    assert 0 < i ==> Less(f.smallest, f.entries[i].ikey);
    assert i < |f.entries| - 1 ==> Less(f.entries[i].ikey, f.largest);
  }

  /** The files of a level >= 1: disjoint, in key order. */
  ghost predicate LevelSorted(fs: seq<File>) {
    forall i, j :: 0 <= i < j < |fs| ==> Less(fs[i].largest, fs[j].smallest)
  }

  /** AfterFile: the range starting at `k` lies after `f`; None is before all keys. */
  predicate AfterFile(k: Option<UserKey>, f: File) {
    k.Some? && k.value > f.largest.user
  }

  /** BeforeFile: the range ending at `k` lies before `f`; None is after all keys. */
  predicate BeforeFile(k: Option<UserKey>, f: File) {
    k.Some? && k.value < f.smallest.user
  }

  predicate Overlaps(f: File, begin: Option<UserKey>, end: Option<UserKey>) {
    !AfterFile(begin, f) && !BeforeFile(end, f)
  }

  /** FindFile: the first file whose largest key is at or after `key`. */
  method FindFile(files: seq<File>, key: InternalKey) returns (right: nat)
    requires LevelSorted(files)
    ensures right <= |files|
    ensures forall i :: 0 <= i < right ==> Less(files[i].largest, key)
    ensures forall i :: right <= i < |files| ==> !Less(files[i].largest, key)
  {
    var left := 0;
    right := |files|;
    while left < right
      invariant 0 <= left <= right <= |files|
      invariant forall i :: 0 <= i < left ==> Less(files[i].largest, key)
      invariant forall i :: right <= i < |files| ==> !Less(files[i].largest, key)
    {
      var mid := (left + right) / 2;
      if Less(files[mid].largest, key) {
        forall i | 0 <= i < mid ensures Less(files[i].largest, key) {
          LargestAscend(files, i, mid);
        }
        left := mid + 1;
      } else {
        forall i | mid < i < |files| ensures !Less(files[i].largest, key) {
          LargestAscend(files, mid, i);
        }
        right := mid;
      }
    }
  }

  lemma {:induction false} LargestAscend(files: seq<File>, i: nat, j: nat)
    requires LevelSorted(files) && i < j < |files|
    ensures Less(files[i].largest, files[j].largest)
  {
  }

  /** SomeFileOverlapsRange: the binary search over disjoint files decides the
      same question as looking at every file. */
  method SomeFileOverlapsRange(disjointSorted: bool, files: seq<File>,
                               smallest: Option<UserKey>, largest: Option<UserKey>)
    returns (overlap: bool)
    requires disjointSorted ==> LevelSorted(files)
    requires smallest.Some? && largest.Some? ==> smallest.value <= largest.value
    ensures overlap <==> exists f :: f in files && Overlaps(f, smallest, largest)
  {
    if !disjointSorted {
      for i := 0 to |files|
        invariant forall j :: 0 <= j < i ==> !Overlaps(files[j], smallest, largest)
      {
        if AfterFile(smallest, files[i]) || BeforeFile(largest, files[i]) {
        } else {
          assert files[i] in files && Overlaps(files[i], smallest, largest);
          return true;
        }
      }
      return false;
    }
    var index := 0;
    if smallest.Some? {
      index := FindFile(files, InternalKey(smallest.value, MAX_SEQUENCE, TypeValue));
      forall i | 0 <= i < |files| ensures i < index <==> AfterFile(smallest, files[i]) {
      }
    }
    if index >= |files| {
      return false;
    }
    overlap := !BeforeFile(largest, files[index]);
    assert files[index] in files;
    forall i | index < i < |files| && Overlaps(files[i], smallest, largest)
      ensures Overlaps(files[index], smallest, largest)
    {
      assert Less(files[index].largest, files[i].smallest);
    }
  }

  // ----- point lookups -----

  ghost predicate InLevel(fs: seq<File>, e: Entry) {
    exists f :: f in fs && e in f.entries
  }

  ghost function LevelEntries(fs: seq<File>): iset<Entry> {
    iset e | InLevel(fs, e)
  }

  ghost predicate InFiles(files: seq<seq<File>>, e: Entry) {
    exists l :: 0 <= l < |files| && InLevel(files[l], e)
  }

  ghost function RunEntries(es: seq<Entry>): iset<Entry> {
    iset e | e in es
  }

  ghost function FileEntries(files: seq<seq<File>>): iset<Entry> {
    iset e | InFiles(files, e)
  }

  /** Entries of `S` are newer than entries of `T` with the same user key. */
  ghost predicate Newer(S: iset<Entry>, T: iset<Entry>) {
    forall x, y :: x in S && y in T && x.ikey.user == y.ikey.user ==> x.ikey.sequence > y.ikey.sequence
  }

  /** Level 0: distinct numbers, and a higher number means newer entries. */
  ghost predicate NumberedByAge(fs: seq<File>) {
    && (forall i, j :: 0 <= i < j < |fs| ==> fs[i].number != fs[j].number)
    && (forall f, g :: f in fs && g in fs && f.number > g.number ==> Newer(RunEntries(f.entries), RunEntries(g.entries)))
  }

  /** What a version must satisfy for level-by-level search to be right. */
  ghost predicate Layered(files: seq<seq<File>>) {
    && |files| == NUM_LEVELS
    && (forall l :: 0 <= l < NUM_LEVELS ==> AllTables(files[l]))
    && NumberedByAge(files[0])
    && (forall l :: 1 <= l < NUM_LEVELS ==> LevelSorted(files[l]))
    && (forall a, b :: 0 <= a < b < NUM_LEVELS ==> Newer(LevelEntries(files[a]), LevelEntries(files[b])))
  }

  /** The outcome of SaveValue over the tables consulted. */
  datatype SaverState = NotFound | Found(value: Value) | Deleted

  function SaveValue(e: Entry): SaverState {
    if e.ikey.kind.TypeValue? then Found(e.value) else Deleted
  }

  /** `r` is the right outcome of searching `S` for `k` at snapshot `s`. */
  ghost predicate Answers(S: iset<Entry>, k: UserKey, s: nat, r: SaverState) {
    if r.NotFound? then forall x :: x in S && x.ikey.user == k ==> x.ikey.sequence > s
    else exists e :: NewestAt(S, k, s, e) && r == SaveValue(e)
  }

  /** TableCache::Get followed by SaveValue: the first entry at or after the
      lookup key counts when it has the right user key. */
  method SearchRun(es: seq<Entry>, k: UserKey, s: nat) returns (r: SaverState)
    requires Sorted(es)
    ensures Answers(RunEntries(es), k, s, r)
  {
    SeekFindsNewest(es, k, s);
    var i := SeekIndex(es, LookupKey(k, s));
    if i < |es| && es[i].ikey.user == k {
      r := SaveValue(es[i]);
      assert NewestAt(RunEntries(es), k, s, es[i]);
    } else {
      r := NotFound;
    }
  }

  /** A hit in the newer part settles the search; a miss passes it on. */
  lemma {:induction false} AnswersCombine(S: iset<Entry>, T: iset<Entry>, k: UserKey, s: nat, r: SaverState)
    requires Newer(S, T)
    ensures !r.NotFound? && Answers(S, k, s, r) ==> Answers(S + T, k, s, r)
    ensures Answers(S, k, s, NotFound) && Answers(T, k, s, r) ==> Answers(S + T, k, s, r)
  {
    if !r.NotFound? && Answers(S, k, s, r) {
      var e :| NewestAt(S, k, s, e) && r == SaveValue(e);
      assert NewestAt(S + T, k, s, e);
    }
    if Answers(S, k, s, NotFound) && Answers(T, k, s, r) && !r.NotFound? {
      var e :| NewestAt(T, k, s, e) && r == SaveValue(e);
      assert NewestAt(S + T, k, s, e);
    }
  }

  ghost predicate NewestFirst(fs: seq<File>) {
    forall i, j :: 0 <= i < j < |fs| ==> fs[i].number >= fs[j].number
  }

  function InsertByNumber(fs: seq<File>, f: File): (r: seq<File>)
    ensures forall g :: g in r <==> g in fs || g == f
    ensures NewestFirst(fs) ==> NewestFirst(r)
  {
    if |fs| == 0 || f.number > fs[0].number then [f] + fs
    else
      var t := InsertByNumber(fs[1..], f);
      assert fs == [fs[0]] + fs[1..];
      assert forall g :: g in fs[1..] ==> g in fs;
      assert NewestFirst(fs) ==> NewestFirst(fs[1..]) && forall g :: g in fs[1..] ==> g.number <= fs[0].number;
      assert forall j :: 0 <= j < |t| ==> t[j] in t;
      [fs[0]] + t
  }

  /** std::sort with NewestFirst */
  function SortNewestFirst(fs: seq<File>): (r: seq<File>)
    ensures forall g :: g in r <==> g in fs
    ensures NewestFirst(r)
  {
    if |fs| == 0 then []
    else
      assert fs == [fs[0]] + fs[1..];
      InsertByNumber(SortNewestFirst(fs[1..]), fs[0])
  }

  /** `files` are the level-0 files whose user-key range covers `k`, newest first. */
  ghost predicate Candidates(fs: seq<File>, k: UserKey, files: seq<File>) {
    && NewestFirst(files)
    && forall f :: f in files <==> f in fs && f.smallest.user <= k <= f.largest.user
  }

  method Level0Candidates(fs: seq<File>, k: UserKey) returns (files: seq<File>)
    ensures Candidates(fs, k, files)
  {
    var tmp := [];
    for i := 0 to |fs|
      invariant forall f :: f in tmp <==> f in fs[..i] && f.smallest.user <= k <= f.largest.user
    {
      assert fs[..i + 1] == fs[..i] + [fs[i]];
      if k >= fs[i].smallest.user && k <= fs[i].largest.user {
        tmp := tmp + [fs[i]];
      }
    }
    assert fs[..|fs|] == fs;
    files := SortNewestFirst(tmp);
  }

  /** The level-0 part of Version::Get: the files that may hold `k`, newest
      first, until one of them answers. */
  method GetFromLevel0(fs: seq<File>, k: UserKey, s: nat) returns (r: SaverState)
    requires AllTables(fs) && NumberedByAge(fs)
    ensures Answers(LevelEntries(fs), k, s, r)
  {
    var files := Level0Candidates(fs, k);
    for i := 0 to |files|
      invariant forall j :: 0 <= j < i ==> Answers(RunEntries(files[j].entries), k, s, NotFound)
    {
      assert files[i] in fs;
      r := SearchRun(files[i].entries, k, s);
      if !r.NotFound? {
        Level0Hit(fs, files, i, k, s, r);
        return;
      }
    }
    Level0Miss(fs, files, k, s);
    return NotFound;
  }

  lemma {:induction false} Level0Miss(fs: seq<File>, files: seq<File>, k: UserKey, s: nat)
    requires AllTables(fs) && Candidates(fs, k, files)
    requires forall j :: 0 <= j < |files| ==> Answers(RunEntries(files[j].entries), k, s, NotFound)
    ensures Answers(LevelEntries(fs), k, s, NotFound)
  {
    forall x | x in LevelEntries(fs) && x.ikey.user == k ensures x.ikey.sequence > s {
      var f :| f in fs && x in f.entries;
      WithinFile(f, x);
      assert f in files;
      assert x in RunEntries(f.entries);
    }
  }

  lemma {:induction false} Level0Hit(fs: seq<File>, files: seq<File>, i: nat, k: UserKey, s: nat, r: SaverState)
    requires AllTables(fs) && NumberedByAge(fs) && Candidates(fs, k, files) && i < |files|
    requires forall j :: 0 <= j < i ==> Answers(RunEntries(files[j].entries), k, s, NotFound)
    requires !r.NotFound? && Answers(RunEntries(files[i].entries), k, s, r)
    ensures Answers(LevelEntries(fs), k, s, r)
  {
    var e :| NewestAt(RunEntries(files[i].entries), k, s, e) && r == SaveValue(e);
    forall x | x in LevelEntries(fs) && x.ikey.user == k && x.ikey.sequence <= s
      ensures x.ikey.sequence <= e.ikey.sequence
    {
      Level0Newest(fs, files, i, k, s, e, x);
    }
    assert files[i] in fs;
    assert NewestAt(LevelEntries(fs), k, s, e);
  }

  /** A visible entry of `k` sits in no candidate that has already missed. */
  lemma {:induction false} Level0Position(fs: seq<File>, files: seq<File>, i: nat, k: UserKey, s: nat, f: File,
      x: Entry)
    requires AllTables(fs) && Candidates(fs, k, files) && i < |files| && f in fs && x in f.entries
    requires forall j :: 0 <= j < i ==> Answers(RunEntries(files[j].entries), k, s, NotFound)
    requires x.ikey.user == k && x.ikey.sequence <= s
    ensures f.number <= files[i].number
  {
    WithinFile(f, x);
    var j :| 0 <= j < |files| && files[j] == f;
    assert x in RunEntries(f.entries);
  }

  lemma {:induction false} Level0Newest(fs: seq<File>, files: seq<File>, i: nat, k: UserKey, s: nat, e: Entry, x: Entry)
    requires AllTables(fs) && NumberedByAge(fs) && Candidates(fs, k, files) && i < |files|
    requires forall j :: 0 <= j < i ==> Answers(RunEntries(files[j].entries), k, s, NotFound)
    requires NewestAt(RunEntries(files[i].entries), k, s, e)
    requires InLevel(fs, x) && x.ikey.user == k && x.ikey.sequence <= s
    ensures x.ikey.sequence <= e.ikey.sequence
  {
    var f :| f in fs && x in f.entries;
    if f == files[i] {
      assert x in RunEntries(f.entries);
    } else {
      Level0Position(fs, files, i, k, s, f, x);
      OlderLevel0File(fs, files[i], f, e, x);
    }
  }

  lemma {:induction false} OlderLevel0File(fs: seq<File>, f: File, g: File, x: Entry, y: Entry)
    requires NumberedByAge(fs) && f in fs && g in fs && f != g && f.number >= g.number
    requires x in f.entries && y in g.entries && x.ikey.user == y.ikey.user
    ensures x.ikey.sequence > y.ikey.sequence
  {
    var a :| 0 <= a < |fs| && fs[a] == f;
    var b :| 0 <= b < |fs| && fs[b] == g;
    assert a < b || b < a;
    assert Newer(RunEntries(f.entries), RunEntries(g.entries));
    assert x in RunEntries(f.entries) && y in RunEntries(g.entries);
  }

  /** One deeper level of Version::Get: only the first file whose largest key is
      at or after the lookup key can hold the answer. */
  method GetFromLevel(fs: seq<File>, k: UserKey, s: nat) returns (r: SaverState)
    requires AllTables(fs) && LevelSorted(fs)
    ensures Answers(LevelEntries(fs), k, s, r)
  {
    var ikey := LookupKey(k, s);
    var index := FindFile(fs, ikey);
    r := NotFound;
    if index >= |fs| {
    } else if k < fs[index].smallest.user {
    } else {
      assert fs[index] in fs;
      r := SearchRun(fs[index].entries, k, s);
    }
    SortedLevelAnswer(fs, k, s, index, r);
  }

  lemma {:induction false} SortedLevelAnswer(fs: seq<File>, k: UserKey, s: nat, index: nat, r: SaverState)
    requires AllTables(fs) && LevelSorted(fs) && index <= |fs|
    requires forall i :: 0 <= i < index ==> Less(fs[i].largest, LookupKey(k, s))
    requires index < |fs| ==> !Less(fs[index].largest, LookupKey(k, s))
    requires if index < |fs| && k >= fs[index].smallest.user then Answers(RunEntries(fs[index].entries), k, s, r) else r.NotFound?
    ensures Answers(LevelEntries(fs), k, s, r)
  {
    forall x | x in LevelEntries(fs) && x.ikey.user == k && x.ikey.sequence <= s
      ensures !r.NotFound? && exists e :: NewestAt(RunEntries(fs[index].entries), k, s, e) && x.ikey.sequence <= e.ikey.sequence
    {
      var f :| f in fs && x in f.entries;
      var j :| 0 <= j < |fs| && fs[j] == f;
      WithinFile(f, x);
      assert index <= j;
      if index < j {
        HitBefore(fs[index], f, k, s, x, r);
      } else {
        assert x in RunEntries(f.entries);
        var e :| NewestAt(RunEntries(fs[index].entries), k, s, e);
      }
    }
    if !r.NotFound? {
      var e :| NewestAt(RunEntries(fs[index].entries), k, s, e) && r == SaveValue(e);
      forall x | x in LevelEntries(fs) && x.ikey.user == k && x.ikey.sequence <= s
        ensures x.ikey.sequence <= e.ikey.sequence
      {
        var e' :| NewestAt(RunEntries(fs[index].entries), k, s, e') && x.ikey.sequence <= e'.ikey.sequence;
      }
      assert fs[index] in fs;
      assert NewestAt(LevelEntries(fs), k, s, e);
    }
  }

  /** A visible entry of `k` in a later file means the file reaching the lookup
      key already ends with a visible, newer entry of `k`. */
  lemma {:induction false} HitBefore(g: File, f: File, k: UserKey, s: nat, x: Entry, r: SaverState)
    requires IsTable(f) && IsTable(g) && Less(g.largest, f.smallest) && !Less(g.largest, LookupKey(k, s))
    requires x in f.entries && x.ikey.user == k
    requires k >= g.smallest.user ==> Answers(RunEntries(g.entries), k, s, r)
    ensures k >= g.smallest.user && !r.NotFound?
    ensures exists e :: NewestAt(RunEntries(g.entries), k, s, e) && x.ikey.sequence <= e.ikey.sequence
  {
    WithinFile(f, x);
    var last := g.entries[|g.entries| - 1];
    assert last in RunEntries(g.entries);
    WithinFile(g, last);
    var e :| NewestAt(RunEntries(g.entries), k, s, e);
  }

  lemma {:induction false} DeeperEntries(files: seq<seq<File>>, l: nat)
    requires l < |files|
    ensures FileEntries(files[..l + 1]) == FileEntries(files[..l]) + LevelEntries(files[l])
  {
    var p, q := files[..l + 1], files[..l];
    assert forall i :: 0 <= i < l ==> p[i] == q[i];
    forall e ensures e in FileEntries(p) <==> e in FileEntries(q) + LevelEntries(files[l]) {
      if InLevel(files[l], e) { assert InLevel(p[l], e); }
      if InFiles(q, e) {
        var i :| 0 <= i < |q| && InLevel(q[i], e);
        assert InLevel(p[i], e);
      }
      if InFiles(p, e) {
        var i :| 0 <= i < |p| && InLevel(p[i], e);
        if i < l { assert InLevel(q[i], e); }
      }
    }
  }

  lemma {:induction false} UpperNewer(files: seq<seq<File>>, l: nat)
    requires Layered(files) && l < NUM_LEVELS
    ensures Newer(FileEntries(files[..l]), LevelEntries(files[l]))
  {
    forall x, y | x in FileEntries(files[..l]) && y in LevelEntries(files[l]) && x.ikey.user == y.ikey.user
      ensures x.ikey.sequence > y.ikey.sequence
    {
      var i :| 0 <= i < |files[..l]| && InLevel(files[..l][i], x);
      assert x in LevelEntries(files[i]);
      assert Newer(LevelEntries(files[i]), LevelEntries(files[l]));
    }
  }

  /** Searching level `l` after the levels above it. */
  lemma {:induction false} SearchDeeper(files: seq<seq<File>>, l: nat, k: UserKey, s: nat, r: SaverState)
    requires |files| == NUM_LEVELS && l < NUM_LEVELS
    requires Newer(FileEntries(files[..l]), LevelEntries(files[l]))
    ensures !r.NotFound? && Answers(FileEntries(files[..l]), k, s, r) ==> Answers(FileEntries(files[..l + 1]), k, s, r)
    ensures Answers(FileEntries(files[..l]), k, s, NotFound) && Answers(LevelEntries(files[l]), k, s, r) ==>
              Answers(FileEntries(files[..l + 1]), k, s, r)
  {
    AnswersCombine(FileEntries(files[..l]), LevelEntries(files[l]), k, s, r);
    DeeperEntries(files, l);
  }

  /** A hit above level `l` answers for the whole version. */
  lemma {:induction false} HitAnswers(files: seq<seq<File>>, l: nat, k: UserKey, s: nat, r: SaverState)
    requires |files| == NUM_LEVELS && l <= NUM_LEVELS
    requires forall i :: l <= i < NUM_LEVELS ==> Newer(FileEntries(files[..i]), LevelEntries(files[i]))
    requires !r.NotFound? && Answers(FileEntries(files[..l]), k, s, r)
    ensures Answers(FileEntries(files), k, s, r)
    decreases NUM_LEVELS - l
  {
    if l == NUM_LEVELS {
      assert files[..l] == files;
    } else {
      SearchDeeper(files, l, k, s, r);
      HitAnswers(files, l + 1, k, s, r);
    }
  }

  lemma {:induction false} LevelFacts(files: seq<seq<File>>, l: nat)
    requires Layered(files) && l < NUM_LEVELS
    ensures |files| == NUM_LEVELS && AllTables(files[l])
    ensures if l == 0 then NumberedByAge(files[l]) else LevelSorted(files[l])
  {
    hide AllTables, NumberedByAge, LevelSorted, Newer;
  }

  lemma {:induction false} NoFilesAnswer(files: seq<seq<File>>, k: UserKey, s: nat)
    ensures Answers(FileEntries(files[..0]), k, s, NotFound)
  {
  }

  /** Version::Get: stopping at the first level that answers gives the newest
      visible entry over all the files of the version. */
  method GetFromVersion(files: seq<seq<File>>, k: UserKey, s: nat) returns (r: SaverState)
    requires Layered(files)
    ensures Answers(FileEntries(files), k, s, r)
  {
    hide Layered, Answers, Newer, FileEntries, LevelEntries;
    assert |files| == NUM_LEVELS by { LevelFacts(files, 0); }
    forall l | 0 <= l < NUM_LEVELS ensures Newer(FileEntries(files[..l]), LevelEntries(files[l])) {
      UpperNewer(files, l);
    }
    r := NotFound;
    NoFilesAnswer(files, k, s);
    for l := 0 to NUM_LEVELS
      invariant r.NotFound? && Answers(FileEntries(files[..l]), k, s, NotFound)
    {
      LevelFacts(files, l);
      if l == 0 {
        r := GetFromLevel0(files[l], k, s);
      } else {
        r := GetFromLevel(files[l], k, s);
      }
      SearchDeeper(files, l, k, s, r);
      if !r.NotFound? {
        HitAnswers(files, l + 1, k, s, r);
        return;
      }
    }
    assert files[..NUM_LEVELS] == files;
  }
}
