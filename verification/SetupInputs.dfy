/** Completing the inputs of a compaction (db/version_set.cc: CompactRange,
    PickCompaction, SetupOtherInputs). */
module SetupInputs {
  import opened InternalKeys
  import opened Versions
  import opened CompactionInputs

  /** The shape of the upper inputs every caller of SetupOtherInputs starts from:
      at level 0 all the files touching some closed range, at a deeper level a
      non-empty run of neighbours. */
  ghost predicate Picked(fs: seq<File>, level: nat, in0: seq<File>) {
    && |in0| > 0
    && if level == 0
       then exists lo, hi :: in0 == OverlapFilter(fs, lo, hi) && forall f :: f in in0 ==> Inside(f, lo, hi)
       else exists a, b :: 0 <= a < b <= |fs| && in0 == fs[a..b]
  }

  ghost predicate SubsetOf(in0: seq<File>, fs: seq<File>) {
    forall f :: f in in0 ==> f in fs
  }

  /** Of every user key in the inputs, the files left behind at the same level
      hold only entries that come before: the newer ones. */
  ghost predicate UpperClosed(fs: seq<File>, in0: seq<File>) {
    forall f, g, x, y :: f in in0 && g in fs && g !in in0 && x in f.entries && y in g.entries && x.ikey.user == y.ikey.user ==>
      Less(y.ikey, x.ikey)
  }

  /** What SetupOtherInputs establishes. */
  ghost predicate ValidInputs(files: seq<seq<File>>, level: nat, in0: seq<File>, in1: seq<File>) {
    && |files| == NUM_LEVELS && level + 1 < NUM_LEVELS
    && |in0| > 0 && SubsetOf(in0, files[level]) && UpperClosed(files[level], in0)
    && in1 == Covered(files[level + 1], in0)
  }

  /** The files of a level touching the user-key range of `inputs`. */
  function Covered(fs: seq<File>, inputs: seq<File>): seq<File>
    requires |inputs| > 0
  {
    OverlapFilter(fs, Some(SmallestKey(inputs).user), Some(LargestKey(inputs).user))
  }

  // ----- the boundary files close the upper inputs -----

  lemma {:induction false} PickedAtLevel0IsClosed(fs: seq<File>, in0: seq<File>)
    requires AllTables(fs) && Picked(fs, 0, in0)
    ensures SubsetOf(in0, fs) && UpperClosed(fs, in0)
  {
    var lo, hi :| in0 == OverlapFilter(fs, lo, hi) && forall f :: f in in0 ==> Inside(f, lo, hi);
    OverlapMembers(fs, lo, hi);
    forall f, g, x, y | f in in0 && g in fs && g !in in0 && x in f.entries && y in g.entries
      ensures x.ikey.user != y.ikey.user
    {
      WithinFile(f, x);
      WithinFile(g, y);
    }
  }

  /** At level 0 there is nothing for AddBoundaryInputs to add. */
  lemma {:induction false} NoBoundaryAtLevel0(fs: seq<File>, in0: seq<File>, f: File)
    requires Picked(fs, 0, in0) && f in fs
    ensures !IsBoundary(f, LargestKey(in0))
  {
    var lo, hi :| in0 == OverlapFilter(fs, lo, hi) && forall g :: g in in0 ==> Inside(g, lo, hi);
    OverlapMembers(fs, lo, hi);
    if IsBoundary(f, LargestKey(in0)) {
      var g := LargestIsMet(in0);
      assert f in in0;
      HullBounds(in0, f);
    }
  }

  lemma {:induction false} SliceHull(fs: seq<File>, a: nat, b: nat)
    requires LevelSorted(fs) && a < b <= |fs|
    ensures LargestKey(fs[a..b]) == fs[b - 1].largest
    ensures SmallestKey(fs[a..b]) == fs[a].smallest
    decreases b
  {
    var s := fs[a..b];
    if b - a > 1 {
      assert s[..|s| - 1] == fs[a..b - 1];
      SliceHull(fs, a, b - 1);
      LargestAscend(fs, b - 2, b - 1);
      assert Less(fs[a].largest, fs[b - 1].smallest);
    }
  }

  /** At a sorted level the smallest boundary file is the right neighbour. */
  lemma {:induction false} BoundaryIsNeighbour(fs: seq<File>, a: nat, b: nat, f: File)
    requires LevelSorted(fs) && a < b <= |fs|
    requires SmallestBoundary(fs, LargestKey(fs[a..b]), f)
    ensures b < |fs| && f == fs[b]
  {
    SliceHull(fs, a, b);
    var key := fs[b - 1].largest;
    var j :| 0 <= j < |fs| && fs[j] == f;
    if j < b {
      assert false;
    }
    if b < j {
      assert Less(key, fs[b].smallest) && Less(fs[b].largest, f.smallest);
      assert fs[b] in fs && IsBoundary(fs[b], key);
    }
  }

  lemma {:induction false} SliceExtends(fs: seq<File>, a: nat, b: nat, more: seq<File>)
    requires a <= b && b + |more| <= |fs|
    requires forall i :: 0 <= i < |more| ==> more[i] == fs[b + i]
    ensures fs[a..b] + more == fs[a..b + |more|]
  {
  }

  /** So the boundary files of a run of neighbours only lengthen the run. */
  lemma {:induction false} ChainIsSlice(fs: seq<File>, a: nat, b: nat, added: seq<File>, n: nat)
    requires LevelSorted(fs) && a < b <= |fs| && BoundaryChain(fs, fs[a..b], added) && n <= |added|
    ensures b + n <= |fs| && forall i :: 0 <= i < n ==> added[i] == fs[b + i]
  {
    hide LevelSorted, SmallestBoundary, LargestKey;
    if n > 0 {
      ChainIsSlice(fs, a, b, added, n - 1);
      ChainStep(fs, a, b, added[..n - 1], added[n - 1]);
    }
  }

  lemma {:induction false} ChainStep(fs: seq<File>, a: nat, b: nat, front: seq<File>, f: File)
    requires LevelSorted(fs) && a < b && b + |front| <= |fs|
    requires forall i :: 0 <= i < |front| ==> front[i] == fs[b + i]
    requires SmallestBoundary(fs, LargestKey(fs[a..b] + front), f)
    ensures b + |front| < |fs| && f == fs[b + |front|]
  {
    SliceExtends(fs, a, b, front);
    BoundaryIsNeighbour(fs, a, b + |front|, f);
  }

  /** A run of neighbours without a boundary file leaves behind, of its user
      keys, only what precedes it. */
  lemma {:induction false} ClosedSlice(fs: seq<File>, a: nat, b: nat)
    requires AllTables(fs) && LevelSorted(fs) && a < b <= |fs| && BoundaryClosed(fs, fs[a..b])
    ensures SubsetOf(fs[a..b], fs) && UpperClosed(fs, fs[a..b])
  {
    var in0 := fs[a..b];
    SliceHull(fs, a, b);
    assert forall m :: a <= m < b ==> fs[m] in in0;
    forall f, g, x, y | f in in0 && g in fs && g !in in0 && x in f.entries && y in g.entries && x.ikey.user == y.ikey.user
      ensures Less(y.ikey, x.ikey)
    {
      var i :| a <= i < b && fs[i] == f;
      var j :| 0 <= j < |fs| && fs[j] == g;
      if b <= |fs| - 1 { assert fs[b] in fs; }
      LeftBehind(fs, a, b, i, j, x, y);
    }
  }

  lemma {:induction false} LeftBehind(fs: seq<File>, a: nat, b: nat, i: nat, j: nat, x: Entry, y: Entry)
    requires AllTables(fs) && LevelSorted(fs) && a <= i < b <= |fs| && j < |fs| && !(a <= j < b)
    requires b < |fs| ==> !IsBoundary(fs[b], fs[b - 1].largest)
    requires x in fs[i].entries && y in fs[j].entries && x.ikey.user == y.ikey.user
    ensures Less(y.ikey, x.ikey)
  {
    WithinFile(fs[i], x);
    WithinFile(fs[j], y);
    if j < a {
      assert Less(fs[j].largest, fs[i].smallest);
    } else {
      BoundaryLess(fs, i, b, j);
    }
  }

  /** Past a missing boundary the user keys are larger. */
  lemma {:induction false} BoundaryLess(fs: seq<File>, i: nat, b: nat, j: nat)
    requires LevelSorted(fs) && i < b <= j < |fs| && !IsBoundary(fs[b], fs[b - 1].largest)
    ensures fs[i].largest.user < fs[j].smallest.user
  {
    assert Less(fs[b - 1].largest, fs[b].smallest);
    if i < b - 1 {
      LargestAscend(fs, i, b - 1);
    }
    if b < j {
      assert Less(fs[b].largest, fs[j].smallest);
    }
  }

  lemma {:induction false} NothingAddedAtLevel0(fs: seq<File>, picked: seq<File>, added: seq<File>)
    requires Picked(fs, 0, picked) && BoundaryChain(fs, picked, added)
    ensures added == []
  {
    hide Picked;
    if |added| > 0 {
      assert picked + added[..0] == picked;
      NoBoundaryAtLevel0(fs, picked, added[0]);
    }
  }

  lemma {:induction false} UpperClosure(fs: seq<File>, level: nat, picked: seq<File>, added: seq<File>)
    requires AllTables(fs) && Picked(fs, level, picked) && (level > 0 ==> LevelSorted(fs))
    requires BoundaryChain(fs, picked, added) && BoundaryClosed(fs, picked + added)
    ensures Picked(fs, level, picked + added)
    ensures SubsetOf(picked + added, fs) && UpperClosed(fs, picked + added)
  {
    hide AllTables, LevelSorted, UpperClosed, SubsetOf, BoundaryClosed;
    if level == 0 {
      NothingAddedAtLevel0(fs, picked, added);
      assert picked + added == picked;
      PickedAtLevel0IsClosed(fs, picked);
    } else {
      var a, b :| 0 <= a < b <= |fs| && picked == fs[a..b];
      ChainIsSlice(fs, a, b, added, |added|);
      SliceExtends(fs, a, b, added);
      ClosedSlice(fs, a, b + |added|);
    }
  }

  /** AddBoundaryInputs on picked files: nothing newer is moved past something
      older, whatever the level. */
  method CloseUpper(fs: seq<File>, level: nat, picked: seq<File>) returns (in0: seq<File>)
    requires AllTables(fs) && Picked(fs, level, picked)
    requires level > 0 ==> LevelSorted(fs)
    ensures Picked(fs, level, in0) && SubsetOf(in0, fs) && UpperClosed(fs, in0)
    ensures |picked| <= |in0| && in0[..|picked|] == picked
  {
    in0 := AddBoundaryInputs(fs, picked);
    assert in0 == picked + in0[|picked|..];
    UpperClosure(fs, level, picked, in0[|picked|..]);
  }

  // ----- expanding the upper inputs -----

  function TotalFileSize(fs: seq<File>): nat {
    if |fs| == 0 then 0 else TotalFileSize(fs[..|fs| - 1]) + fs[|fs| - 1].size
  }

  /** GetOverlappingInputs with a range some file touches yields picked files. */
  lemma {:induction false} OverlapIsPicked(fs: seq<File>, level: nat, begin: Option<UserKey>, end: Option<UserKey>,
                                           inputs: seq<File>, f: File)
    requires level > 0 ==> LevelSorted(fs) && inputs == OverlapFilter(fs, begin, end)
    requires level == 0 ==>
      exists lo, hi :: LeastClosedRange(fs, begin, end, lo, hi) && inputs == OverlapFilter(fs, lo, hi)
    requires f in fs && Overlaps(f, begin, end)
    ensures Picked(fs, level, inputs)
    ensures forall g :: g in fs && Overlaps(g, begin, end) ==> g in inputs
  {
    if level == 0 {
      var lo, hi :| LeastClosedRange(fs, begin, end, lo, hi) && inputs == OverlapFilter(fs, lo, hi);
      OverlapMembers(fs, lo, hi);
      assert f in inputs;
    } else {
      OverlapMembers(fs, begin, end);
      assert f in inputs;
      var a, b := FilterIsSlice(fs, begin, end);
    }
  }

  /** Files inside a wider set span a range that touches no more files. */
  lemma {:induction false} WiderInputs(fs: seq<File>, base: seq<File>, more: seq<File>)
    requires |base| > 0 && |more| > 0 && forall f :: f in base ==> f in more
    ensures |Covered(fs, base)| == |Covered(fs, more)| ==> Covered(fs, base) == Covered(fs, more)
  {
    var f := SmallestIsMet(base);
    var g := LargestIsMet(base);
    HullBounds(more, f);
    HullBounds(more, g);
    WiderFilter(fs, Some(SmallestKey(base).user), Some(LargestKey(base).user),
                Some(SmallestKey(more).user), Some(LargestKey(more).user));
  }

  lemma {:induction false} HullTouches(all: seq<File>, f: File)
    requires f in all
    ensures Overlaps(f, Some(SmallestKey(all).user), Some(LargestKey(all).user))
  {
    HullBounds(all, f);
  }

  /** The files of `level` in the range of all inputs, with their boundary files. */
  method ExpandUpper(fs: seq<File>, level: nat, in0: seq<File>, in1: seq<File>) returns (expanded: seq<File>)
    requires AllTables(fs) && (level > 0 ==> LevelSorted(fs))
    requires |in0| > 0 && SubsetOf(in0, fs)
    ensures Picked(fs, level, expanded) && SubsetOf(expanded, fs) && UpperClosed(fs, expanded)
    ensures SubsetOf(in0, expanded)
  {
    var start, limit := GetRange(in0 + in1);
    var picked := GetOverlappingInputs(fs, level, Some(start.user), Some(limit.user));
    forall f | f in in0 ensures f in fs && Overlaps(f, Some(start.user), Some(limit.user)) {
      HullTouches(in0 + in1, f);
    }
    OverlapIsPicked(fs, level, Some(start.user), Some(limit.user), picked, in0[0]);
    expanded := CloseUpper(fs, level, picked);
    assert forall f :: f in picked ==> f in expanded[..|picked|];
  }

  /** VersionSet::SetupOtherInputs.  Growing the upper inputs is accepted only
      when the lower inputs keep their number, and then they are the same files. */
  method SetupOtherInputs(files: seq<seq<File>>, level: nat, picked: seq<File>, sizeLimit: nat)
    returns (in0: seq<File>, in1: seq<File>, grandparents: seq<File>, largest: InternalKey, ghost base: seq<File>)
    requires Layered(files) && level + 1 < NUM_LEVELS
    requires Picked(files[level], level, picked)
    ensures ValidInputs(files, level, in0, in1) && Picked(files[level], level, in0)
    ensures |base| >= |picked| && base[..|picked|] == picked && SubsetOf(base, in0)
    ensures UpperClosed(files[level], base) && in1 == Covered(files[level + 1], base)
    ensures largest == LargestKey(in0)
    ensures grandparents == if level + 2 < NUM_LEVELS then Covered(files[level + 2], in0 + in1) else []
  {
    in0 := CloseUpper(files[level], level, picked);
    base := in0;
    var smallest;
    smallest, largest := GetRange(in0);
    in1 := GetOverlappingInputs(files[level + 1], level + 1, Some(smallest.user), Some(largest.user));
    if |in1| > 0 {
      var expanded0 := ExpandUpper(files[level], level, in0, in1);
      if |expanded0| > |in0| && TotalFileSize(in1) + TotalFileSize(expanded0) < sizeLimit {
        var newStart, newLimit := GetRange(expanded0);
        var expanded1 := GetOverlappingInputs(files[level + 1], level + 1, Some(newStart.user), Some(newLimit.user));
        if |expanded1| == |in1| {
          WiderInputs(files[level + 1], in0, expanded0);
          largest := newLimit;
          in0, in1 := expanded0, expanded1;
        }
      }
    }
    grandparents := [];
    if level + 2 < NUM_LEVELS {
      var allStart, allLimit := GetRange(in0 + in1);
      grandparents := GetOverlappingInputs(files[level + 2], level + 2, Some(allStart.user), Some(allLimit.user));
    }
  }

  // ----- the callers -----

  /** What GetOverlappingInputs finds. */
  ghost predicate FoundBy(fs: seq<File>, level: nat, begin: Option<UserKey>, end: Option<UserKey>, inputs: seq<File>) {
    if level > 0 then inputs == OverlapFilter(fs, begin, end)
    else exists lo, hi :: LeastClosedRange(fs, begin, end, lo, hi) && inputs == OverlapFilter(fs, lo, hi)
  }

  /** The file ends after the place of the last compaction. */
  predicate PastPointer(pointer: Option<InternalKey>, f: File) {
    pointer.None? || Less(pointer.value, f.largest)
  }

  /** The first file past the pointer; the first of all when there is none. */
  ghost predicate NextInTurn(fs: seq<File>, pointer: Option<InternalKey>, i: nat)
    requires i < |fs|
  {
    if PastPointer(pointer, fs[i]) then forall j :: 0 <= j < i ==> !PastPointer(pointer, fs[j])
    else i == 0 && forall f :: f in fs ==> !PastPointer(pointer, f)
  }

  /** The files that start a compaction with file `i`: at level 0 also those that it
      overlaps, and those that these overlap. */
  ghost predicate StartsWith(fs: seq<File>, level: nat, i: nat, picked: seq<File>)
    requires i < |fs|
  {
    if level > 0 then picked == [fs[i]]
    else FoundBy(fs, 0, Some(fs[i].smallest.user), Some(fs[i].largest.user), picked)
  }

  /** VersionSet::PickCompaction, once the level is chosen.  `seek` is the file a
      seek compaction names; a size compaction takes the first file past
      `pointer`, wrapping around. */
  method PickCompaction(fs: seq<File>, level: nat, seek: Option<File>, pointer: Option<InternalKey>)
    returns (picked: seq<File>)
    requires |fs| > 0 && (level > 0 ==> LevelSorted(fs))
    requires seek.Some? ==> seek.value in fs
    ensures Picked(fs, level, picked) && (seek.Some? ==> seek.value in picked)
    ensures exists i: nat ::
      (i < |fs| && StartsWith(fs, level, i, picked) && if seek.Some? then fs[i] == seek.value else NextInTurn(fs, pointer, i))
  {
    var at := 0;
    if seek.Some? {
      at :| 0 <= at < |fs| && fs[at] == seek.value;
    } else {
      var past := false;
      while at < |fs| && !past
        invariant at <= |fs| && (past ==> at < |fs| && PastPointer(pointer, fs[at]))
        invariant forall j :: 0 <= j < at ==> !PastPointer(pointer, fs[j])
        decreases |fs| - at, !past
      {
        if PastPointer(pointer, fs[at]) {
          past := true;
        } else {
          at := at + 1;
        }
      }
      if !past {
        at := 0;
      }
      assert NextInTurn(fs, pointer, at);
    }
    picked := [fs[at]];
    if level == 0 {
      var smallest, largest := GetRange(picked);
      picked := GetOverlappingInputs(fs, 0, Some(smallest.user), Some(largest.user));
      OverlapIsPicked(fs, 0, Some(smallest.user), Some(largest.user), picked, fs[at]);
    } else {
      assert picked == fs[at..at + 1];
    }
    assert StartsWith(fs, level, at, picked);
  }

  /** GetOverlappingInputs finds nothing only when no file touches the range. */
  lemma {:induction false} OverlapFindsAll(fs: seq<File>, level: nat, begin: Option<UserKey>, end: Option<UserKey>,
                                           inputs: seq<File>)
    requires level > 0 ==> inputs == OverlapFilter(fs, begin, end)
    requires level == 0 ==>
      exists lo, hi :: LeastClosedRange(fs, begin, end, lo, hi) && inputs == OverlapFilter(fs, lo, hi)
    ensures inputs == [] <==> forall f :: f in fs ==> !Overlaps(f, begin, end)
  {
    hide OverlapFilter, LeastClosedRange, Overlaps;
    if level == 0 {
      var lo, hi :| LeastClosedRange(fs, begin, end, lo, hi) && inputs == OverlapFilter(fs, lo, hi);
      FilterEmpty(fs, lo, hi);
      LeastTouches(fs, begin, end, lo, hi);
    } else {
      FilterEmpty(fs, begin, end);
    }
  }

  lemma {:induction false} FilterEmpty(fs: seq<File>, lo: Option<UserKey>, hi: Option<UserKey>)
    ensures OverlapFilter(fs, lo, hi) == [] <==> forall f :: f in fs ==> !Overlaps(f, lo, hi)
  {
    hide OverlapFilter, Overlaps;
    OverlapMembers(fs, lo, hi);
    var r := OverlapFilter(fs, lo, hi);
    assert |r| > 0 ==> r[0] in r;
  }

  /** The least closed range touches no file when the range it grew from touches none. */
  lemma {:induction false} LeastTouches(fs: seq<File>, begin: Option<UserKey>, end: Option<UserKey>, lo: Option<UserKey>,
                                        hi: Option<UserKey>)
    requires LeastClosedRange(fs, begin, end, lo, hi)
    ensures (forall f :: f in fs ==> !Overlaps(f, lo, hi)) <==> forall f :: f in fs ==> !Overlaps(f, begin, end)
  {
    if forall f :: f in fs ==> !Overlaps(f, begin, end) {
      assert ClosedRange(fs, begin, end, begin, end);
      assert lo == begin && hi == end;
    }
    forall f | f in fs && Overlaps(f, begin, end) ensures Overlaps(f, lo, hi) {
    }
  }

  /** The shortest prefix of `inputs` that reaches `limit` bytes, or all of them. */
  ghost predicate CutAt(inputs: seq<File>, limit: nat, picked: seq<File>) {
    && picked <= inputs && |picked| > 0
    && (picked != inputs ==> TotalFileSize(picked) >= limit)
    && forall m :: 0 < m < |picked| ==> TotalFileSize(picked[..m]) < limit
  }

  /** VersionSet::CompactRange: at a deeper level only a prefix of the files in
      range, cut once it reaches `limit` bytes. */
  method CompactRange(fs: seq<File>, level: nat, begin: Option<UserKey>, end: Option<UserKey>, limit: nat)
    returns (picked: seq<File>)
    requires level > 0 ==> LevelSorted(fs)
    ensures picked == [] <==> forall f :: f in fs ==> !Overlaps(f, begin, end)
    ensures picked != [] ==> Picked(fs, level, picked)
    ensures level == 0 ==> FoundBy(fs, 0, begin, end, picked)
    ensures level > 0 && picked != [] ==> CutAt(OverlapFilter(fs, begin, end), limit, picked)
  {
    hide CutAt, OverlapFilter, LeastClosedRange, Picked, Overlaps;
    picked := GetOverlappingInputs(fs, level, begin, end);
    OverlapFindsAll(fs, level, begin, end, picked);
    if |picked| == 0 {
      return;
    }
    ghost var f :| f in fs && Overlaps(f, begin, end);
    OverlapIsPicked(fs, level, begin, end, picked, f);
    if level > 0 {
      var n := CutToLimit(picked, limit);
      PrefixIsPicked(fs, level, picked, n);
      picked := picked[..n];
    }
  }

  method CutToLimit(inputs: seq<File>, limit: nat) returns (n: nat)
    requires |inputs| > 0
    ensures 0 < n <= |inputs| && CutAt(inputs, limit, inputs[..n])
  {
    var total := 0;
    for i := 0 to |inputs|
      invariant total == TotalFileSize(inputs[..i])
      invariant forall m :: 0 < m <= i ==> TotalFileSize(inputs[..m]) < limit
    {
      assert inputs[..i + 1][..i] == inputs[..i];
      total := total + inputs[i].size;
      if total >= limit {
        assert forall m :: 0 < m <= i ==> inputs[..i + 1][..m] == inputs[..m];
        return i + 1;
      }
    }
    assert inputs[..|inputs|] == inputs;
    return |inputs|;
  }

  lemma {:induction false} PrefixIsPicked(fs: seq<File>, level: nat, picked: seq<File>, n: nat)
    requires level > 0 && Picked(fs, level, picked) && 0 < n <= |picked|
    ensures Picked(fs, level, picked[..n])
  {
    var a, b :| 0 <= a < b <= |fs| && picked == fs[a..b];
    assert picked[..n] == fs[a..a + n];
  }
}
