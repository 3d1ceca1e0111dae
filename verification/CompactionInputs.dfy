/** Choosing the files a compaction reads (db/version_set.cc). */
module CompactionInputs {
  import opened InternalKeys
  import opened Versions

  // ----- files overlapping a user-key range -----

  /** The files of a level that touch [lo, hi], in the level's order. */
  function OverlapFilter(files: seq<File>, lo: Option<UserKey>, hi: Option<UserKey>): seq<File> {
    if |files| == 0 then []
    else
      var n := |files| - 1;
      OverlapFilter(files[..n], lo, hi) + if Overlaps(files[n], lo, hi) then [files[n]] else []
  }

  lemma {:induction false} OverlapMembers(files: seq<File>, lo: Option<UserKey>, hi: Option<UserKey>)
    ensures forall f :: f in OverlapFilter(files, lo, hi) <==> f in files && Overlaps(f, lo, hi)
  {
    if |files| > 0 {
      var n := |files| - 1;
      assert files == files[..n] + [files[n]];
      OverlapMembers(files[..n], lo, hi);
    }
  }

  /** `f` lies inside [lo, hi]. */
  predicate Inside(f: File, lo: Option<UserKey>, hi: Option<UserKey>) {
    && (lo.Some? ==> lo.value <= f.smallest.user)
    && (hi.Some? ==> f.largest.user <= hi.value)
  }

  /** [lo, hi] contains [begin, end] and every file it touches. */
  ghost predicate ClosedRange(files: seq<File>, begin: Option<UserKey>, end: Option<UserKey>,
                              lo: Option<UserKey>, hi: Option<UserKey>) {
    && (lo.Some? <==> begin.Some?) && (lo.Some? ==> lo.value <= begin.value)
    && (hi.Some? <==> end.Some?) && (hi.Some? ==> end.value <= hi.value)
    && forall f :: f in files && Overlaps(f, lo, hi) ==> Inside(f, lo, hi)
  }

  /** [lo, hi] lies inside every closed range around [begin, end]. */
  ghost predicate Least(files: seq<File>, begin: Option<UserKey>, end: Option<UserKey>,
                        lo: Option<UserKey>, hi: Option<UserKey>) {
    forall L, H :: ClosedRange(files, begin, end, L, H) ==>
      && (lo.Some? ==> L.Some? && L.value <= lo.value)
      && (hi.Some? ==> H.Some? && hi.value <= H.value)
  }

  ghost predicate LeastClosedRange(files: seq<File>, begin: Option<UserKey>, end: Option<UserKey>,
                                   lo: Option<UserKey>, hi: Option<UserKey>) {
    ClosedRange(files, begin, end, lo, hi) && Least(files, begin, end, lo, hi)
  }

  /** How many file ends stick out of [lo, hi]: what bounds the restarts. */
  function SticksOut(files: seq<File>, lo: Option<UserKey>, hi: Option<UserKey>): nat {
    if |files| == 0 then 0
    else
      var f := files[|files| - 1];
      SticksOut(files[..|files| - 1], lo, hi) +
      (if lo.Some? && f.smallest.user < lo.value then 1 else 0) +
      (if hi.Some? && f.largest.user > hi.value then 1 else 0)
  }

  lemma {:induction false} Widening(files: seq<File>, lo: Option<UserKey>, hi: Option<UserKey>,
                                    lo': Option<UserKey>, hi': Option<UserKey>, f: File)
    requires lo.Some? == lo'.Some? && (lo.Some? ==> lo'.value <= lo.value)
    requires hi.Some? == hi'.Some? && (hi.Some? ==> hi.value <= hi'.value)
    ensures SticksOut(files, lo', hi') <= SticksOut(files, lo, hi)
    ensures (f in files && lo.Some? && f.smallest.user < lo.value && lo'.value == f.smallest.user) ==>
              SticksOut(files, lo', hi') < SticksOut(files, lo, hi)
    ensures (f in files && hi.Some? && f.largest.user > hi.value && hi'.value == f.largest.user) ==>
              SticksOut(files, lo', hi') < SticksOut(files, lo, hi)
  {
    if |files| > 0 {
      var n := |files| - 1;
      assert files == files[..n] + [files[n]];
      Widening(files[..n], lo, hi, lo', hi', f);
    }
  }

  /** Version::GetOverlappingInputs.  At level 0 each file that sticks out of the
      range widens it and restarts the scan; the scan ends with the least range
      that contains every file it touches. */
  method GetOverlappingInputs(files: seq<File>, level: nat, begin: Option<UserKey>, end: Option<UserKey>)
    returns (inputs: seq<File>)
    ensures level > 0 ==> inputs == OverlapFilter(files, begin, end)
    ensures level == 0 ==>
      exists lo, hi :: LeastClosedRange(files, begin, end, lo, hi) && inputs == OverlapFilter(files, lo, hi)
  {
    inputs := [];
    var lo, hi := begin, end;
    var i := 0;
    while i < |files|
      invariant 0 <= i <= |files|
      invariant inputs == OverlapFilter(files[..i], lo, hi)
      invariant level > 0 ==> lo == begin && hi == end
      invariant lo.Some? == begin.Some? && (lo.Some? ==> lo.value <= begin.value)
      invariant hi.Some? == end.Some? && (hi.Some? ==> end.value <= hi.value)
      invariant level == 0 ==> forall f :: f in inputs ==> Inside(f, lo, hi)
      invariant Least(files, begin, end, lo, hi)
      decreases SticksOut(files, lo, hi), |files| - i
    {
      var f := files[i];
      assert files[..i + 1][..i] == files[..i];
      assert f in files;
      i := i + 1;
      if AfterFile(lo, f) {
      } else if BeforeFile(hi, f) {
      } else {
        inputs := inputs + [f];
        if level == 0 {
          if lo.Some? && f.smallest.user < lo.value {
            Widening(files, lo, hi, Some(f.smallest.user), hi, f);
            lo := Some(f.smallest.user);
            inputs, i := [], 0;
          } else if hi.Some? && f.largest.user > hi.value {
            Widening(files, lo, hi, lo, Some(f.largest.user), f);
            hi := Some(f.largest.user);
            inputs, i := [], 0;
          }
        }
      }
    }
    assert files[..i] == files;
    OverlapMembers(files, lo, hi);
    assert level == 0 ==> LeastClosedRange(files, begin, end, lo, hi);
  }

  /** A file between two files touching a range touches it too. */
  lemma {:induction false} BetweenTouches(files: seq<File>, lo: Option<UserKey>, hi: Option<UserKey>, i: nat, m: nat,
      j: nat)
    requires LevelSorted(files) && i <= m < j < |files|
    requires Overlaps(files[i], lo, hi) && Overlaps(files[j], lo, hi)
    ensures Overlaps(files[m], lo, hi)
  {
    if i < m {
      assert Less(files[i].largest, files[m].smallest);
    }
    assert Less(files[m].largest, files[j].smallest);
  }

  /** In a sorted level the files touching a range are neighbours. */
  lemma {:induction false} FilterIsSlice(files: seq<File>, lo: Option<UserKey>, hi: Option<UserKey>)
    returns (a: nat, b: nat)
    requires LevelSorted(files)
    ensures a <= b <= |files| && OverlapFilter(files, lo, hi) == files[a..b]
  {
    if |files| == 0 {
      return 0, 0;
    }
    var n := |files| - 1;
    a, b := FilterIsSlice(files[..n], lo, hi);
    a, b := FilterStep(files, lo, hi, a, b);
  }

  lemma {:induction false} FilterStep(files: seq<File>, lo: Option<UserKey>, hi: Option<UserKey>, a: nat, b: nat)
    returns (a': nat, b': nat)
    requires LevelSorted(files) && |files| > 0 && a <= b < |files|
    requires OverlapFilter(files[..|files| - 1], lo, hi) == files[..|files| - 1][a..b]
    ensures a' <= b' <= |files| && OverlapFilter(files, lo, hi) == files[a'..b']
  {
    SliceOfPrefix(files, a, b);
    a', b' := a, b;
    if Overlaps(files[|files| - 1], lo, hi) {
      if a == b {
        a' := |files| - 1;
      } else {
        SliceReachesEnd(files, lo, hi, a, b);
      }
      SliceSnoc(files, a');
      b' := |files|;
    }
  }

  lemma {:induction false} SliceOfPrefix(files: seq<File>, a: nat, b: nat)
    requires a <= b < |files|
    ensures files[..|files| - 1][a..b] == files[a..b]
  {
  }

  lemma {:induction false} SliceSnoc(files: seq<File>, a: nat)
    requires a < |files|
    ensures files[a..|files|] == files[a..|files| - 1] + [files[|files| - 1]]
  {
  }

  lemma {:induction false} SliceReachesEnd(files: seq<File>, lo: Option<UserKey>, hi: Option<UserKey>, a: nat, b: nat)
    requires LevelSorted(files) && |files| > 0 && a < b <= |files| - 1
    requires OverlapFilter(files[..|files| - 1], lo, hi) == files[a..b]
    requires Overlaps(files[|files| - 1], lo, hi)
    ensures b == |files| - 1
  {
    var n := |files| - 1;
    if b < n {
      OverlapMembers(files[..n], lo, hi);
      assert files[a..b][0] == files[a];
      BetweenTouches(files, lo, hi, a, b, n);
      assert files[..n][b] == files[b];
      NotInSlice(files, a, b, b);
    }
  }

  lemma {:induction false} NotInSlice(files: seq<File>, a: nat, b: nat, i: nat)
    requires LevelSorted(files) && a <= b <= |files| && i < |files| && !(a <= i < b)
    ensures files[i] !in files[a..b]
  {
    assert forall j :: a <= j < b ==> files[j] != files[i];
  }

  /** A wider range touches the same files or strictly more of them. */
  lemma {:induction false} WiderFilter(files: seq<File>, lo: Option<UserKey>, hi: Option<UserKey>,
                                       lo': Option<UserKey>, hi': Option<UserKey>)
    requires forall f :: f in files && Overlaps(f, lo, hi) ==> Overlaps(f, lo', hi')
    ensures |OverlapFilter(files, lo, hi)| <= |OverlapFilter(files, lo', hi')|
    ensures (|OverlapFilter(files, lo, hi)| == |OverlapFilter(files, lo', hi')|) ==>
              OverlapFilter(files, lo, hi) == OverlapFilter(files, lo', hi')
  {
    if |files| > 0 {
      var n := |files| - 1;
      assert files[n] in files && forall f :: f in files[..n] ==> f in files;
      WiderFilter(files[..n], lo, hi, lo', hi');
    }
  }

  // ----- key ranges of a set of files -----

  function SmallestKey(fs: seq<File>): InternalKey
    requires |fs| > 0
  {
    var n := |fs| - 1;
    if n == 0 then fs[0].smallest
    else
      var k := SmallestKey(fs[..n]);
      if Less(fs[n].smallest, k) then fs[n].smallest else k
  }

  function LargestKey(fs: seq<File>): InternalKey
    requires |fs| > 0
  {
    var n := |fs| - 1;
    if n == 0 then fs[0].largest
    else
      var k := LargestKey(fs[..n]);
      if Less(k, fs[n].largest) then fs[n].largest else k
  }

  /** SmallestKey and LargestKey are the hull of the files: bounds that are met. */
  lemma {:induction false} HullBounds(fs: seq<File>, f: File)
    requires f in fs
    ensures !Less(f.smallest, SmallestKey(fs)) && !Less(LargestKey(fs), f.largest)
    ensures SmallestKey(fs).user <= f.smallest.user && f.largest.user <= LargestKey(fs).user
  {
    var n := |fs| - 1;
    if f != fs[n] {
      assert fs == fs[..n] + [fs[n]];
      HullBounds(fs[..n], f);
    }
  }

  lemma {:induction false} SmallestIsMet(fs: seq<File>) returns (f: File)
    requires |fs| > 0
    ensures f in fs && f.smallest == SmallestKey(fs)
  {
    var n := |fs| - 1;
    if n == 0 || Less(fs[n].smallest, SmallestKey(fs[..n])) {
      f := fs[n];
    } else {
      f := SmallestIsMet(fs[..n]);
      assert f in fs[..n];
    }
  }

  lemma {:induction false} LargestIsMet(fs: seq<File>) returns (f: File)
    requires |fs| > 0
    ensures f in fs && f.largest == LargestKey(fs)
  {
    var n := |fs| - 1;
    if n == 0 || Less(LargestKey(fs[..n]), fs[n].largest) {
      f := fs[n];
    } else {
      f := LargestIsMet(fs[..n]);
      assert f in fs[..n];
    }
  }

  /** VersionSet::GetRange */
  method GetRange(inputs: seq<File>) returns (smallest: InternalKey, largest: InternalKey)
    requires |inputs| > 0
    ensures smallest == SmallestKey(inputs) && largest == LargestKey(inputs)
  {
    smallest, largest := inputs[0].smallest, inputs[0].largest;
    for i := 1 to |inputs|
      invariant smallest == SmallestKey(inputs[..i]) && largest == LargestKey(inputs[..i])
    {
      assert inputs[..i + 1][..i] == inputs[..i];
      if Less(inputs[i].smallest, smallest) {
        smallest := inputs[i].smallest;
      }
      if Less(largest, inputs[i].largest) {
        largest := inputs[i].largest;
      }
    }
    assert inputs[..|inputs|] == inputs;
  }

  // ----- boundary files -----

  /** `f` starts after `key` with the same user key. */
  predicate IsBoundary(f: File, key: InternalKey) {
    Less(key, f.smallest) && f.smallest.user == key.user
  }

  ghost predicate SmallestBoundary(files: seq<File>, key: InternalKey, f: File) {
    && f in files && IsBoundary(f, key)
    && forall g :: g in files && IsBoundary(g, key) ==> !Less(g.smallest, f.smallest)
  }

  method FindSmallestBoundaryFile(files: seq<File>, key: InternalKey) returns (r: Option<File>)
    ensures r.None? ==> forall f :: f in files ==> !IsBoundary(f, key)
    ensures r.Some? ==> SmallestBoundary(files, key, r.value)
  {
    r := None;
    for i := 0 to |files|
      invariant r.None? ==> forall j :: 0 <= j < i ==> !IsBoundary(files[j], key)
      invariant r.Some? ==> r.value in files && IsBoundary(r.value, key)
      invariant r.Some? ==> forall j :: 0 <= j < i && IsBoundary(files[j], key) ==> !Less(files[j].smallest, r.value.smallest)
    {
      if IsBoundary(files[i], key) {
        if r.None? || Less(files[i].smallest, r.value.smallest) {
          r := Some(files[i]);
        }
      }
    }
  }

  /** Each added file is the smallest boundary file of what precedes it. */
  ghost predicate BoundaryChain(files: seq<File>, base: seq<File>, added: seq<File>)
    requires |base| > 0
  {
    forall i :: 0 <= i < |added| ==> SmallestBoundary(files, LargestKey(base + added[..i]), added[i])
  }

  ghost predicate BoundaryClosed(files: seq<File>, inputs: seq<File>)
    requires |inputs| > 0
  {
    forall f :: f in files ==> !IsBoundary(f, LargestKey(inputs))
  }

  function FilesAfter(files: seq<File>, key: InternalKey): nat {
    if |files| == 0 then 0
    else FilesAfter(files[..|files| - 1], key) + if Less(key, files[|files| - 1].smallest) then 1 else 0
  }

  lemma {:induction false} FewerAfter(files: seq<File>, key: InternalKey, f: File)
    requires Less(key, f.smallest)
    ensures FilesAfter(files, f.largest) <= FilesAfter(files, key)
    ensures f in files ==> FilesAfter(files, f.largest) < FilesAfter(files, key)
  {
    if |files| > 0 {
      var n := |files| - 1;
      assert files == files[..n] + [files[n]];
      FewerAfter(files[..n], key, f);
    }
  }

  /** AddBoundaryInputs */
  method AddBoundaryInputs(files: seq<File>, inputs: seq<File>) returns (r: seq<File>)
    ensures |inputs| == 0 ==> r == []
    ensures |inputs| > 0 ==> |r| >= |inputs| && r[..|inputs|] == inputs
                             && BoundaryChain(files, inputs, r[|inputs|..]) && BoundaryClosed(files, r)
  {
    hide *;
    if |inputs| == 0 {
      return [];
    }
    var _, key := GetRange(inputs);
    ChainStarts(files, inputs, key);
    ghost var added: seq<File> := [];
    r := inputs;
    var searching := true;
    while searching
      invariant r == inputs + added && |r| > 0
      invariant key == LargestKey(r)
      invariant BoundaryChain(files, inputs, added)
      invariant !searching ==> BoundaryClosed(files, r)
      decreases FilesAfter(files, key), searching
    {
      var boundary := FindSmallestBoundaryFile(files, key);
      if boundary.Some? {
        ChainGrows(files, inputs, added, boundary.value);
        LargestOfBoundary(files, r, boundary.value);
        FewerAfter(files, key, boundary.value);
        r := r + [boundary.value];
        added := added + [boundary.value];
        key := boundary.value.largest;
      } else {
        NoneToAdd(files, r);
        searching := false;
      }
    }
  }

  lemma {:induction false} ChainStarts(files: seq<File>, inputs: seq<File>, key: InternalKey)
    requires |inputs| > 0 && key == LargestKey(inputs)
    ensures BoundaryChain(files, inputs, []) && inputs + [] == inputs
  {
  }

  lemma {:induction false} NoneToAdd(files: seq<File>, all: seq<File>)
    requires |all| > 0 && forall f :: f in files ==> !IsBoundary(f, LargestKey(all))
    ensures BoundaryClosed(files, all)
  {
  }

  lemma {:induction false} LargestOfBoundary(files: seq<File>, all: seq<File>, f: File)
    requires |all| > 0 && SmallestBoundary(files, LargestKey(all), f)
    ensures LargestKey(all + [f]) == f.largest && f in files && Less(LargestKey(all), f.smallest)
  {
    assert (all + [f])[..|all|] == all;
  }

  lemma {:induction false} ChainGrows(files: seq<File>, base: seq<File>, added: seq<File>, f: File)
    requires |base| > 0 && BoundaryChain(files, base, added)
    requires SmallestBoundary(files, LargestKey(base + added), f)
    ensures BoundaryChain(files, base, added + [f])
  {
    assert (added + [f])[..|added|] == added;
    assert forall i :: 0 <= i < |added| ==> (added + [f])[..i] == added[..i];
  }

  /** The chain adds no file twice, and none that was there already. */
  lemma {:induction false} ChainHasNoDuplicates(files: seq<File>, base: seq<File>, added: seq<File>, i: nat)
    requires |base| > 0 && BoundaryChain(files, base, added) && i < |added|
    ensures added[i] !in base && added[i] !in added[..i]
  {
    var before := base + added[..i];
    if added[i] in before {
      HullBounds(before, added[i]);
      assert false;
    }
    assert added[i] !in before;
  }
}
