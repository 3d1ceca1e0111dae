/** Many edits through one Builder (db/version_set.cc: Recover) against a version
    for every edit (LogAndApply), on one level. */
module EditReplay {
  import opened InternalKeys
  import opened Versions
  import opened LsmState
  import opened VersionBuilder

  /** A version for every edit, each saved by a builder of its own. */
  function OneByOne(base: seq<File>, edits: seq<LevelEdit>): seq<File> {
    if |edits| == 0 then base
    else Saved(OneByOne(base, edits[..|edits| - 1]), Applied(NO_STATE, edits[|edits| - 1]))
  }

  /** The state of one builder that all the edits went through. */
  function Gathered(edits: seq<LevelEdit>): (r: LevelState)
    ensures SortedBySmallest(r.added)
  {
    if |edits| == 0 then NO_STATE else Applied(Gathered(edits[..|edits| - 1]), edits[|edits| - 1])
  }

  /** The versions are versions: none holds a file twice. */
  ghost predicate VersionsOk(base: seq<File>, edits: seq<LevelEdit>) {
    forall i :: 0 <= i <= |edits| ==> SortedBySmallest(OneByOne(base, edits[..i]))
  }

  /** The files an edit brings; the set keeps one of equivalent ones. */
  function New(edit: LevelEdit): seq<File> { InsertAll([], edit.added) }

  /** The edit takes number `m` away. */
  predicate Deletes(edit: LevelEdit, m: nat) {
    m in edit.deleted && m !in Numbers(edit.added)
  }

  /** No edit from `i` on takes `m` away. */
  ghost predicate Survives(edits: seq<LevelEdit>, i: nat, m: nat) {
    forall k :: i <= k < |edits| ==> !Deletes(edits[k], m)
  }

  /** Number `m` is deleted by edit `p`, added again by edit `j`, and then stays. */
  ghost predicate Returns(edits: seq<LevelEdit>, p: nat, j: nat, m: nat) {
    p < j < |edits| && Deletes(edits[p], m) && m in Numbers(edits[j].added) && Survives(edits, j + 1, m)
  }

  /** A returning number is not in the base, and every file of that number the
      builder had gathered before the deletion is added again after it. */
  ghost predicate ReplaysRight(base: seq<File>, edits: seq<LevelEdit>) {
    forall p: nat, j: nat, m: nat :: Returns(edits, p, j, m) ==>
      && (forall f :: f in base ==> f.number != m)
      && forall f :: f in Gathered(edits[..p]).added && f.number == m ==> exists i :: p < i < |edits| && f in New(edits[i])
  }

  function AtLevel(edits: seq<VersionEdit>, l: nat): seq<LevelEdit> {
    seq(|edits|, i requires 0 <= i < |edits| => At(edits[i], l))
  }

  /** The loop of VersionSet::Recover over the edits of the manifest. */
  method Recover(base: seq<seq<File>>, edits: seq<VersionEdit>) returns (files: seq<seq<File>>)
    requires |base| == NUM_LEVELS && forall l :: 0 <= l < NUM_LEVELS ==> SortedBySmallest(base[l])
    requires forall e :: e in edits ==> OnLevels(e)
    ensures |files| == NUM_LEVELS
    ensures forall l :: 0 <= l < NUM_LEVELS ==> files[l] == Saved(base[l], Gathered(AtLevel(edits, l)))
  {
    hide SortedBySmallest, Saved, Applied, At;
    var builder := new Builder(base);
    for i := 0 to |edits|
      invariant builder.Valid() && builder.base == base && fresh(builder)
      invariant forall l :: 0 <= l < NUM_LEVELS ==> builder.levels[l] == Gathered(AtLevel(edits[..i], l))
    {
      forall l | 0 <= l < NUM_LEVELS
        ensures Gathered(AtLevel(edits[..i + 1], l)) == Applied(Gathered(AtLevel(edits[..i], l)), At(edits[i], l))
      {
        assert AtLevel(edits[..i + 1], l)[..i] == AtLevel(edits[..i], l);
      }
      builder.Apply(edits[i]);
    }
    assert edits[..|edits|] == edits;
    files := builder.SaveTo();
  }

  // ----- one more edit -----

  lemma {:induction false} Snoc(edits: seq<LevelEdit>, i: nat)
    requires i < |edits|
    ensures edits[..i + 1][..i] == edits[..i] && edits[..i + 1][i] == edits[i]
  {
  }

  lemma {:induction false} NextVersion(base: seq<File>, edits: seq<LevelEdit>, i: nat, f: File)
    requires i < |edits|
    ensures f in OneByOne(base, edits[..i + 1]) <==>
      (f in OneByOne(base, edits[..i]) || f in New(edits[i])) && !Deletes(edits[i], f.number)
  {
    hide InsertAll, SortedBySmallest;
    Snoc(edits, i);
    NewNumber(edits[i], f);
  }

  lemma {:induction false} NewNumber(edit: LevelEdit, f: File)
    ensures f in New(edit) ==> f in edit.added && f.number in Numbers(edit.added)
  {
    hide InsertAll;
  }

  lemma {:induction false} NextGathered(edits: seq<LevelEdit>, i: nat)
    requires i < |edits|
    ensures Gathered(edits[..i + 1]) == Applied(Gathered(edits[..i]), edits[i])
  {
    Snoc(edits, i);
  }

  /** What an edit adds to the set it brings by itself, too. */
  lemma {:induction false} InsertedIsNew(fs: seq<File>, added: seq<File>, f: File)
    requires SortedBySmallest(fs) && f in InsertAll(fs, added) && f !in fs
    ensures f in InsertAll([], added)
  {
    hide SortedBySmallest, BySmallest, InsertBySmallest, Equivalent;
    NothingInOrder();
    if |added| > 0 {
      var n := |added| - 1;
      var a, b := InsertAll(fs, added[..n]), InsertAll([], added[..n]);
      if f in a {
        InsertedIsNew(fs, added[..n], f);
      } else {
        forall g | g in b ensures !Equivalent(f, g) {
          KindKept(fs, added[..n], g);
          if h :| h in a && Equivalent(g, h) && Equivalent(f, g) { SameKinds(f, g, h); }
        }
      }
    }
  }

  lemma {:induction false} NothingInOrder()
    ensures SortedBySmallest([]) && SortedBySmallest(NO_STATE.added)
  {
  }

  lemma {:induction false} SameKinds(f: File, g: File, h: File)
    requires Equivalent(f, g) && Equivalent(g, h)
    ensures Equivalent(f, h)
  {
  }

  /** Of a kind an edit brings the set holds one afterwards. */
  lemma {:induction false} KindKept(fs: seq<File>, added: seq<File>, g: File)
    requires SortedBySmallest(fs) && g in added
    ensures exists h :: h in InsertAll(fs, added) && Equivalent(g, h)
  {
    hide SortedBySmallest, BySmallest, InsertBySmallest, Equivalent;
    var n := |added| - 1;
    assert added == added[..n] + [added[n]];
    var front := InsertAll(fs, added[..n]);
    assert InsertAll(fs, added) == InsertBySmallest(front, added[n]);
    if g in added[..n] {
      KindKept(fs, added[..n], g);
      var h :| h in front && Equivalent(g, h);
      assert h in InsertAll(fs, added);
    }
  }

  // ----- where a file of a version comes from -----

  /** It is a base file, or edit `j` brought it, and nothing took its number away since. */
  ghost predicate Came(base: seq<File>, edits: seq<LevelEdit>, n: nat, f: File)
    requires n <= |edits|
  {
    || (f in base && Survives(edits[..n], 0, f.number))
    || exists j: nat :: j < n && f in New(edits[j]) && Survives(edits[..n], j + 1, f.number)
  }

  lemma {:induction false} CameNext(base: seq<File>, edits: seq<LevelEdit>, n: nat, f: File)
    requires n < |edits|
    ensures Came(base, edits, n + 1, f) <==> (Came(base, edits, n, f) || f in New(edits[n])) && !Deletes(edits[n], f.number)
  {
    hide New, Deletes, Survives;
    SurvivesMore(edits, n, f.number);
    NewDeletes(edits[n], f);
    if Came(base, edits, n, f) && !Deletes(edits[n], f.number) && !(f in base && Survives(edits[..n], 0, f.number)) {
      var j: nat :| j < n && f in New(edits[j]) && Survives(edits[..n], j + 1, f.number);
      assert Survives(edits[..n + 1], j + 1, f.number);
    }
    if Came(base, edits, n + 1, f) && !(f in base && Survives(edits[..n + 1], 0, f.number)) {
      var j: nat :| j < n + 1 && f in New(edits[j]) && Survives(edits[..n + 1], j + 1, f.number);
      if j < n { assert Survives(edits[..n], j + 1, f.number); }
    }
  }

  lemma {:induction false} InVersion(base: seq<File>, edits: seq<LevelEdit>, n: nat, f: File)
    requires n <= |edits|
    ensures f in OneByOne(base, edits[..n]) <==> Came(base, edits, n, f)
  {
    hide New, OneByOne, Deletes;
    if n == 0 {
      NoVersion(base, edits);
    } else {
      hide Came;
      InVersion(base, edits, n - 1, f);
      NextVersion(base, edits, n - 1, f);
      CameNext(base, edits, n - 1, f);
    }
  }

  lemma {:induction false} NoVersion(base: seq<File>, edits: seq<LevelEdit>)
    ensures OneByOne(base, edits[..0]) == base
  {
  }

  lemma {:induction false} NewDeletes(edit: LevelEdit, f: File)
    ensures f in New(edit) ==> !Deletes(edit, f.number)
  {
    NewNumber(edit, f);
  }

  lemma {:induction false} SurvivesMore(edits: seq<LevelEdit>, n: nat, m: nat)
    requires n < |edits|
    ensures forall i :: 0 <= i <= n ==>
      (Survives(edits[..n + 1], i, m) <==> Survives(edits[..n], i, m) && !Deletes(edits[n], m))
    ensures Survives(edits[..n + 1], n + 1, m)
  {
    hide Deletes;
    var a, b := edits[..n], edits[..n + 1];
    assert forall k :: 0 <= k < n ==> a[k] == b[k] == edits[k];
    forall i | 0 <= i <= n && Survives(b, i, m) ensures Survives(a, i, m) && !Deletes(edits[n], m) {
      assert !Deletes(b[n], m);
      assert forall k :: i <= k < n ==> !Deletes(b[k], m);
    }
  }

  /** A gathered file was gathered before `p`, or an edit from `p` on brought it. */
  lemma {:induction false} GatheredSince(edits: seq<LevelEdit>, p: nat, n: nat, f: File)
    requires p <= n <= |edits|
    ensures f in Gathered(edits[..p]).added ==> f in Gathered(edits[..n]).added
    ensures f in Gathered(edits[..n]).added ==>
      f in Gathered(edits[..p]).added || exists i :: p <= i < n && f in New(edits[i])
    decreases n
  {
    hide Gathered, SortedBySmallest, InsertAll;
    if p < n {
      GatheredSince(edits, p, n - 1, f);
      NextGathered(edits, n - 1);
      if f in Gathered(edits[..n]).added && f !in Gathered(edits[..n - 1]).added {
        InsertedIsNew(Gathered(edits[..n - 1]).added, edits[n - 1].added, f);
      }
    }
  }

  /** Of everything an edit brought the builder has gathered one of its kind. */
  lemma {:induction false} KindGathered(edits: seq<LevelEdit>, j: nat, n: nat, f: File)
    requires j < n <= |edits| && f in New(edits[j])
    ensures exists g :: g in Gathered(edits[..n]).added && Equivalent(f, g)
    decreases n
  {
    hide Gathered, SortedBySmallest, InsertAll, Equivalent;
    NextGathered(edits, n - 1);
    if j == n - 1 {
      NewNumber(edits[j], f);
      KindKept(Gathered(edits[..j]).added, edits[j].added, f);
    } else {
      KindGathered(edits, j, n - 1, f);
    }
  }

  lemma {:induction false} NextDeleted(edits: seq<LevelEdit>, i: nat, m: nat)
    requires i < |edits|
    ensures m in Gathered(edits[..i + 1]).deleted <==>
            Deletes(edits[i], m) || (m in Gathered(edits[..i]).deleted && m !in Numbers(edits[i].added))
  {
    hide SortedBySmallest, InsertAll, Numbers, Gathered;
    NextGathered(edits, i);
  }

  lemma {:induction false} NoneDeleted(edits: seq<LevelEdit>)
    ensures Gathered(edits[..0]).deleted == {}
  {
  }

  /** A number is among the deleted ones when it was taken away and never added again. */
  lemma {:induction false} DeletedIs(edits: seq<LevelEdit>, n: nat, m: nat)
    requires n <= |edits|
    ensures m in Gathered(edits[..n]).deleted <==>
      exists p :: 0 <= p < n && Deletes(edits[p], m) && forall k :: p < k < n ==> m !in Numbers(edits[k].added)
  {
    hide *;
    if n == 0 {
      NoneDeleted(edits);
    } else {
      DeletedIs(edits, n - 1, m);
      NextDeleted(edits, n - 1, m);
      if p :| 0 <= p < n && Deletes(edits[p], m) && forall k :: p < k < n ==> m !in Numbers(edits[k].added) {
        assert p < n - 1 ==> forall k :: p < k < n - 1 ==> m !in Numbers(edits[k].added);
      }
    }
  }

  /** A number that is deleted at the end is in no file of the last version. */
  lemma {:induction false} DeletedIsGone(base: seq<File>, edits: seq<LevelEdit>, f: File)
    requires f.number in Gathered(edits).deleted
    ensures f !in OneByOne(base, edits)
  {
    hide Gathered, OneByOne, New, Deletes, Numbers;
    var n := |edits|;
    assert edits[..n] == edits;
    DeletedIs(edits, n, f.number);
    var p :| 0 <= p < n && Deletes(edits[p], f.number) && forall k :: p < k < n ==> f.number !in Numbers(edits[k].added);
    InVersion(base, edits, n, f);
    forall j | 0 <= j < n && f in New(edits[j]) ensures j < p {
      NewNumber(edits[j], f);
      NewDeletes(edits[j], f);
    }
  }

  /** A number that was taken away and is not deleted at the end returns. */
  lemma {:induction false} ComesBack(edits: seq<LevelEdit>, p: nat, m: nat)
    requires p < |edits| && Deletes(edits[p], m) && m !in Gathered(edits).deleted
    ensures exists q: nat, j: nat :: p <= q && Returns(edits, q, j, m) && Survives(edits, q + 1, m)
    decreases |edits| - p
  {
    hide Gathered, Deletes, Numbers;
    if k :| p < k < |edits| && Deletes(edits[k], m) {
      ComesBack(edits, k, m);
    } else {
      assert edits[..|edits|] == edits;
      DeletedIs(edits, |edits|, m);
      var j :| p < j < |edits| && m in Numbers(edits[j].added);
      assert Returns(edits, p, j, m);
    }
  }

  lemma {:induction false} ReturnsIsLive(edits: seq<LevelEdit>, p: nat, j: nat, m: nat)
    requires Returns(edits, p, j, m)
    ensures m !in Gathered(edits).deleted
  {
    hide Gathered, Numbers;
    assert edits[..|edits|] == edits;
    DeletedIs(edits, |edits|, m);
  }

  // ----- the two ways agree exactly when ReplaysRight -----

  /** In two versions in a row a file is not brought again while it is there. */
  lemma {:induction false} BroughtOnce(base: seq<File>, edits: seq<LevelEdit>, i: nat, f: File, g: File)
    requires VersionsOk(base, edits) && i < |edits|
    requires f in OneByOne(base, edits[..i]) && g in New(edits[i]) && !Deletes(edits[i], f.number)
    ensures !Equivalent(f, g)
  {
    hide OneByOne, InsertAll, SortedBySmallest, Saved;
    assert SortedBySmallest(OneByOne(base, edits[..i])) && SortedBySmallest(OneByOne(base, edits[..i + 1]));
    VersionIsSaved(base, edits, i);
    NothingInOrder();
    SavedInOrder(OneByOne(base, edits[..i]), Applied(NO_STATE, edits[i]));
  }

  lemma {:induction false} VersionIsSaved(base: seq<File>, edits: seq<LevelEdit>, i: nat)
    requires i < |edits|
    ensures OneByOne(base, edits[..i + 1]) == Saved(OneByOne(base, edits[..i]), Applied(NO_STATE, edits[i]))
  {
    Snoc(edits, i);
  }

  lemma {:induction false} KindOnce(base: seq<File>, edits: seq<LevelEdit>, f: File, g: File)
    requires VersionsOk(base, edits) && f in OneByOne(base, edits) && g in OneByOne(base, edits) && Equivalent(f, g)
    ensures f == g
  {
    hide OneByOne;
    var v := OneByOne(base, edits);
    assert edits[..|edits|] == edits;
    assert SortedBySmallest(v);
    var i, j :| 0 <= i < |v| && v[i] == f && 0 <= j < |v| && v[j] == g;
    if i < j { BySmallestTotal(f, g); } else if j < i { BySmallestTotal(g, f); }
  }

  /** What the builder has gathered and lets through is in the last version. */
  lemma {:induction false} GatheredIsThere(base: seq<File>, edits: seq<LevelEdit>, g: File)
    requires ReplaysRight(base, edits) && g in Gathered(edits).added && g.number !in Gathered(edits).deleted
    ensures g in OneByOne(base, edits)
  {
    hide Gathered, OneByOne, New, Deletes, Numbers;
    var n := |edits|;
    assert edits[..n] == edits;
    InVersion(base, edits, n, g);
    if p :| 0 <= p < n && Deletes(edits[p], g.number) {
      ComesBack(edits, p, g.number);
      var q: nat, j: nat :| p <= q && Returns(edits, q, j, g.number) && Survives(edits, q + 1, g.number);
      GatheredSince(edits, q, n, g);
      if g !in Gathered(edits[..q]).added {
        var i :| q <= i < n && g in New(edits[i]);
        NewDeletes(edits[i], g);
        assert i != q;
      }
      var i :| q < i < n && g in New(edits[i]);
      assert Survives(edits, i + 1, g.number);
    } else {
      GatheredSince(edits, 0, n, g);
      NothingGathered(edits);
      var i :| 0 <= i < n && g in New(edits[i]);
      assert Survives(edits, i + 1, g.number);
    }
  }

  lemma {:induction false} NothingGathered(edits: seq<LevelEdit>)
    ensures Gathered(edits[..0]).added == []
  {
  }

  /** So is a base file that it lets through. */
  lemma {:induction false} BaseIsThere(base: seq<File>, edits: seq<LevelEdit>, f: File)
    requires ReplaysRight(base, edits) && f in base && f.number !in Gathered(edits).deleted
    ensures f in OneByOne(base, edits) && Survives(edits, 0, f.number)
  {
    hide Gathered, OneByOne, New, Deletes;
    assert edits[..|edits|] == edits;
    forall p | 0 <= p < |edits| ensures !Deletes(edits[p], f.number) {
      if Deletes(edits[p], f.number) { ComesBack(edits, p, f.number); }
    }
    InVersion(base, edits, |edits|, f);
  }

  /** And the last version holds nothing else. */
  lemma {:induction false} NothingElse(base: seq<File>, edits: seq<LevelEdit>, f: File)
    requires VersionsOk(base, edits) && ReplaysRight(base, edits) && f in OneByOne(base, edits)
    ensures f in Saved(base, Gathered(edits))
  {
    hide Gathered, OneByOne, New, Deletes, Saved, ReplaysRight;
    assert edits[..|edits|] == edits;
    if f.number in Gathered(edits).deleted { DeletedIsGone(base, edits, f); }
    if f !in base {
      InVersion(base, edits, |edits|, f);
      var j :| 0 <= j < |edits| && f in New(edits[j]);
      KindGathered(edits, j, |edits|, f);
      var g :| g in Gathered(edits).added && Equivalent(f, g);
      GatheredIsThere(base, edits, g);
      KindOnce(base, edits, f, g);
    }
  }

  /** A surviving base file is not brought again. */
  lemma {:induction false} BaseStaysApart(base: seq<File>, edits: seq<LevelEdit>, f: File, g: File)
    requires VersionsOk(base, edits) && ReplaysRight(base, edits)
    requires f in base && f.number !in Gathered(edits).deleted && g in Gathered(edits).added
    ensures !Equivalent(f, g)
  {
    hide Gathered, OneByOne, New, ReplaysRight, Deletes, VersionsOk;
    var n := |edits|;
    assert edits[..n] == edits;
    BaseIsThere(base, edits, f);
    GatheredSince(edits, 0, n, g);
    NothingGathered(edits);
    var i :| 0 <= i < n && g in New(edits[i]);
    InVersion(base, edits, i, f);
    assert Survives(edits[..i], 0, f.number);
    BroughtOnce(base, edits, i, f, g);
  }

  lemma {:induction false} RightReplays(base: seq<File>, edits: seq<LevelEdit>)
    requires VersionsOk(base, edits) && ReplaysRight(base, edits)
    ensures Saved(base, Gathered(edits)) == OneByOne(base, edits)
  {
    hide Gathered, OneByOne, Saved, ReplaysRight, BySmallest, Equivalent;
    var state := Gathered(edits);
    forall f, g | f in base && g in state.added && f.number !in state.deleted ensures !Equivalent(f, g) {
      BaseStaysApart(base, edits, f, g);
    }
    BaseSorted(base, edits);
    SavedInOrder(base, state);
    forall f ensures f in Saved(base, state) <==> f in OneByOne(base, edits) {
      if f in OneByOne(base, edits) { NothingElse(base, edits, f); }
      if f in Saved(base, state) {
        if f in base { BaseIsThere(base, edits, f); } else { GatheredIsThere(base, edits, f); }
      }
    }
    SortedFilesEqual(Saved(base, state), OneByOne(base, edits));
  }

  lemma {:induction false} BaseSorted(base: seq<File>, edits: seq<LevelEdit>)
    requires VersionsOk(base, edits)
    ensures SortedBySmallest(base) && SortedBySmallest(OneByOne(base, edits))
  {
    hide SortedBySmallest;
    NoVersion(base, edits);
    assert edits[..|edits|] == edits;
    assert SortedBySmallest(OneByOne(base, edits[..0])) && SortedBySmallest(OneByOne(base, edits[..|edits|]));
  }

  lemma {:induction false} ReplaysAreRight(base: seq<File>, edits: seq<LevelEdit>)
    requires VersionsOk(base, edits) && Saved(base, Gathered(edits)) == OneByOne(base, edits)
    ensures ReplaysRight(base, edits)
  {
    hide Gathered, OneByOne, Saved, New, Deletes, Numbers, Equivalent;
    var n, state := |edits|, Gathered(edits);
    assert edits[..n] == edits;
    BaseSorted(base, edits);
    SavedInOrder(base, state);
    forall p: nat, j: nat, m: nat | Returns(edits, p, j, m)
      ensures forall f :: f in base ==> f.number != m
      ensures forall f :: f in Gathered(edits[..p]).added && f.number == m ==> exists i :: p < i < n && f in New(edits[i])
    {
      ReturnsIsLive(edits, p, j, m);
      forall f | f in base && f.number == m ensures false {
        InVersion(base, edits, n, f);
        assert f in Saved(base, state);
        var i :| 0 <= i < n && f in New(edits[i]);
        KindGathered(edits, i, n, f);
      }
      forall f | f in Gathered(edits[..p]).added && f.number == m ensures exists i :: p < i < n && f in New(edits[i]) {
        GatheredSince(edits, p, n, f);
        InVersion(base, edits, n, f);
        if i :| 0 <= i < n && f in New(edits[i]) && Survives(edits, i + 1, m) { NewDeletes(edits[i], f); }
      }
    }
  }

  /** One builder for all edits saves the files a version per edit ends with exactly
      when no number comes back whose old files the builder still knows. */
  lemma {:induction false} OneBuilderForAll(base: seq<File>, edits: seq<LevelEdit>)
    requires VersionsOk(base, edits)
    ensures Saved(base, Gathered(edits)) == OneByOne(base, edits) <==> ReplaysRight(base, edits)
  {
    hide *;
    if ReplaysRight(base, edits) { RightReplays(base, edits); }
    if Saved(base, Gathered(edits)) == OneByOne(base, edits) { ReplaysAreRight(base, edits); }
  }

  /** They can differ: a base file whose number is deleted and added again. */
  lemma {:induction false} ReaddingDiffers(f: File, g: File)
    requires f.number == g.number
    ensures var edits := [LevelEdit({f.number}, []), LevelEdit({}, [g])];
      VersionsOk([f], edits) && Saved([f], Gathered(edits)) != OneByOne([f], edits)
  {
    hide OneByOne, Gathered, Saved, Survives, SortedBySmallest, InsertAll;
    var edits := [LevelEdit({f.number}, []), LevelEdit({}, [g])];
    TwoVersions(f, g, edits);
    OneBuilderForAll([f], edits);
    assert g in edits[1].added && g.number in Numbers(edits[1].added);
    assert Survives(edits, 2, f.number) by { NoneLeft(edits, f.number); }
    assert Returns(edits, 0, 1, f.number) && f in [f];
  }

  lemma {:induction false} NoneLeft(edits: seq<LevelEdit>, m: nat)
    ensures Survives(edits, |edits|, m)
  {
  }

  lemma {:induction false} TwoVersions(f: File, g: File, edits: seq<LevelEdit>)
    requires f.number == g.number && edits == [LevelEdit({f.number}, []), LevelEdit({}, [g])]
    ensures VersionsOk([f], edits)
  {
    hide OneByOne, Saved, InsertAll, BySmallest;
    var v1 := OneByOne([f], edits[..1]);
    NoVersion([f], edits);
    VersionIsSaved([f], edits, 0);
    VersionIsSaved([f], edits, 1);
    assert edits[0].added == [] && Numbers([]) == {};
    NothingInOrder();
    assert New(edits[0]) == [] by { NothingNew(edits[0]); }
    assert v1 == [] by {
      forall x ensures x !in v1 { NextVersion([f], edits, 0, x); }
      if |v1| > 0 { HasMember(v1); }
    }
    SavedInOrder(v1, Applied(NO_STATE, edits[1]));
    assert edits[..2] == edits;
    forall i | 0 <= i <= 2 ensures SortedBySmallest(OneByOne([f], edits[..i])) {
      assert i == 0 || i == 1 || i == 2;
    }
  }

  lemma {:induction false} NothingNew(edit: LevelEdit)
    requires edit.added == []
    ensures New(edit) == []
  {
  }

  // ----- when no number is ever added twice -----

  /** No edit adds a file number to a level where it has been. */
  ghost predicate NeverReadded(base: seq<File>, edits: seq<LevelEdit>) {
    && (forall f, j :: f in base && 0 <= j < |edits| ==> f.number !in Numbers(edits[j].added))
    && (forall i, j, m: nat :: 0 <= i < j < |edits| && m in Numbers(edits[i].added) ==> m !in Numbers(edits[j].added))
  }

  lemma {:induction false} NeverReaddedReplays(base: seq<File>, edits: seq<LevelEdit>)
    requires NeverReadded(base, edits)
    ensures ReplaysRight(base, edits)
  {
    hide Gathered, New, Deletes, Numbers;
    forall p: nat, j: nat, m: nat | Returns(edits, p, j, m)
      ensures forall f :: f in base ==> f.number != m
      ensures forall f :: f in Gathered(edits[..p]).added ==> f.number != m
    {
      forall f | f in Gathered(edits[..p]).added ensures f.number != m {
        GatheredSince(edits, 0, p, f);
        NothingGathered(edits);
        var i :| 0 <= i < p && f in New(edits[i]);
        NewNumber(edits[i], f);
      }
    }
  }
}
