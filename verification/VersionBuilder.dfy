/** VersionSet::Builder: accumulating edits and saving them as a version
    (db/version_set.cc). */
module VersionBuilder {
  import opened InternalKeys
  import opened Versions
  import opened LsmState

  /** The file changes of a VersionEdit: (level, number) and (level, file) pairs. */
  datatype VersionEdit = VersionEdit(deleted: seq<(nat, nat)>, added: seq<(nat, File)>)

  /** The part of an edit that concerns one level. */
  datatype LevelEdit = LevelEdit(deleted: set<nat>, added: seq<File>)

  /** LevelState; `added` is the std::set ordered by BySmallestKey. */
  datatype LevelState = LevelState(deleted: set<nat>, added: seq<File>)

  const NO_STATE := LevelState({}, [])

  function At(edit: VersionEdit, l: nat): LevelEdit {
    LevelEdit(set p | p in edit.deleted && p.0 == l :: p.1, FilesAt(edit.added, l))
  }

  function FilesAt(pairs: seq<(nat, File)>, l: nat): (r: seq<File>)
    ensures forall f :: f in r <==> (l, f) in pairs
  {
    if |pairs| == 0 then []
    else
      var n := |pairs| - 1;
      assert pairs == pairs[..n] + [pairs[n]];
      FilesAt(pairs[..n], l) + if pairs[n].0 == l then [pairs[n].1] else []
  }

  function Numbers(fs: seq<File>): set<nat> {
    set f | f in fs :: f.number
  }

  ghost predicate OnLevels(edit: VersionEdit) {
    && (forall p :: p in edit.deleted ==> p.0 < NUM_LEVELS)
    && (forall p :: p in edit.added ==> p.0 < NUM_LEVELS)
  }

  // ----- one level -----

  /** BySmallestKey puts neither first. */
  predicate Equivalent(f: File, g: File) {
    f.smallest == g.smallest && f.number == g.number
  }

  lemma {:induction false} BySmallestTotal(f: File, g: File)
    ensures Equivalent(f, g) <==> !BySmallest(f, g) && !BySmallest(g, f)
    ensures !(BySmallest(f, g) && BySmallest(g, f))
  {
  }

  /** std::set::insert: nothing happens when an equivalent file is there. */
  function InsertBySmallest(fs: seq<File>, f: File): (r: seq<File>)
    requires SortedBySmallest(fs)
    ensures SortedBySmallest(r)
    ensures forall g :: g in fs ==> g in r
    ensures forall g :: g in r ==> g in fs || g == f
    ensures f in r <==> f in fs || forall g :: g in fs ==> !Equivalent(f, g)
    ensures exists g :: g in r && Equivalent(f, g)
  {
    if |fs| == 0 then
      assert f in [f];
      [f]
    else
      var n := |fs| - 1;
      assert fs == fs[..n] + [fs[n]];
      if BySmallest(fs[n], f) then
        NoneEquivalent(fs, f);
        assert f in fs + [f];
        fs + [f]
      else if BySmallest(f, fs[n]) then
        var r := InsertBySmallest(fs[..n], f);
        InsertedBefore(fs, f, r);
        r + [fs[n]]
      else
        BySmallestTotal(fs[n], f);
        SameKind(fs, f);
        fs
  }

  lemma {:induction false} NoneEquivalent(fs: seq<File>, f: File)
    requires SortedBySmallest(fs) && |fs| > 0 && BySmallest(fs[|fs| - 1], f)
    ensures forall g :: g in fs ==> !Equivalent(f, g) && g != f
  {
    forall g | g in fs ensures BySmallest(g, f) {
      var i :| 0 <= i < |fs| && fs[i] == g;
      assert i < |fs| - 1 ==> BySmallest(fs[i], fs[|fs| - 1]);
    }
  }

  lemma {:induction false} SameKind(fs: seq<File>, f: File)
    requires |fs| > 0 && Equivalent(f, fs[|fs| - 1])
    ensures exists g :: g in fs && Equivalent(f, g)
  {
    assert fs[|fs| - 1] in fs;
  }

  lemma {:induction false} InsertedBefore(fs: seq<File>, f: File, r: seq<File>)
    requires SortedBySmallest(fs) && |fs| > 0 && BySmallest(f, fs[|fs| - 1]) && SortedBySmallest(r)
    requires forall g :: g in r ==> g in fs[..|fs| - 1] || g == f
    ensures SortedBySmallest(r + [fs[|fs| - 1]])
  {
    forall i | 0 <= i < |r| ensures BySmallest(r[i], fs[|fs| - 1]) {
      assert r[i] in r;
    }
  }

  /** new_files_ going into the set one by one. */
  function InsertAll(fs: seq<File>, added: seq<File>): (r: seq<File>)
    requires SortedBySmallest(fs)
    ensures SortedBySmallest(r)
    ensures forall g :: g in fs ==> g in r
    ensures forall g :: g in r ==> g in fs || g in added
  {
    if |added| == 0 then fs
    else
      var n := |added| - 1;
      assert added == added[..n] + [added[n]];
      InsertBySmallest(InsertAll(fs, added[..n]), added[n])
  }

  /** The files SaveTo lets through. */
  function Live(fs: seq<File>, deleted: set<nat>): (r: seq<File>)
    ensures forall f :: f in r <==> f in fs && f.number !in deleted
  {
    if |fs| == 0 then []
    else
      var n := |fs| - 1;
      assert fs == fs[..n] + [fs[n]];
      Live(fs[..n], deleted) + if fs[n].number in deleted then [] else [fs[n]]
  }

  /** The base files and the added files in one order; of equivalent files the
      base file comes first. */
  function Woven(base: seq<File>, added: seq<File>): (r: seq<File>)
    ensures forall f :: f in r <==> f in base || f in added
  {
    if |added| == 0 then base
    else if |base| == 0 then added
    else
      var b, a := base[|base| - 1], added[|added| - 1];
      assert base == base[..|base| - 1] + [b] && added == added[..|added| - 1] + [a];
      if BySmallest(a, b) then Woven(base[..|base| - 1], added) + [b] else Woven(base, added[..|added| - 1]) + [a]
  }

  /** The level SaveTo writes. */
  function Saved(base: seq<File>, state: LevelState): (r: seq<File>)
    ensures forall f :: f in r <==> (f in base || f in state.added) && f.number !in state.deleted
  {
    Live(Woven(base, state.added), state.deleted)
  }

  /** No base file and added file that are let through are equivalent. */
  predicate Apart(base: seq<File>, state: LevelState) {
    forall f, g :: f in base && g in state.added && f.number !in state.deleted ==> !Equivalent(f, g)
  }

  lemma {:induction false} LastFile(a: seq<File>, f: File)
    requires SortedBySmallest(a) && f in a
    ensures var n := |a| - 1; (f == a[n] && f !in a[..n]) || (BySmallest(f, a[n]) && f in a[..n])
  {
    var n := |a| - 1;
    var i :| 0 <= i < |a| && a[i] == f;
    if i < n { assert a[..n][i] == f; }
  }

  lemma {:induction false} AppendLargest(out: seq<File>, f: File)
    requires SortedBySmallest(out) && forall g :: g in out ==> BySmallest(g, f)
    ensures SortedBySmallest(out + [f])
  {
    assert forall k :: 0 <= k < |out| ==> out[k] in out;
  }

  /** The saved level is in strict order exactly when nothing in it is twice. */
  lemma {:induction false} SavedInOrder(base: seq<File>, state: LevelState)
    requires SortedBySmallest(base) && SortedBySmallest(state.added)
    ensures SortedBySmallest(Saved(base, state)) <==> Apart(base, state)
    decreases |base| + |state.added|
  {
    hide BySmallest, Live;
    var n, m := |base|, |state.added|;
    if n == 0 || m == 0 {
      LiveSorted(Woven(base, state.added), state.deleted);
    } else if BySmallest(state.added[m - 1], base[n - 1]) {
      SavedInOrder(base[..n - 1], state);
      LastOfBase(base, state);
    } else {
      SavedInOrder(base, state.(added := state.added[..m - 1]));
      LastOfAdded(base, state);
    }
  }

  lemma {:induction false} LiveSorted(fs: seq<File>, deleted: set<nat>)
    requires SortedBySmallest(fs)
    ensures SortedBySmallest(Live(fs, deleted))
  {
    if |fs| > 0 {
      var n := |fs| - 1;
      LiveSorted(fs[..n], deleted);
      forall g | g in Live(fs[..n], deleted) ensures BySmallest(g, fs[n]) { LastFile(fs, g); LastIsLast(fs); }
      AppendLargest(Live(fs[..n], deleted), fs[n]);
    }
  }

  lemma {:induction false} LastIsLast(fs: seq<File>)
    requires SortedBySmallest(fs) && |fs| > 0
    ensures fs[|fs| - 1] !in fs[..|fs| - 1]
  {
    LastFile(fs, fs[|fs| - 1]);
  }

  lemma {:induction false} LiveSnoc(fs: seq<File>, f: File, deleted: set<nat>)
    ensures Live(fs + [f], deleted) == Live(fs, deleted) + LiveOne(f, deleted)
  {
    assert (fs + [f])[..|fs|] == fs;
  }

  function LiveOne(f: File, deleted: set<nat>): seq<File> {
    if f.number in deleted then [] else [f]
  }

  lemma {:induction false} SnocSorted(front: seq<File>, f: File, deleted: set<nat>)
    ensures SortedBySmallest(front + LiveOne(f, deleted)) <==>
      SortedBySmallest(front) && (f.number !in deleted ==> forall g :: g in front ==> BySmallest(g, f))
  {
    hide BySmallest;
    var all := front + LiveOne(f, deleted);
    if SortedBySmallest(all) {
      forall i, j | 0 <= i < j < |front| ensures BySmallest(front[i], front[j]) {
        assert all[i] == front[i] && all[j] == front[j];
      }
      forall g | g in front && f.number !in deleted ensures BySmallest(g, f) {
        var i :| 0 <= i < |front| && front[i] == g;
        assert all[i] == g && all[|front|] == f;
      }
    }
    if SortedBySmallest(front) && (f.number !in deleted ==> forall g :: g in front ==> BySmallest(g, f)) {
      if f.number !in deleted { AppendLargest(front, f); } else { assert all == front; }
    }
  }

  lemma {:induction false} LastOfBase(base: seq<File>, state: LevelState)
    requires SortedBySmallest(base) && SortedBySmallest(state.added) && |base| > 0 && |state.added| > 0
    requires BySmallest(state.added[|state.added| - 1], base[|base| - 1])
    requires SortedBySmallest(Saved(base[..|base| - 1], state)) <==> Apart(base[..|base| - 1], state)
    ensures SortedBySmallest(Saved(base, state)) <==> Apart(base, state)
  {
    hide BySmallest, Live, SortedBySmallest, Equivalent;
    var n, b, front := |base| - 1, base[|base| - 1], Saved(base[..|base| - 1], state);
    LiveSnoc(Woven(base[..n], state.added), b, state.deleted);
    assert base == base[..n] + [b];
    forall g | g in base[..n] || g in state.added ensures BySmallest(g, b) {
      if g in state.added {
        LastFile(state.added, g);
        if g != state.added[|state.added| - 1] { BySmallestOrSame(g, state.added[|state.added| - 1], b); }
      }
      if g in base[..n] { LastFile(base, g); LastIsLast(base); }
    }
    forall g | g in state.added ensures !Equivalent(b, g) { BySmallestTotal(b, g); }
    SnocSorted(front, b, state.deleted);
  }

  lemma {:induction false} LastOfAdded(base: seq<File>, state: LevelState)
    requires SortedBySmallest(base) && SortedBySmallest(state.added) && |base| > 0 && |state.added| > 0
    requires !BySmallest(state.added[|state.added| - 1], base[|base| - 1])
    requires var less := state.(added := state.added[..|state.added| - 1]);
      SortedBySmallest(Saved(base, less)) <==> Apart(base, less)
    ensures SortedBySmallest(Saved(base, state)) <==> Apart(base, state)
  {
    hide BySmallest, Live, SortedBySmallest, Equivalent;
    var m, a, b := |state.added| - 1, state.added[|state.added| - 1], base[|base| - 1];
    var less := state.(added := state.added[..m]);
    LiveSnoc(Woven(base, less.added), a, state.deleted);
    assert state.added == less.added + [a];
    BySmallestTotal(b, a);
    forall g | g in base ensures BySmallest(g, a) <==> !Equivalent(g, a) {
      LastFile(base, g);
      BySmallestTotal(g, a);
      if g != b { BySmallestOrSame(g, b, a); }
    }
    forall g | g in less.added ensures BySmallest(g, a) { LastFile(state.added, g); LastIsLast(state.added); }
    SnocSorted(Saved(base, less), a, state.deleted);
    forall g | g in base && g.number !in state.deleted && Equivalent(g, a) ensures g in Saved(base, less) && a.number !in state.deleted {
      EquivalentNumbers(g, a);
    }
    assert Apart(base, state) <==> Apart(base, less) && (forall g :: g in base && g.number !in state.deleted ==> !Equivalent(g, a));
    if a.number !in state.deleted && Apart(base, state) {
      forall g | g in Saved(base, less) ensures BySmallest(g, a) { }
    }
  }

  lemma {:induction false} EquivalentNumbers(f: File, g: File)
    requires Equivalent(f, g)
    ensures f.number == g.number
  {
  }

  lemma {:induction false} BySmallestOrSame(f: File, g: File, h: File)
    requires BySmallest(f, g) && (BySmallest(g, h) || Equivalent(g, h))
    ensures BySmallest(f, h)
  {
  }

  /** Files in strict order are determined by which they are. */
  lemma {:induction false} SortedFilesEqual(a: seq<File>, b: seq<File>)
    requires SortedBySmallest(a) && SortedBySmallest(b) && forall f :: f in a <==> f in b
    ensures a == b
    decreases |a|
  {
    if a == [] {
      if b != [] { HasMember(b); }
    } else {
      var x := a[|a| - 1];
      assert x in b;
      var y := b[|b| - 1];
      assert y in a;
      LastFile(b, x);
      LastFile(a, y);
      BySmallestTotal(x, y);
      var a', b' := a[..|a| - 1], b[..|b| - 1];
      assert a == a' + [x] && b == b' + [y];
      forall f ensures f in a' <==> f in b' {
        if f in a { LastFile(a, f); LastFile(b, f); }
      }
      SortedFilesEqual(a', b');
    }
  }

  /** MaybeAddFile: `out` stays the live ones of the files offered. */
  method MaybeAddFile(out: seq<File>, f: File, deleted: set<nat>, ghost offered: seq<File>) returns (r: seq<File>)
    requires out == Live(offered, deleted)
    ensures r == Live(offered + [f], deleted)
  {
    assert (offered + [f])[..|offered|] == offered;
    r := out;
    if f.number in deleted {
    } else {
      r := r + [f];
    }
  }

  lemma {:induction false} BaseOne(base: seq<File>, i: nat, added: seq<File>, j: nat)
    requires SortedBySmallest(base) && i < |base| && j <= |added|
    requires j > 0 ==> BySmallest(added[j - 1], base[i])
    ensures Woven(base[..i + 1], added[..j]) == Woven(base[..i], added[..j]) + [base[i]]
    ensures j > 0 && i + 1 < |base| ==> BySmallest(added[j - 1], base[i + 1])
  {
    assert base[..i + 1][..i] == base[..i] && base[..i + 1] == base[..i] + [base[i]];
    if i + 1 < |base| { assert BySmallest(base[i], base[i + 1]); }
  }

  lemma {:induction false} AddedOne(base: seq<File>, i: nat, added: seq<File>, j: nat)
    requires i <= |base| && j < |added| && (i > 0 ==> !BySmallest(added[j], base[i - 1]))
    ensures Woven(base[..i], added[..j + 1]) == Woven(base[..i], added[..j]) + [added[j]]
  {
    assert added[..j + 1][..j] == added[..j] && added[..j + 1] == added[..j] + [added[j]];
  }

  lemma {:induction false} StillBefore(base: seq<File>, i: nat, added: seq<File>, j: nat)
    requires SortedBySmallest(added) && 0 < j < |added| && i <= |base|
    requires forall k :: 0 <= k < i ==> !BySmallest(added[j - 1], base[k])
    ensures forall k :: 0 <= k < i ==> !BySmallest(added[j], base[k])
  {
    assert BySmallest(added[j - 1], added[j]);
  }

  lemma {:induction false} NothingLive(deleted: set<nat>)
    ensures Live([], deleted) == []
  {
  }

  /** SaveTo on one level: each added file after the base files upper_bound puts
      before it, then the remaining base files. */
  method SaveLevel(base: seq<File>, state: LevelState) returns (out: seq<File>)
    requires SortedBySmallest(base) && SortedBySmallest(state.added)
    ensures out == Saved(base, state)
  {
    hide Live, Woven, BySmallest, SortedBySmallest;
    var added := state.added;
    out := [];
    var i := 0;
    NothingLive(state.deleted);
    NothingWoven(base, added);
    for j := 0 to |added|
      invariant 0 <= i <= |base|
      invariant out == Live(Woven(base[..i], added[..j]), state.deleted)
      invariant j > 0 && i < |base| ==> BySmallest(added[j - 1], base[i])
      invariant j > 0 ==> forall k :: 0 <= k < i ==> !BySmallest(added[j - 1], base[k])
      invariant j == 0 ==> i == 0
    {
      if j > 0 { StillBefore(base, i, added, j); }
      while i < |base| && !BySmallest(added[j], base[i])
        invariant 0 <= i <= |base|
        invariant out == Live(Woven(base[..i], added[..j]), state.deleted)
        invariant j > 0 && i < |base| ==> BySmallest(added[j - 1], base[i])
        invariant forall k :: 0 <= k < i ==> !BySmallest(added[j], base[k])
      {
        BaseOne(base, i, added, j);
        out := MaybeAddFile(out, base[i], state.deleted, Woven(base[..i], added[..j]));
        i := i + 1;
      }
      AddedOne(base, i, added, j);
      out := MaybeAddFile(out, added[j], state.deleted, Woven(base[..i], added[..j]));
    }
    assert added[..|added|] == added;
    out := AddRest(base, i, added, state.deleted, out);
  }

  /** The base files after the last added one. */
  method AddRest(base: seq<File>, first: nat, ghost added: seq<File>, deleted: set<nat>, saved: seq<File>)
    returns (out: seq<File>)
    requires SortedBySmallest(base) && first <= |base| && saved == Live(Woven(base[..first], added), deleted)
    requires |added| > 0 && first < |base| ==> BySmallest(added[|added| - 1], base[first])
    ensures out == Live(Woven(base, added), deleted)
  {
    hide Live, Woven, BySmallest, SortedBySmallest;
    out := saved;
    assert added[..|added|] == added;
    for i := first to |base|
      invariant out == Live(Woven(base[..i], added), deleted)
      invariant |added| > 0 && i < |base| ==> BySmallest(added[|added| - 1], base[i])
    {
      BaseOne(base, i, added, |added|);
      out := MaybeAddFile(out, base[i], deleted, Woven(base[..i], added));
    }
    assert base[..|base|] == base;
  }

  lemma {:induction false} NothingWoven(base: seq<File>, added: seq<File>)
    ensures Woven(base[..0], added[..0]) == []
  {
  }

  // ----- the builder -----

  /** Apply, as far as it concerns one level: deletions first, then additions, which
      also take back a deletion of the same number. */
  function Applied(state: LevelState, edit: LevelEdit): (r: LevelState)
    requires SortedBySmallest(state.added)
    ensures SortedBySmallest(r.added)
  {
    LevelState(state.deleted + edit.deleted - Numbers(edit.added), InsertAll(state.added, edit.added))
  }

  class Builder {
    const base: seq<seq<File>>
    var levels: seq<LevelState>

    ghost predicate Valid()
      reads this
    {
      && |base| == NUM_LEVELS == |levels|
      && forall l :: 0 <= l < NUM_LEVELS ==> SortedBySmallest(base[l]) && SortedBySmallest(levels[l].added)
    }

    constructor (base: seq<seq<File>>)
      requires |base| == NUM_LEVELS && forall l :: 0 <= l < NUM_LEVELS ==> SortedBySmallest(base[l])
      ensures Valid() && this.base == base
      ensures forall l :: 0 <= l < NUM_LEVELS ==> levels[l] == NO_STATE
    {
      this.base := base;
      levels := seq(NUM_LEVELS, _ => NO_STATE);
    }

    method Apply(edit: VersionEdit)
      requires Valid() && OnLevels(edit)
      modifies this
      ensures Valid()
      ensures forall l :: 0 <= l < NUM_LEVELS ==> levels[l] == Applied(old(levels[l]), At(edit, l))
    {
      DeleteFiles(edit);
      AddFiles(edit);
    }

    method DeleteFiles(edit: VersionEdit)
      requires Valid() && OnLevels(edit)
      modifies this
      ensures Valid()
      ensures forall l :: 0 <= l < NUM_LEVELS ==>
                levels[l] == old(levels[l]).(deleted := old(levels[l]).deleted + At(edit, l).deleted)
    {
      for i := 0 to |edit.deleted|
        invariant Valid()
        invariant forall l :: 0 <= l < NUM_LEVELS ==> levels[l] == old(levels[l]).(deleted :=
                    old(levels[l]).deleted + set p | p in edit.deleted[..i] && p.0 == l :: p.1)
      {
        var (level, number) := edit.deleted[i];
        assert edit.deleted[i] in edit.deleted;
        assert edit.deleted[..i + 1] == edit.deleted[..i] + [edit.deleted[i]];
        levels := levels[level := levels[level].(deleted := levels[level].deleted + {number})];
      }
      assert edit.deleted[..|edit.deleted|] == edit.deleted;
    }

    method AddFiles(edit: VersionEdit)
      requires Valid() && OnLevels(edit)
      modifies this
      ensures Valid()
      ensures forall l :: 0 <= l < NUM_LEVELS ==> levels[l] == Gained(old(levels[l]), FilesAt(edit.added, l))
    {
      hide Gained, FilesAt, InsertBySmallest, InsertAll, Numbers, SortedBySmallest;
      assert edit.added[..0] == [];
      forall l | 0 <= l < NUM_LEVELS ensures levels[l] == Gained(levels[l], FilesAt([], l)) {
        NothingGained(levels[l]);
      }
      for i := 0 to |edit.added|
        invariant Valid()
        invariant forall l :: 0 <= l < NUM_LEVELS ==> levels[l] == Gained(old(levels[l]), FilesAt(edit.added[..i], l))
      {
        var (level, f) := edit.added[i];
        assert edit.added[i] in edit.added;
        ghost var before := levels;
        AddFile(level, f);
        AllGained(old(levels), before, edit.added[..i], level, f, levels);
        assert edit.added[..i + 1] == edit.added[..i] + [(level, f)];
      }
      assert edit.added[..|edit.added|] == edit.added;
    }

    method AddFile(level: nat, f: File)
      requires Valid() && level < NUM_LEVELS
      modifies this
      ensures Valid()
      ensures levels == old(levels)[level := LevelState(old(levels)[level].deleted - {f.number},
                                                        InsertBySmallest(old(levels)[level].added, f))]
    {
      levels := levels[level := LevelState(levels[level].deleted - {f.number}, InsertBySmallest(levels[level].added, f))];
    }

    /** SaveTo */
    method SaveTo() returns (files: seq<seq<File>>)
      requires Valid()
      ensures |files| == NUM_LEVELS
      ensures forall l :: 0 <= l < NUM_LEVELS ==> files[l] == Saved(base[l], levels[l])
    {
      files := [];
      for l := 0 to NUM_LEVELS
        invariant |files| == l
        invariant forall m :: 0 <= m < l ==> files[m] == Saved(base[m], levels[m])
      {
        var out := SaveLevel(base[l], levels[l]);
        files := files + [out];
      }
    }
  }

  function Gained(state: LevelState, added: seq<File>): (r: LevelState)
    requires SortedBySmallest(state.added)
    ensures SortedBySmallest(r.added)
  {
    LevelState(state.deleted - Numbers(added), InsertAll(state.added, added))
  }

  lemma {:induction false} NothingGained(state: LevelState)
    requires SortedBySmallest(state.added)
    ensures forall l :: Gained(state, FilesAt([], l)) == state
  {
  }

  lemma {:induction false} NextFilesAt(pairs: seq<(nat, File)>, l: nat, level: nat, f: File)
    ensures FilesAt(pairs + [(level, f)], l) == FilesAt(pairs, l) + if l == level then [f] else []
  {
    assert (pairs + [(level, f)])[..|pairs|] == pairs;
  }

  lemma {:induction false} OneMore(state: LevelState, added: seq<File>, f: File)
    requires SortedBySmallest(state.added)
    ensures var mid := Gained(state, added);
            Gained(state, added + [f]) == LevelState(mid.deleted - {f.number}, InsertBySmallest(mid.added, f))
  {
    hide SortedBySmallest, InsertBySmallest;
    assert (added + [f])[..|added|] == added;
    assert Numbers(added + [f]) == Numbers(added) + {f.number};
  }

  lemma {:induction false} GainedOne(state: LevelState, pairs: seq<(nat, File)>, l: nat, mid: LevelState, level: nat,
      f: File, state': LevelState)
    requires SortedBySmallest(state.added) && mid == Gained(state, FilesAt(pairs, l))
    requires state' == if l == level then LevelState(mid.deleted - {f.number}, InsertBySmallest(mid.added, f)) else mid
    ensures state' == Gained(state, FilesAt(pairs + [(level, f)], l))
  {
    hide *;
    NextFilesAt(pairs, l, level, f);
    if l == level {
      OneMore(state, FilesAt(pairs, l), f);
    } else {
      assert FilesAt(pairs, l) + [] == FilesAt(pairs, l);
    }
  }

  lemma {:induction false} AllGained(first: seq<LevelState>, before: seq<LevelState>, pairs: seq<(nat, File)>,
      level: nat, f: File, after: seq<LevelState>)
    requires |first| == |before| == |after| == NUM_LEVELS && level < NUM_LEVELS
    requires forall l :: 0 <= l < NUM_LEVELS ==>
               SortedBySmallest(first[l].added) && before[l] == Gained(first[l], FilesAt(pairs, l))
    requires SortedBySmallest(before[level].added)
    requires after == before[level := LevelState(before[level].deleted - {f.number},
                                                 InsertBySmallest(before[level].added, f))]
    ensures forall l :: 0 <= l < NUM_LEVELS ==> after[l] == Gained(first[l], FilesAt(pairs + [(level, f)], l))
  {
    hide Gained, FilesAt, InsertBySmallest, SortedBySmallest;
    forall l | 0 <= l < NUM_LEVELS ensures after[l] == Gained(first[l], FilesAt(pairs + [(level, f)], l)) {
      GainedOne(first[l], pairs, l, before[l], level, f, after[l]);
    }
  }

  lemma {:induction false} HasMember(fs: seq<File>)
    requires |fs| > 0
    ensures exists f :: f in fs
  {
    assert fs[0] in fs;
  }
}
