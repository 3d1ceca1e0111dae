/** Merging sorted runs with distinct keys: the sequence a merging iterator
    yields, as a function of its children. */
module MergedRuns {
  import opened InternalKeys

  function Merge2(a: seq<Entry>, b: seq<Entry>): seq<Entry> {
    if |a| == 0 then b
    else if |b| == 0 then a
    else if Less(a[0].ikey, b[0].ikey) then [a[0]] + Merge2(a[1..], b)
    else [b[0]] + Merge2(a, b[1..])
  }

  lemma {:induction false} Merge2Members(a: seq<Entry>, b: seq<Entry>, e: Entry)
    ensures e in Merge2(a, b) <==> e in a || e in b
  {
    if |a| > 0 && |b| > 0 {
      if Less(a[0].ikey, b[0].ikey) {
        Merge2Members(a[1..], b, e);
        assert a == [a[0]] + a[1..];
      } else {
        Merge2Members(a, b[1..], e);
        assert b == [b[0]] + b[1..];
      }
    }
  }

  ghost predicate DistinctKeys(a: seq<Entry>, b: seq<Entry>) {
    forall x, y :: x in a && y in b ==> x.ikey != y.ikey
  }

  lemma {:induction false} Merge2Sorted(a: seq<Entry>, b: seq<Entry>)
    requires Sorted(a) && Sorted(b) && DistinctKeys(a, b)
    ensures Sorted(Merge2(a, b))
  {
    if |a| > 0 && |b| > 0 {
      assert a[0] in a && b[0] in b;
      if Less(a[0].ikey, b[0].ikey) {
        Merge2Sorted(a[1..], b);
        ConsSorted(a[0], a[1..], b);
      } else {
        Merge2Sorted(a, b[1..]);
        ConsSorted(b[0], a, b[1..]);
      }
    }
  }

  lemma {:induction false} ConsSorted(e: Entry, a: seq<Entry>, b: seq<Entry>)
    requires Sorted(Merge2(a, b)) && Sorted(a) && Sorted(b)
    requires |a| > 0 ==> Less(e.ikey, a[0].ikey)
    requires |b| > 0 ==> Less(e.ikey, b[0].ikey)
    ensures Sorted([e] + Merge2(a, b))
  {
    var m := Merge2(a, b);
    if |m| > 0 {
      assert m[0] in [m[0]];
      forall j | 0 <= j < |m| ensures Less(e.ikey, m[j].ikey) {
        assert 0 < j ==> Less(m[0].ikey, m[j].ikey);
      }
    }
  }

  function MergeAll(runs: seq<seq<Entry>>): seq<Entry> {
    if |runs| == 0 then [] else Merge2(MergeAll(runs[..|runs| - 1]), runs[|runs| - 1])
  }

  ghost predicate InRuns(runs: seq<seq<Entry>>, e: Entry) {
    exists i :: 0 <= i < |runs| && e in runs[i]
  }

  lemma {:induction false} MergeAllMembers(runs: seq<seq<Entry>>, e: Entry)
    ensures e in MergeAll(runs) <==> InRuns(runs, e)
  {
    if |runs| > 0 {
      var n := |runs| - 1;
      var front := runs[..n];
      MergeAllMembers(front, e);
      Merge2Members(MergeAll(front), runs[n], e);
      assert forall i :: 0 <= i < n ==> front[i] == runs[i];
      if InRuns(front, e) {
        var i :| 0 <= i < n && e in front[i];
        assert e in runs[i];
      }
    }
  }

  /** Sorted runs without a common key. */
  ghost predicate Mergeable(runs: seq<seq<Entry>>) {
    && (forall i :: 0 <= i < |runs| ==> Sorted(runs[i]))
    && (forall i, j :: 0 <= i < j < |runs| ==> DistinctKeys(runs[i], runs[j]))
  }

  lemma {:induction false} MergeAllSorted(runs: seq<seq<Entry>>)
    requires Mergeable(runs)
    ensures Sorted(MergeAll(runs))
  {
    if |runs| > 0 {
      var n := |runs| - 1;
      var front := runs[..n];
      MergeAllSorted(front);
      forall x, y | x in MergeAll(front) && y in runs[n] ensures x.ikey != y.ikey {
        MergeAllMembers(front, x);
        var i :| 0 <= i < n && x in front[i];
        assert DistinctKeys(runs[i], runs[n]);
      }
      Merge2Sorted(MergeAll(front), runs[n]);
    }
  }

  lemma {:induction false} LastIsGreatest(a: seq<Entry>, e: Entry)
    requires Sorted(a) && e in a
    ensures var n := |a| - 1; (e == a[n] && e !in a[..n]) || (Less(e.ikey, a[n].ikey) && e in a[..n])
  {
    var n := |a| - 1;
    var i :| 0 <= i < |a| && a[i] == e;
    if i < n { assert a[..n][i] == e; }
  }

  lemma {:induction false} HasEntry(es: seq<Entry>)
    requires |es| > 0
    ensures exists e :: e in es
  {
    assert es[0] in es;
  }

  /** A sorted run is determined by its entries. */
  lemma {:induction false} SortedRunsEqual(a: seq<Entry>, b: seq<Entry>)
    requires Sorted(a) && Sorted(b) && forall e :: e in a <==> e in b
    ensures a == b
    decreases |a|
  {
    if a == [] {
      if b != [] { HasEntry(b); }
    } else {
      var x := a[|a| - 1];
      assert x in b;
      var y := b[|b| - 1];
      assert y in a;
      LastIsGreatest(b, x);
      LastIsGreatest(a, y);
      var a', b' := a[..|a| - 1], b[..|b| - 1];
      assert a == a' + [x] && b == b' + [y];
      forall e ensures e in a' <==> e in b' {
        if e in a { LastIsGreatest(a, e); LastIsGreatest(b, e); }
      }
      SortedRunsEqual(a', b');
    }
  }

  // ----- cuts -----

  /** A place between entries: everything before a key, or up to and with it. */
  datatype Cut = Bottom | Before(key: InternalKey) | UpTo(key: InternalKey) | Top

  predicate Below(k: InternalKey, cut: Cut) {
    match cut
    case Bottom => false
    case Before(t) => Less(k, t)
    case UpTo(t) => !Less(t, k)
    case Top => true
  }

  /** How many entries of a sorted run lie below the cut. */
  function CutIndex(es: seq<Entry>, cut: Cut): (r: nat)
    ensures r <= |es|
    ensures r < |es| ==> !Below(es[r].ikey, cut)
    ensures forall i :: 0 <= i < r ==> Below(es[i].ikey, cut)
  {
    if |es| == 0 || !Below(es[0].ikey, cut) then 0
    else
      var r := CutIndex(es[1..], cut);
      assert forall i :: 0 < i < r + 1 ==> es[i] == es[1..][i - 1];
      r + 1
  }

  lemma {:induction false} CutIndexIs(es: seq<Entry>, cut: Cut, n: nat)
    requires Sorted(es) && n <= |es|
    requires 0 < n ==> Below(es[n - 1].ikey, cut)
    requires n < |es| ==> !Below(es[n].ikey, cut)
    ensures CutIndex(es, cut) == n
  {
    var r := CutIndex(es, cut);
  }

  lemma {:induction false} AboveCut(es: seq<Entry>, cut: Cut, i: nat)
    requires Sorted(es) && i < |es|
    ensures CutIndex(es, cut) <= i <==> !Below(es[i].ikey, cut)
  {
    var r := CutIndex(es, cut);
    assert r < i ==> Less(es[r].ikey, es[i].ikey);
  }
}
