/** MergingIterator (table/merger.cc) over sorted children. */
module Merger {
  import opened InternalKeys
  import opened MergedRuns

  datatype Direction = Forward | Reverse

  /** Where a child stands after moving before the first entry: nowhere. */
  function StepBack(run: seq<Entry>, p: nat): nat {
    if p == 0 then |run| else p - 1
  }

  /** The children's positions just above a cut: each at its first entry not below it. */
  ghost predicate AtCut(runs: seq<seq<Entry>>, pos: seq<nat>, cut: Cut) {
    |pos| == |runs| && forall i :: 0 <= i < |runs| ==> pos[i] == CutIndex(runs[i], cut)
  }

  /** ... and just below it: each at its last entry below the cut. */
  ghost predicate BelowCut(runs: seq<seq<Entry>>, pos: seq<nat>, cut: Cut) {
    |pos| == |runs| && forall i :: 0 <= i < |runs| ==> pos[i] == StepBack(runs[i], CutIndex(runs[i], cut))
  }

  /** `c` is the valid child with the smallest key; -1 when no child is valid. */
  ghost predicate IsSmallest(runs: seq<seq<Entry>>, pos: seq<nat>, c: int) {
    && |pos| == |runs| && -1 <= c < |runs|
    && (c == -1 ==> forall i :: 0 <= i < |runs| ==> pos[i] >= |runs[i]|)
    && (c >= 0 ==> pos[c] < |runs[c]| &&
                   forall i :: 0 <= i < |runs| && pos[i] < |runs[i]| ==> !Less(runs[i][pos[i]].ikey, runs[c][pos[c]].ikey))
  }

  ghost predicate IsLargest(runs: seq<seq<Entry>>, pos: seq<nat>, c: int) {
    && |pos| == |runs| && -1 <= c < |runs|
    && (c == -1 ==> forall i :: 0 <= i < |runs| ==> pos[i] >= |runs[i]|)
    && (c >= 0 ==> pos[c] < |runs[c]| &&
                   forall i :: 0 <= i < |runs| && pos[i] < |runs[i]| ==> !Less(runs[c][pos[c]].ikey, runs[i][pos[i]].ikey))
  }

  lemma {:induction false} ChildOf(runs: seq<seq<Entry>>, j: nat) returns (i: nat, q: nat)
    requires j < |MergeAll(runs)|
    ensures i < |runs| && q < |runs[i]| && runs[i][q] == MergeAll(runs)[j]
  {
    var e := MergeAll(runs)[j];
    MergeAllMembers(runs, e);
    hide MergeAll;
    i :| 0 <= i < |runs| && e in runs[i];
    q :| 0 <= q < |runs[i]| && runs[i][q] == e;
  }

  lemma {:induction false} PlaceOf(runs: seq<seq<Entry>>, c: nat, p: nat) returns (i: nat)
    requires c < |runs| && p < |runs[c]|
    ensures i < |MergeAll(runs)| && MergeAll(runs)[i] == runs[c][p]
  {
    MergeAllMembers(runs, runs[c][p]);
    hide MergeAll;
    assert runs[c][p] in runs[c];
    i :| 0 <= i < |MergeAll(runs)| && MergeAll(runs)[i] == runs[c][p];
  }

  /** The first merged entry above a cut is a child's first entry above it, or
      comes after that. */
  lemma {:induction false} ChildAbove(runs: seq<seq<Entry>>, cut: Cut) returns (i: nat)
    requires Mergeable(runs) && CutIndex(MergeAll(runs), cut) < |MergeAll(runs)|
    ensures i < |runs| && CutIndex(runs[i], cut) < |runs[i]|
    ensures !Less(MergeAll(runs)[CutIndex(MergeAll(runs), cut)].ikey, runs[i][CutIndex(runs[i], cut)].ikey)
  {
    hide MergeAll, DistinctKeys, CutIndex;
    var q;
    i, q := ChildOf(runs, CutIndex(MergeAll(runs), cut));
    AboveCut(runs[i], cut, q);
  }

  lemma {:induction false} ChildBelow(runs: seq<seq<Entry>>, cut: Cut) returns (i: nat)
    requires Mergeable(runs) && 0 < CutIndex(MergeAll(runs), cut)
    ensures i < |runs| && 0 < CutIndex(runs[i], cut)
    ensures !Less(runs[i][CutIndex(runs[i], cut) - 1].ikey, MergeAll(runs)[CutIndex(MergeAll(runs), cut) - 1].ikey)
  {
    hide MergeAll, DistinctKeys, CutIndex;
    var q;
    i, q := ChildOf(runs, CutIndex(MergeAll(runs), cut) - 1);
    AboveCut(runs[i], cut, q);
  }

  /** The smallest child above a cut holds the first merged entry above it. */
  lemma {:induction false} SmallestAtCut(runs: seq<seq<Entry>>, pos: seq<nat>, cut: Cut, c: int)
    requires Mergeable(runs) && AtCut(runs, pos, cut) && IsSmallest(runs, pos, c)
    ensures var m := MergeAll(runs); var j := CutIndex(m, cut);
            if c == -1 then j == |m| else j < |m| && m[j] == runs[c][pos[c]]
  {
    hide Mergeable, MergeAll;
    var m := MergeAll(runs);
    var j := CutIndex(m, cut);
    if c == -1 {
      if j < |m| { var i := ChildAbove(runs, cut); }
    } else {
      InMerged(runs, c, pos[c], cut, j);
      var i := ChildAbove(runs, cut);
    }
  }

  /** An entry of a child at or above the cut is in the merged run at or above it. */
  lemma {:induction false} InMerged(runs: seq<seq<Entry>>, c: nat, p: nat, cut: Cut, j: nat)
    requires Mergeable(runs) && c < |runs| && p < |runs[c]| && j == CutIndex(MergeAll(runs), cut)
    requires !Below(runs[c][p].ikey, cut)
    ensures j < |MergeAll(runs)|
    ensures !Less(runs[c][p].ikey, MergeAll(runs)[j].ikey)
    ensures runs[c][p].ikey == MergeAll(runs)[j].ikey ==> runs[c][p] == MergeAll(runs)[j]
  {
    hide MergeAll, Mergeable, CutIndex;
    var m := MergeAll(runs);
    MergeAllSorted(runs);
    var i := PlaceOf(runs, c, p);
    AboveCut(m, cut, i);
    assert j < i ==> Less(m[j].ikey, m[i].ikey);
  }

  lemma {:induction false} InMergedBelow(runs: seq<seq<Entry>>, c: nat, p: nat, cut: Cut, j: nat)
    requires Mergeable(runs) && c < |runs| && p < |runs[c]| && j == CutIndex(MergeAll(runs), cut)
    requires Below(runs[c][p].ikey, cut)
    ensures 0 < j
    ensures !Less(MergeAll(runs)[j - 1].ikey, runs[c][p].ikey)
    ensures runs[c][p].ikey == MergeAll(runs)[j - 1].ikey ==> runs[c][p] == MergeAll(runs)[j - 1]
  {
    hide MergeAll, Mergeable, CutIndex;
    var m := MergeAll(runs);
    MergeAllSorted(runs);
    var i := PlaceOf(runs, c, p);
    AboveCut(m, cut, i);
    assert i < j - 1 ==> Less(m[i].ikey, m[j - 1].ikey);
  }

  /** The largest child below a cut holds the last merged entry below it. */
  lemma {:induction false} LargestBelowCut(runs: seq<seq<Entry>>, pos: seq<nat>, cut: Cut, c: int)
    requires Mergeable(runs) && BelowCut(runs, pos, cut) && IsLargest(runs, pos, c)
    ensures var m := MergeAll(runs); var j := CutIndex(m, cut);
            if c == -1 then j == 0 else 0 < j && m[j - 1] == runs[c][pos[c]]
  {
    hide Mergeable, MergeAll;
    var m := MergeAll(runs);
    var j := CutIndex(m, cut);
    if c == -1 {
      if 0 < j { var i := ChildBelow(runs, cut); }
    } else {
      InMergedBelow(runs, c, pos[c], cut, j);
      var i := ChildBelow(runs, cut);
    }
  }

  /** The child holding the first merged entry above a cut: the cut may as well
      be just before that entry. */
  lemma {:induction false} RecutBefore(runs: seq<seq<Entry>>, pos: seq<nat>, cut: Cut, c: nat)
    requires Mergeable(runs) && AtCut(runs, pos, cut) && IsSmallest(runs, pos, c)
    ensures AtCut(runs, pos, Before(runs[c][pos[c]].ikey))
  {
    hide MergeAll, DistinctKeys;
    var e := runs[c][pos[c]];
    forall i | 0 <= i < |runs| ensures pos[i] == CutIndex(runs[i], Before(e.ikey)) {
      if 0 < pos[i] {
        BelowIsLess(runs[i][pos[i] - 1].ikey, e.ikey, cut);
      }
      CutIndexIs(runs[i], Before(e.ikey), pos[i]);
    }
  }

  lemma {:induction false} BelowIsLess(a: InternalKey, b: InternalKey, cut: Cut)
    requires Below(a, cut) && !Below(b, cut)
    ensures Less(a, b)
  {
  }

  lemma {:induction false} RecutUpTo(runs: seq<seq<Entry>>, pos: seq<nat>, cut: Cut, c: nat)
    requires Mergeable(runs) && BelowCut(runs, pos, cut) && IsLargest(runs, pos, c)
    ensures BelowCut(runs, pos, UpTo(runs[c][pos[c]].ikey))
  {
    hide MergeAll, DistinctKeys;
    var e := runs[c][pos[c]];
    forall i | 0 <= i < |runs| ensures CutIndex(runs[i], cut) == CutIndex(runs[i], UpTo(e.ikey)) {
      var n := CutIndex(runs[i], cut);
      if n < |runs[i]| {
        BelowIsLess(e.ikey, runs[i][n].ikey, cut);
      }
      CutIndexIs(runs[i], UpTo(e.ikey), n);
    }
  }

  /** Moving a cut across one key moves only the child that holds the key. */
  lemma {:induction false} ChildSorted(runs: seq<seq<Entry>>, i: nat)
    requires Mergeable(runs) && i < |runs|
    ensures Sorted(runs[i])
  {
  }

  lemma {:induction false} CrossKey(runs: seq<seq<Entry>>, c: nat, p: nat, i: nat)
    requires Mergeable(runs) && c < |runs| && p < |runs[c]| && i < |runs|
    ensures i == c ==>
      CutIndex(runs[i], Before(runs[c][p].ikey)) == p && CutIndex(runs[i], UpTo(runs[c][p].ikey)) == p + 1
    ensures i != c ==> CutIndex(runs[i], Before(runs[c][p].ikey)) == CutIndex(runs[i], UpTo(runs[c][p].ikey))
  {
    var e := runs[c][p];
    if i == c {
      CutIndexIs(runs[i], Before(e.ikey), p);
      CutIndexIs(runs[i], UpTo(e.ikey), p + 1);
    } else {
      var n := CutIndex(runs[i], Before(e.ikey));
      if n < |runs[i]| {
        assert e in runs[c] && runs[i][n] in runs[i];
        assert DistinctKeys(runs[if i < c then i else c], runs[if i < c then c else i]);
      }
      CutIndexIs(runs[i], UpTo(e.ikey), n);
    }
  }

  lemma {:induction false} SkipEqual(es: seq<Entry>, key: InternalKey)
    requires Sorted(es)
    ensures var n := CutIndex(es, Before(key));
            CutIndex(es, UpTo(key)) == if n < |es| && es[n].ikey == key then n + 1 else n
  {
    var n := CutIndex(es, Before(key));
    CutIndexIs(es, UpTo(key), if n < |es| && es[n].ikey == key then n + 1 else n);
  }

  lemma {:induction false} CrossMerged(runs: seq<seq<Entry>>, at: nat)
    requires Mergeable(runs) && at < |MergeAll(runs)|
    ensures CutIndex(MergeAll(runs), Before(MergeAll(runs)[at].ikey)) == at
    ensures CutIndex(MergeAll(runs), UpTo(MergeAll(runs)[at].ikey)) == at + 1
  {
    MergeAllSorted(runs);
    CutIndexIs(MergeAll(runs), Before(MergeAll(runs)[at].ikey), at);
    CutIndexIs(MergeAll(runs), UpTo(MergeAll(runs)[at].ikey), at + 1);
  }

  lemma {:induction false} SeekIsCut(es: seq<Entry>, target: InternalKey)
    ensures SeekIndex(es, target) == CutIndex(es, Before(target))
  {
    if |es| > 0 { SeekIsCut(es[1..], target); }
  }

  class MergingIterator {
    const runs: seq<seq<Entry>>
    const pos: array<nat>
    var current: int
    var direction: Direction
    /** The cursor this iterator is: a position in the merged run. */
    ghost var at: nat

    /** Positions of all children agree with the cursor and the direction. */
    ghost predicate Valid()
      reads this, pos
    {
      var m := MergeAll(runs);
      && Mergeable(runs) && pos.Length == |runs| && at <= |m| && -1 <= current < |runs|
      && (current == -1 ==> at == |m|)
      && (current >= 0 ==> pos[current] < |runs[current]| && at < |m| && m[at] == runs[current][pos[current]])
      && (current >= 0 && direction.Forward? ==> AtCut(runs, pos[..], Before(m[at].ikey)))
      && (current >= 0 && direction.Reverse? ==> BelowCut(runs, pos[..], UpTo(m[at].ikey)))
    }

    constructor (runs: seq<seq<Entry>>)
      requires Mergeable(runs)
      ensures Valid() && fresh(pos) && this.runs == runs && at == |MergeAll(runs)|
    {
      this.runs := runs;
      pos := new nat[|runs|](i requires 0 <= i < |runs| => |runs[i]|);
      current, direction := -1, Forward;
      at := |MergeAll(runs)|;
    }

    method FindSmallest()
      requires Mergeable(runs) && pos.Length == |runs|
      modifies this`current
      ensures IsSmallest(runs, pos[..], current)
    {
      var smallest := -1;
      for i := 0 to |runs|
        invariant -1 <= smallest < i
        invariant smallest == -1 ==> forall j :: 0 <= j < i ==> pos[j] >= |runs[j]|
        invariant smallest >= 0 ==> pos[smallest] < |runs[smallest]| && forall j :: 0 <= j < i && pos[j] < |runs[j]| ==>
                    !Less(runs[j][pos[j]].ikey, runs[smallest][pos[smallest]].ikey)
      {
        if pos[i] < |runs[i]| {
          if smallest == -1 {
            smallest := i;
          } else if Less(runs[i][pos[i]].ikey, runs[smallest][pos[smallest]].ikey) {
            smallest := i;
          }
        }
      }
      current := smallest;
    }

    method FindLargest()
      requires Mergeable(runs) && pos.Length == |runs|
      modifies this`current
      ensures IsLargest(runs, pos[..], current)
    {
      var largest := -1;
      for i := |runs| downto 0
        invariant largest == -1 || i <= largest < |runs|
        invariant largest == -1 ==> forall j :: i <= j < |runs| ==> pos[j] >= |runs[j]|
        invariant largest >= 0 ==> pos[largest] < |runs[largest]| && forall j :: i <= j < |runs| && pos[j] < |runs[j]| ==>
                    !Less(runs[largest][pos[largest]].ikey, runs[j][pos[j]].ikey)
      {
        if pos[i] < |runs[i]| {
          if largest == -1 {
            largest := i;
          } else if Less(runs[largest][pos[largest]].ikey, runs[i][pos[i]].ikey) {
            largest := i;
          }
        }
      }
      current := largest;
    }

    /** After placing the children just above a cut. */
    method SettleForward(ghost cut: Cut)
      requires Mergeable(runs) && pos.Length == |runs| && AtCut(runs, pos[..], cut)
      modifies this
      ensures Valid() && at == CutIndex(MergeAll(runs), cut) && direction.Forward?
    {
      hide MergeAll, Mergeable;
      FindSmallest();
      direction := Forward;
      at := CutIndex(MergeAll(runs), cut);
      SmallestAtCut(runs, pos[..], cut, current);
      if current >= 0 { RecutBefore(runs, pos[..], cut, current); }
    }

    /** After placing the children just below a cut. */
    method SettleReverse(ghost cut: Cut)
      requires Mergeable(runs) && pos.Length == |runs| && BelowCut(runs, pos[..], cut)
      modifies this
      ensures Valid() && at == StepBack(MergeAll(runs), CutIndex(MergeAll(runs), cut)) && direction.Reverse?
    {
      hide MergeAll, Mergeable;
      FindLargest();
      direction := Reverse;
      at := StepBack(MergeAll(runs), CutIndex(MergeAll(runs), cut));
      LargestBelowCut(runs, pos[..], cut, current);
      if current >= 0 { RecutUpTo(runs, pos[..], cut, current); }
    }

    lemma {:induction false} InRange()
      requires Valid()
      ensures at <= |MergeAll(runs)| && (current >= 0 <==> at < |MergeAll(runs)|)
    {
    }

    method Current() returns (e: Entry)
      requires Valid() && current >= 0
      ensures e == MergeAll(runs)[at]
    {
      e := runs[current][pos[current]];
    }

    method SeekToFirst()
      requires Valid()
      modifies this, pos
      ensures Valid() && at == 0
    {
      for i := 0 to pos.Length
        invariant forall j :: 0 <= j < i ==> pos[j] == 0
      {
        pos[i] := 0;
      }
      SettleForward(Bottom);
    }

    method SeekToLast()
      requires Valid()
      modifies this, pos
      ensures Valid() && at == StepBack(MergeAll(runs), |MergeAll(runs)|)
    {
      hide MergeAll, Mergeable;
      for i := 0 to pos.Length
        invariant forall j :: 0 <= j < i ==> pos[j] == StepBack(runs[j], |runs[j]|)
      {
        pos[i] := if |runs[i]| == 0 then 0 else |runs[i]| - 1;
      }
      SettleReverse(Top);
    }

    method Seek(target: InternalKey)
      requires Valid()
      modifies this, pos
      ensures Valid() && at == SeekIndex(MergeAll(runs), target)
    {
      hide MergeAll;
      for i := 0 to pos.Length
        invariant forall j :: 0 <= j < i ==> pos[j] == CutIndex(runs[j], Before(target))
      {
        pos[i] := SeekIndex(runs[i], target);
        SeekIsCut(runs[i], target);
      }
      SettleForward(Before(target));
      SeekIsCut(MergeAll(runs), target);
    }

    /** Next: after a reverse move the other children are first sought past the
        current key. */
    method Next()
      requires Valid() && current >= 0
      modifies this, pos
      ensures Valid() && at == old(at) + 1
    {
      ghost var e := MergeAll(runs)[at];
      CrossMerged(runs, at);
      RepositionForward();
      pos[current] := pos[current] + 1;
      SettleForward(UpTo(e.ikey));
    }

    method RepositionForward()
      requires Valid() && current >= 0
      modifies pos
      ensures pos[current] == old(pos[current])
      ensures AtCut(runs, pos[..][current := pos[current] + 1], UpTo(MergeAll(runs)[at].ikey))
    {
      hide MergeAll, CutIndex, Mergeable, SeekIndex;
      var key := runs[current][pos[current]].ikey;
      ghost var p := pos[current];
      if !direction.Forward? {
        for i := 0 to |runs|
          invariant pos[current] == p
          invariant forall j :: 0 <= j < i && j != current ==> pos[j] == CutIndex(runs[j], UpTo(key))
        {
          if i != current {
            pos[i] := SeekIndex(runs[i], key);
            SeekIsCut(runs[i], key);
            ChildSorted(runs, i);
            SkipEqual(runs[i], key);
            if pos[i] < |runs[i]| && runs[i][pos[i]].ikey == key {
              pos[i] := pos[i] + 1;
            }
          }
        }
      }
      forall i | 0 <= i < |runs| ensures pos[..][current := p + 1][i] == CutIndex(runs[i], UpTo(key)) {
        CrossKey(runs, current, p, i);
      }
    }

    /** Prev: after a forward move the other children are first placed before
        the current key. */
    method Prev()
      requires Valid() && current >= 0
      modifies this, pos
      ensures Valid() && at == StepBack(MergeAll(runs), old(at))
    {
      ghost var e := MergeAll(runs)[at];
      CrossMerged(runs, at);
      RepositionReverse();
      pos[current] := StepBack(runs[current], pos[current]);
      SettleReverse(Before(e.ikey));
    }

    method RepositionReverse()
      requires Valid() && current >= 0
      modifies pos
      ensures pos[current] == old(pos[current])
      ensures BelowCut(runs, pos[..][current := StepBack(runs[current], pos[current])], Before(MergeAll(runs)[at].ikey))
    {
      hide MergeAll, CutIndex;
      var key := runs[current][pos[current]].ikey;
      ghost var p := pos[current];
      if !direction.Reverse? {
        for i := 0 to |runs|
          invariant pos[current] == p
          invariant forall j :: 0 <= j < i && j != current ==>
            pos[j] == StepBack(runs[j], CutIndex(runs[j], Before(key)))
        {
          if i != current {
            pos[i] := SeekIndex(runs[i], key);
            SeekIsCut(runs[i], key);
            if pos[i] < |runs[i]| {
              pos[i] := StepBack(runs[i], pos[i]);
            } else {
              pos[i] := if |runs[i]| == 0 then 0 else |runs[i]| - 1;
            }
          }
        }
      }
      forall i | 0 <= i < |runs|
        ensures pos[..][current := StepBack(runs[current], p)][i] == StepBack(runs[i], CutIndex(runs[i], Before(key)))
      {
        CrossKey(runs, current, p, i);
      }
    }
  }
}
