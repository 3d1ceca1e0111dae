/** DBIter (db/db_iter.cc): the user's iterator over a snapshot. */
module DbIter {
  import opened InternalKeys
  import opened FlatHistory
  import opened Versions

  datatype Direction = Forward | Reverse

  predicate Visible(es: seq<Entry>, s: nat, i: nat)
    requires i < |es|
  {
    es[i].ikey.sequence <= s
  }

  /** Entry `i` is what snapshot `s` shows of its user key: a value, and the
      first visible entry of the key. */
  ghost predicate Shown(es: seq<Entry>, s: nat, i: nat)
    requires i < |es|
  {
    && Visible(es, s, i) && es[i].ikey.kind.TypeValue?
    && forall j :: 0 <= j < i && es[j].ikey.user == es[i].ikey.user ==> !Visible(es, s, j)
  }

  ghost predicate NoneShown(es: seq<Entry>, s: nat, from: nat, to: nat)
    requires to <= |es|
  {
    forall i :: from <= i < to ==> !Shown(es, s, i)
  }

  lemma {:induction false} KeysAscend(es: seq<Entry>, i: nat, j: nat)
    requires Sorted(es) && i <= j < |es|
    ensures es[i].ikey.user <= es[j].ikey.user
  {
    assert i < j ==> Less(es[i].ikey, es[j].ikey);
  }

  /** The position before `p`; `|es|` stands for an exhausted iterator. */
  function StepBack(es: seq<Entry>, p: nat): nat {
    if p == 0 then |es| else p - 1
  }

  /** How many entries an iterator at `p` has at or before it. */
  function Upto(es: seq<Entry>, p: nat): nat {
    if p >= |es| then 0 else p + 1
  }

  class DBIter {
    const entries: seq<Entry>   // what iter_ iterates over
    const sequence: nat
    var iter: nat               // iter_; |entries| when not valid
    var savedKey: UserKey
    var savedValue: Value
    var direction: Direction
    var valid: bool
    /** The entry the iterator yields, when valid. */
    ghost var at: nat

    ghost predicate Valid()
      reads this
    {
      && Sorted(entries) && iter <= |entries|
      && (valid ==> at < |entries| && Shown(entries, sequence, at))
      && (valid && direction.Forward? ==> iter == at)
      && (valid && direction.Reverse? ==> Behind(at) && savedKey == entries[at].ikey.user && savedValue == entries[at].value)
    }

    /** In reverse, iter_ stands before `v`'s key, with nothing visible between. */
    ghost predicate Behind(v: nat)
      requires v < |entries|
      reads this
    {
      && (iter < |entries| ==> iter < v && entries[iter].ikey.user < entries[v].ikey.user)
      && forall j :: Upto(entries, iter) <= j < v ==> !Visible(entries, sequence, j)
    }

    constructor (entries: seq<Entry>, sequence: nat)
      requires Sorted(entries)
      ensures Valid() && !valid && this.entries == entries && this.sequence == sequence
    {
      this.entries, this.sequence := entries, sequence;
      iter, savedKey, savedValue, direction, valid, at := |entries|, 0.0, "", Forward, false, 0;
    }

    method Key() returns (k: UserKey)
      requires Valid() && valid
      ensures k == entries[at].ikey.user
    {
      k := if direction.Forward? then entries[iter].ikey.user else savedKey;
    }

    method CurrentValue() returns (v: Value)
      requires Valid() && valid
      ensures v == entries[at].value
    {
      v := if direction.Forward? then entries[iter].value else savedValue;
    }

    // ----- forward -----

    /** The scan may start at `p`: no key has a visible entry on both sides of `p`
        unless it is being skipped, and skipping hides nothing from `from` on. */
    ghost predicate MaySkip(p: nat, from: nat, skipping: bool, skip: UserKey)
      requires p <= |entries|
    {
      && (forall j :: 0 <= j < p && Visible(entries, sequence, j) ==>
            (skipping && entries[j].ikey.user <= skip) || (p < |entries| ==> entries[j].ikey.user < entries[p].ikey.user))
      && (forall j :: p <= j < from && j < |entries| && Visible(entries, sequence, j) ==>
            skipping && entries[j].ikey.user <= skip && entries[j].ikey.kind.TypeValue?)
      && (skipping ==> forall j :: p <= j < |entries| && from <= j && entries[j].ikey.user <= skip ==> !Shown(entries, sequence, j))
    }

    /** FindNextUserEntry: the first entry shown at or after `from`. */
    method FindNextUserEntry(skipping: bool, ghost from: nat)
      requires Sorted(entries) && iter < |entries| && from <= |entries| && direction.Forward?
      requires MaySkip(iter, from, skipping, savedKey) && NoneShown(entries, sequence, from, iter)
      modifies this`iter, this`savedKey, this`valid, this`at
      ensures Valid()
      ensures valid ==> at >= from && NoneShown(entries, sequence, from, at)
      ensures !valid ==> NoneShown(entries, sequence, from, |entries|)
    {
      hide MaySkip, Shown;
      var skip := skipping;
      while iter < |entries|
        invariant iter <= |entries|
        invariant MaySkip(iter, from, skip, savedKey) && NoneShown(entries, sequence, from, iter)
        decreases |entries| - iter
      {
        var e := entries[iter];
        if e.ikey.sequence <= sequence {
          match e.ikey.kind {
            case TypeDeletion =>
              DeletionHides(iter, from, skip, savedKey);
              savedKey := e.ikey.user;
              skip := true;
            case TypeValue =>
              if skip && e.ikey.user <= savedKey {
                HiddenByKey(iter, from, savedKey);
              } else {
                ValueIsShown(iter, from, skip, savedKey);
                valid := true;
                at := iter;
                return;
              }
          }
        } else {
          InvisibleSkipped(iter, from, skip, savedKey);
        }
        iter := iter + 1;
      }
      valid := false;
    }

    lemma {:induction false} DeletionHides(p: nat, from: nat, skipping: bool, skip: UserKey)
      requires Sorted(entries) && p < |entries| && MaySkip(p, from, skipping, skip)
      requires Visible(entries, sequence, p) && entries[p].ikey.kind.TypeDeletion?
      ensures MaySkip(p + 1, from, true, entries[p].ikey.user) && !Shown(entries, sequence, p)
    {
      forall j | 0 <= j < |entries| ensures if j <= p then entries[j].ikey.user <= entries[p].ikey.user else entries[p].ikey.user <= entries[j].ikey.user {
        if j <= p { KeysAscend(entries, j, p); } else { KeysAscend(entries, p, j); }
      }
    }

    lemma {:induction false} HiddenByKey(p: nat, from: nat, skip: UserKey)
      requires Sorted(entries) && p < |entries| && MaySkip(p, from, true, skip) && entries[p].ikey.user <= skip
      ensures MaySkip(p + 1, from, true, skip) && (from <= p ==> !Shown(entries, sequence, p))
    {
      if p + 1 < |entries| { KeysAscend(entries, p, p + 1); }
    }

    lemma {:induction false} ValueIsShown(p: nat, from: nat, skipping: bool, skip: UserKey)
      requires Sorted(entries) && p < |entries| && MaySkip(p, from, skipping, skip)
      requires Visible(entries, sequence, p) && entries[p].ikey.kind.TypeValue?
      requires !(skipping && entries[p].ikey.user <= skip)
      ensures Shown(entries, sequence, p) && from <= p
    {
    }

    lemma {:induction false} InvisibleSkipped(p: nat, from: nat, skipping: bool, skip: UserKey)
      requires Sorted(entries) && p < |entries| && MaySkip(p, from, skipping, skip)
      requires !Visible(entries, sequence, p)
      ensures MaySkip(p + 1, from, skipping, skip) && !Shown(entries, sequence, p)
    {
      if p + 1 < |entries| { KeysAscend(entries, p, p + 1); }
    }

    /** Next */
    method Next()
      requires Valid() && valid
      modifies this
      ensures Valid()
      ensures valid ==> at > old(at) && NoneShown(entries, sequence, old(at) + 1, at)
      ensures !valid ==> NoneShown(entries, sequence, old(at) + 1, |entries|)
    {
      ghost var was := at;
      if direction.Reverse? {
        direction := Forward;
        if iter >= |entries| {
          iter := 0;
        } else {
          iter := iter + 1;
        }
        AfterBehind(was);
        assert iter < |entries|;  // the yielded entry lies ahead
      } else {
        savedKey := entries[iter].ikey.user;
        SkipOwnKey(was);
      }
      FindNextUserEntry(true, was + 1);
    }

    lemma {:induction false} SkipOwnKey(p: nat)
      requires Sorted(entries) && p < |entries| && Shown(entries, sequence, p)
      ensures MaySkip(p, p + 1, true, entries[p].ikey.user)
    {
      forall j | 0 <= j < |entries| ensures if j <= p then entries[j].ikey.user <= entries[p].ikey.user else entries[p].ikey.user <= entries[j].ikey.user {
        if j <= p { KeysAscend(entries, j, p); } else { KeysAscend(entries, p, j); }
      }
    }

    /** Stepping forward from a reverse position skips exactly the yielded key. */
    lemma {:induction false} AfterBehind(v: nat)
      requires Sorted(entries) && v < |entries| && Shown(entries, sequence, v) && iter <= v
      requires forall j :: iter <= j < v ==> !Visible(entries, sequence, j)
      ensures MaySkip(iter, v + 1, true, entries[v].ikey.user)
    {
      forall j | 0 <= j < |entries| ensures if j <= v then entries[j].ikey.user <= entries[v].ikey.user else entries[v].ikey.user <= entries[j].ikey.user {
        if j <= v { KeysAscend(entries, j, v); } else { KeysAscend(entries, v, j); }
      }
    }

    /** Seek: the first entry shown whose key is at or after the target. */
    method Seek(target: UserKey)
      requires Valid()
      modifies this
      ensures Valid()
      ensures valid ==> entries[at].ikey.user >= target &&
                        forall i :: 0 <= i < at && entries[i].ikey.user >= target ==> !Shown(entries, sequence, i)
      ensures !valid ==> forall i :: 0 <= i < |entries| && entries[i].ikey.user >= target ==> !Shown(entries, sequence, i)
    {
      direction := Forward;
      savedValue := "";
      iter := SeekIndex(entries, LookupKey(target, sequence));
      ghost var start := iter;
      SeekSkipsInvisible(target);
      if iter < |entries| {
        FindNextUserEntry(false, start);
      } else {
        valid := false;
      }
      if valid { KeysAscend(entries, start, at); }
    }

    /** Everything before the sought position has a smaller key or is not visible. */
    lemma {:induction false} SeekSkipsInvisible(target: UserKey)
      requires Sorted(entries)
      ensures var p := SeekIndex(entries, LookupKey(target, sequence));
              && MaySkip(p, p, false, savedKey)
              && (forall i :: 0 <= i < p && entries[i].ikey.user >= target ==> !Visible(entries, sequence, i))
              && (p < |entries| ==> entries[p].ikey.user >= target)
    {
    }

    method SeekToFirst()
      requires Valid()
      modifies this
      ensures Valid()
      ensures valid ==> NoneShown(entries, sequence, 0, at)
      ensures !valid ==> NoneShown(entries, sequence, 0, |entries|)
    {
      direction := Forward;
      savedValue := "";
      iter := 0;
      if iter < |entries| {
        FindNextUserEntry(false, 0);
      } else {
        valid := false;
      }
    }

    // ----- reverse -----

    /** What FindPrevUserEntry has seen when iter_ stands at `p` and it started
        with nothing visible from `p`'s start up to `from`: `kept` is the visible
        entry seen last. */
    ghost predicate Seen(p: nat, from: nat, hasValue: bool, kept: nat)
      requires p <= from <= |entries|
    {
      if hasValue then
        && p <= kept < from && Visible(entries, sequence, kept) && entries[kept].ikey.kind.TypeValue?
        && (forall j :: p <= j < kept ==> !Visible(entries, sequence, j))
        && NoneShown(entries, sequence, kept + 1, from)
      else
        && NoneShown(entries, sequence, p, from)
    }

    /** FindPrevUserEntry: the last entry shown before `from`. */
    method FindPrevUserEntry(ghost from: nat)
      requires Sorted(entries) && iter <= |entries| && direction.Reverse?
      requires Upto(entries, iter) <= from <= |entries| && NoneShown(entries, sequence, Upto(entries, iter), from)
      modifies this
      ensures Valid()
      ensures valid ==> at < from && NoneShown(entries, sequence, at + 1, from)
      ensures !valid ==> NoneShown(entries, sequence, 0, from)
    {
      hide Seen, Shown, NoneShown, Sorted, Behind, StepBack, Upto;
      var valueType := TypeDeletion;
      ghost var kept: nat := 0;
      NothingSeen(iter, from);
      while iter < |entries|
        invariant iter <= |entries| && Upto(entries, iter) <= from && direction.Reverse?
        invariant Seen(Upto(entries, iter), from, valueType.TypeValue?, kept)
        invariant valueType.TypeValue? ==> kept < |entries| && savedKey == entries[kept].ikey.user && savedValue == entries[kept].value
        decreases Upto(entries, iter)
      {
        SteppingBack(iter, from);
        var e := entries[iter];
        if e.ikey.sequence <= sequence {
          if valueType.TypeValue? && e.ikey.user < savedKey {
            break;
          }
          SeesOne(iter, from, valueType.TypeValue?, kept);
          valueType := e.ikey.kind;
          if valueType.TypeDeletion? {
            savedKey := 0.0;
            savedValue := "";
          } else {
            savedKey := e.ikey.user;
            savedValue := e.value;
            kept := iter;
          }
        } else {
          SeesNothing(iter, from, valueType.TypeValue?, kept);
        }
        iter := StepBack(entries, iter);
      }
      if valueType.TypeDeletion? {
        AllSeen(iter, from, kept);
        valid := false;
        savedKey := 0.0;
        savedValue := "";
        direction := Forward;
      } else {
        valid := true;
        at := kept;
        KeptIsShown(from, kept);
      }
    }

    lemma {:induction false} SteppingBack(p: nat, from: nat)
      requires p < |entries| && Upto(entries, p) <= from
      ensures Upto(entries, p) == p + 1 && Upto(entries, StepBack(entries, p)) == p && StepBack(entries, p) <= |entries|
    {
    }

    lemma {:induction false} NothingSeen(p: nat, from: nat)
      requires Upto(entries, p) <= from <= |entries| && NoneShown(entries, sequence, Upto(entries, p), from)
      ensures Seen(Upto(entries, p), from, false, 0)
    {
    }

    /** A visible entry of the kept key, or with nothing kept: the older ones of
        its key are not shown. */
    lemma {:induction false} SeesOne(p: nat, from: nat, hasValue: bool, kept: nat)
      requires Sorted(entries) && p < from <= |entries| && Seen(p + 1, from, hasValue, kept) && Visible(entries, sequence, p)
      requires hasValue ==> kept < |entries| && entries[p].ikey.user >= entries[kept].ikey.user
      ensures var value := entries[p].ikey.kind.TypeValue?; Seen(p, from, value, if value then p else kept)
    {
      if hasValue { KeysAscend(entries, p, kept); }
    }

    lemma {:induction false} SeesNothing(p: nat, from: nat, hasValue: bool, kept: nat)
      requires p < from <= |entries| && Seen(p + 1, from, hasValue, kept) && !Visible(entries, sequence, p)
      ensures Seen(p, from, hasValue, kept)
    {
    }

    lemma {:induction false} AllSeen(p: nat, from: nat, kept: nat)
      requires |entries| <= p && from <= |entries| && Seen(Upto(entries, p), from, false, kept)
      ensures NoneShown(entries, sequence, 0, from)
    {
    }

    lemma {:induction false} KeptIsShown(from: nat, kept: nat)
      requires Sorted(entries) && iter <= |entries| && Upto(entries, iter) <= from <= |entries|
      requires Seen(Upto(entries, iter), from, true, kept)
      requires iter < |entries| ==> kept < |entries| && entries[iter].ikey.user < entries[kept].ikey.user
      ensures kept < from && Shown(entries, sequence, kept) && NoneShown(entries, sequence, kept + 1, from) && Behind(kept)
    {
      hide Sorted;
      forall j | 0 <= j < kept && entries[j].ikey.user == entries[kept].ikey.user ensures !Visible(entries, sequence, j) {
        if iter < |entries| && j <= iter { KeysAscend(entries, j, iter); }
      }
    }

    /** Prev */
    method Prev()
      requires Valid() && valid
      modifies this
      ensures Valid()
      ensures valid ==> at < old(at) && NoneShown(entries, sequence, at + 1, old(at))
      ensures !valid ==> NoneShown(entries, sequence, 0, old(at))
    {
      ghost var was := at;
      if direction.Forward? {
        savedKey := entries[iter].ikey.user;
        while true
          invariant iter <= was && forall j :: iter <= j < was ==> entries[j].ikey.user == savedKey
          invariant savedKey == entries[was].ikey.user
          decreases iter
        {
          iter := StepBack(entries, iter);
          if iter >= |entries| {
            valid := false;
            savedKey := 0.0;
            savedValue := "";
            return;
          }
          if entries[iter].ikey.user < savedKey {
            break;
          }
          KeysAscend(entries, iter, was);
        }
        direction := Reverse;
      }
      FindPrevUserEntry(was);
    }

    method SeekToLast()
      requires Valid()
      modifies this
      ensures Valid()
      ensures valid ==> NoneShown(entries, sequence, at + 1, |entries|)
      ensures !valid ==> NoneShown(entries, sequence, 0, |entries|)
    {
      direction := Reverse;
      savedValue := "";
      iter := StepBack(entries, |entries|);
      FindPrevUserEntry(|entries|);
    }
  }

  // ----- what the positions mean for user keys -----

  /** An entry that is shown is the view of its key. */
  lemma {:induction false} ShownIsView(es: seq<Entry>, s: nat, i: nat)
    requires Sorted(es) && UniqueSeqs(RunEntries(es)) && i < |es| && Shown(es, s, i)
    ensures View(RunEntries(es), es[i].ikey.user, s) == Some(es[i].value)
  {
    var e := es[i];
    forall x | x in es && x.ikey.user == e.ikey.user && x.ikey.sequence <= s ensures x.ikey.sequence <= e.ikey.sequence {
      var j :| 0 <= j < |es| && es[j] == x;
      assert i < j ==> Less(e.ikey, x.ikey);
    }
    assert NewestAt(RunEntries(es), e.ikey.user, s, e);
    ViewOfNewest(RunEntries(es), e.ikey.user, s, e);
  }

  /** Every key with a view has an entry that is shown. */
  lemma {:induction false} ViewIsShown(es: seq<Entry>, s: nat, k: UserKey) returns (i: nat)
    requires Sorted(es) && UniqueSeqs(RunEntries(es)) && View(RunEntries(es), k, s).Some?
    ensures i < |es| && Shown(es, s, i) && es[i].ikey.user == k
  {
    var e :| NewestAt(RunEntries(es), k, s, e) && e.ikey.kind.TypeValue?;
    i :| 0 <= i < |es| && es[i] == e;
    forall j | 0 <= j < i && es[j].ikey.user == k ensures !Visible(es, s, j) {
      assert Less(es[j].ikey, e.ikey);
      assert es[j] in RunEntries(es);
    }
  }

  /** Between two neighbouring positions of the iterator no key is present: Next
      and Prev move to the neighbouring key of the snapshot. */
  lemma {:induction false} NeighbouringKeys(es: seq<Entry>, s: nat, i: nat, j: nat)
    requires Sorted(es) && UniqueSeqs(RunEntries(es))
    requires i < j < |es| && Shown(es, s, i) && Shown(es, s, j) && NoneShown(es, s, i + 1, j)
    ensures es[i].ikey.user < es[j].ikey.user
    ensures forall k :: es[i].ikey.user < k < es[j].ikey.user ==> View(RunEntries(es), k, s) == None
  {
    KeysAscend(es, i, j);
    forall k | es[i].ikey.user < k < es[j].ikey.user ensures View(RunEntries(es), k, s) == None {
      if View(RunEntries(es), k, s).Some? {
        var m := ViewIsShown(es, s, k);
        if m <= i { KeysAscend(es, m, i); }
        if j <= m { KeysAscend(es, j, m); }
      }
    }
  }

  /** With nothing shown after (or before) a position, no larger (smaller) key is present. */
  lemma {:induction false} OutermostKeys(es: seq<Entry>, s: nat, i: nat)
    requires Sorted(es) && UniqueSeqs(RunEntries(es)) && i < |es|
    ensures NoneShown(es, s, i + 1, |es|) ==> forall k :: k > es[i].ikey.user ==> View(RunEntries(es), k, s) == None
    ensures NoneShown(es, s, 0, i) ==> forall k :: k < es[i].ikey.user ==> View(RunEntries(es), k, s) == None
  {
    forall k | View(RunEntries(es), k, s).Some?
      ensures NoneShown(es, s, i + 1, |es|) ==> k <= es[i].ikey.user
      ensures NoneShown(es, s, 0, i) ==> k >= es[i].ikey.user
    {
      var m := ViewIsShown(es, s, k);
      if m <= i { KeysAscend(es, m, i); } else { KeysAscend(es, i, m); }
    }
  }

  /** Where nothing from `target` on is shown, no key from `target` on is present. */
  lemma {:induction false} NothingFrom(es: seq<Entry>, s: nat, target: UserKey, to: nat)
    requires Sorted(es) && UniqueSeqs(RunEntries(es)) && to <= |es|
    requires forall i :: 0 <= i < to && es[i].ikey.user >= target ==> !Shown(es, s, i)
    ensures forall k :: k >= target && (to < |es| ==> k < es[to].ikey.user) ==> View(RunEntries(es), k, s) == None
  {
    forall k | k >= target && (to < |es| ==> k < es[to].ikey.user) ensures View(RunEntries(es), k, s) == None {
      if View(RunEntries(es), k, s).Some? {
        var m := ViewIsShown(es, s, k);
        if to <= m { KeysAscend(es, to, m); }
      }
    }
  }
}
