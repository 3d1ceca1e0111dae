/** Internal keys and entries (db/dbformat.h, db/dbformat.cc).

    The engine only ever compares user keys, with a comparator supplied by its
    user.  They are modelled as `real`: every countable total order embeds into
    it, and being dense it lets no proof lean on a key having a successor. */
module InternalKeys {
  type UserKey = real
  type Value = string

  datatype Option<+T> = None | Some(value: T)

  datatype ValueType = TypeDeletion | TypeValue

  datatype InternalKey = InternalKey(user: UserKey, sequence: nat, kind: ValueType)

  datatype Entry = Entry(ikey: InternalKey, value: Value)

  /** kMaxSequenceNumber */
  const MAX_SEQUENCE: nat := 0xFF_FFFF_FFFF_FFFF

  /** PackSequenceAndType: the sequence above the eight bits of the type. */
  function Pack(sequence: nat, kind: ValueType): nat {
    sequence * 256 + if kind.TypeValue? then 1 else 0
  }

  /** InternalKeyComparator::Compare(a, b) < 0: ascending user key, then
      descending packed number. */
  predicate Less(a: InternalKey, b: InternalKey) {
    a.user < b.user || (a.user == b.user && Pack(a.sequence, a.kind) > Pack(b.sequence, b.kind))
  }

  predicate Sorted(es: seq<Entry>) {
    forall i, j :: 0 <= i < j < |es| ==> Less(es[i].ikey, es[j].ikey)
  }

  /** The key LookupKey builds: kValueTypeForSeek is the highest type, so it
      comes before every entry of `k` with sequence at most `s`. */
  function LookupKey(k: UserKey, s: nat): InternalKey {
    InternalKey(k, s, TypeValue)
  }

  /** Where an iterator over `es` stands after Seek(target). */
  function SeekIndex(es: seq<Entry>, target: InternalKey): (r: nat)
    ensures r <= |es|
    ensures forall i :: 0 <= i < r ==> Less(es[i].ikey, target)
    ensures r < |es| ==> !Less(es[r].ikey, target)
  {
    if |es| == 0 || !Less(es[0].ikey, target) then 0
    else
      var r := SeekIndex(es[1..], target);
      assert forall i :: 0 < i < r + 1 ==> es[i] == es[1..][i - 1];
      r + 1
  }

  /** MemTable::Add: insertion at the place the skip list gives the entry. */
  function InsertSorted(es: seq<Entry>, e: Entry): (r: seq<Entry>)
  {
    var i := SeekIndex(es, e.ikey);
    es[..i] + [e] + es[i..]
  }

  lemma {:induction false} LessTransitive(a: InternalKey, b: InternalKey, c: InternalKey)
    requires Less(a, b) && Less(b, c)
    ensures Less(a, c)
  {
  }

  lemma {:induction false} InsertSortedElements(es: seq<Entry>, e: Entry, x: Entry)
    ensures x in InsertSorted(es, e) <==> x in es || x == e
  {
    var i := SeekIndex(es, e.ikey);
    assert es == es[..i] + es[i..];
  }

  lemma {:induction false} InsertSortedOrdered(es: seq<Entry>, e: Entry)
    requires Sorted(es)
    requires forall x <- es :: x.ikey.sequence != e.ikey.sequence
    ensures Sorted(InsertSorted(es, e))
  {
    var i := SeekIndex(es, e.ikey);
    var r := InsertSorted(es, e);
    assert forall a :: 0 <= a < i ==> r[a] == es[a];
    assert r[i] == e;
    assert forall a :: i < a < |r| ==> r[a] == es[a - 1];
    forall b | i < b < |r| ensures Less(e.ikey, r[b].ikey) {
      assert es[i] in es;
      assert Less(e.ikey, es[i].ikey);
      if i < b - 1 {
        LessTransitive(e.ikey, es[i].ikey, es[b - 1].ikey);
      }
    }
    forall a, b | 0 <= a < b < |r| ensures Less(r[a].ikey, r[b].ikey) {
      if a < i && b > i {
        assert Less(es[a].ikey, es[b - 1].ikey);
      }
    }
  }

  /** `e` is the newest entry of user key `k` in `S` at or below sequence `s`. */
  ghost predicate NewestAt(S: iset<Entry>, k: UserKey, s: nat, e: Entry) {
    e in S && e.ikey.user == k && e.ikey.sequence <= s &&
    forall x :: x in S && x.ikey.user == k && x.ikey.sequence <= s ==> x.ikey.sequence <= e.ikey.sequence
  }

  /** What the entries of `S` show of user key `k` at snapshot `s`: the value of
      its newest entry, and nothing when that entry is a deletion marker. */
  ghost function View(S: iset<Entry>, k: UserKey, s: nat): Option<Value> {
    if exists e :: NewestAt(S, k, s, e) && e.ikey.kind.TypeValue? then
      var e :| NewestAt(S, k, s, e) && e.ikey.kind.TypeValue?;
      Some(e.value)
    else None
  }

  /** Sequence numbers identify entries. */
  ghost predicate UniqueSeqs(S: iset<Entry>) {
    forall x, y :: x in S && y in S && x.ikey.sequence == y.ikey.sequence ==> x == y
  }

  lemma {:induction false} ViewOfNewest(S: iset<Entry>, k: UserKey, s: nat, e: Entry)
    requires UniqueSeqs(S) && NewestAt(S, k, s, e)
    ensures View(S, k, s) == if e.ikey.kind.TypeValue? then Some(e.value) else None
  {
    forall x | NewestAt(S, k, s, x) ensures x == e {
    }
  }

  lemma {:induction false} ViewOfNothing(S: iset<Entry>, k: UserKey, s: nat)
    requires forall x :: x in S && x.ikey.user == k ==> x.ikey.sequence > s
    ensures View(S, k, s) == None
  {
  }

  /** Either nothing of `k` is visible at `s`, or some entry is the newest. */
  lemma {:induction false} FindNewest(S: iset<Entry>, k: UserKey, s: nat) returns (r: Option<Entry>)
    ensures r.None? ==> forall x :: x in S && x.ikey.user == k ==> x.ikey.sequence > s
    ensures r.Some? ==> NewestAt(S, k, s, r.value)
    decreases s
  {
    if e :| e in S && e.ikey.user == k && e.ikey.sequence == s {
      return Some(e);
    } else if s == 0 {
      return None;
    } else {
      r := FindNewest(S, k, s - 1);
    }
  }

  /** What a reader concludes from one sorted run after seeking to the lookup key. */
  lemma {:induction false} SeekFindsNewest(es: seq<Entry>, k: UserKey, s: nat)
    requires Sorted(es)
    ensures var i := SeekIndex(es, LookupKey(k, s));
            if i < |es| && es[i].ikey.user == k
            then es[i].ikey.sequence <= s && forall x <- es :: x.ikey.user == k && x.ikey.sequence <= s ==> x.ikey.sequence <= es[i].ikey.sequence
            else forall x <- es :: x.ikey.user == k ==> x.ikey.sequence > s
  {
    var i := SeekIndex(es, LookupKey(k, s));
    forall x | x in es && x.ikey.user == k && x.ikey.sequence <= s
      ensures i < |es| && es[i].ikey.user == k && x.ikey.sequence <= es[i].ikey.sequence
    {
      var j :| 0 <= j < |es| && es[j] == x;
      assert !Less(x.ikey, LookupKey(k, s));
      assert i <= j;
      assert i < j ==> Less(es[i].ikey, es[j].ikey);
    }
  }
}
