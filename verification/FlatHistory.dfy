/** The specification of the store: the history of applied operations.

    DBImpl::Write numbers operations last_sequence+1, last_sequence+2, ..., so
    operation i of the history (from 0) carries sequence number i + 1, and the
    snapshot at sequence `s` is the history's first `s` operations. */
module FlatHistory {
  import opened InternalKeys

  datatype Op = Op(key: UserKey, kind: ValueType, value: Value)

  /** The plain map left by replaying the operations one after another. */
  function Replay(h: seq<Op>): map<UserKey, Value> {
    if |h| == 0 then map[]
    else
      var m, o := Replay(h[..|h| - 1]), h[|h| - 1];
      if o.kind.TypeValue? then m[o.key := o.value] else m - {o.key}
  }

  function Lookup(m: map<UserKey, Value>, k: UserKey): Option<Value> {
    if k in m then Some(m[k]) else None
  }

  function EntryAt(h: seq<Op>, i: nat): Entry
    requires i < |h|
  {
    Entry(InternalKey(h[i].key, i + 1, h[i].kind), h[i].value)
  }

  predicate Written(h: seq<Op>, e: Entry) {
    1 <= e.ikey.sequence <= |h| && e == EntryAt(h, e.ikey.sequence - 1)
  }

  ghost function Entries(h: seq<Op>): iset<Entry> {
    iset e | Written(h, e)
  }

  lemma {:induction false} EntriesUnique(h: seq<Op>)
    ensures UniqueSeqs(Entries(h))
  {
  }

  /** The flat history seen as entries shows at snapshot `s` exactly the map
      left by its first `s` operations. */
  lemma {:induction false} ViewIsReplay(h: seq<Op>, k: UserKey, s: nat)
    requires s <= |h|
    ensures View(Entries(h), k, s) == Lookup(Replay(h[..s]), k)
    decreases s
  {
    EntriesUnique(h);
    if s == 0 {
      ViewOfNothing(Entries(h), k, 0);
    } else {
      var p := h[..s];
      assert p[..s - 1] == h[..s - 1];
      var e := EntryAt(h, s - 1);
      if e.ikey.user == k {
        assert NewestAt(Entries(h), k, s, e);
        ViewOfNewest(Entries(h), k, s, e);
      } else {
        ViewIsReplay(h, k, s - 1);
        ViewSkips(Entries(h), k, s);
      }
    }
  }

  /** A snapshot step that brings no entry of `k` changes nothing about `k`. */
  lemma {:induction false} ViewSkips(S: iset<Entry>, k: UserKey, s: nat)
    requires s > 0 && UniqueSeqs(S)
    requires forall x :: x in S && x.ikey.user == k ==> x.ikey.sequence != s
    ensures View(S, k, s) == View(S, k, s - 1)
  {
    var r := FindNewest(S, k, s - 1);
    if r.Some? {
      assert NewestAt(S, k, s, r.value);
      ViewOfNewest(S, k, s, r.value);
      ViewOfNewest(S, k, s - 1, r.value);
    } else {
      ViewOfNothing(S, k, s - 1);
      ViewOfNothing(S, k, s);
    }
  }
}
