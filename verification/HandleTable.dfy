/** HandleTable (util/cache.cc): a chained hash table of cache handles. */
module HandleTable {
  import opened InternalKeys
  import opened Coding

  type Key = seq<Byte>

  /** A handle in the table, with the immutable fields the table reads. */
  datatype Slot = Slot(handle: nat, key: Key, hash: Word)

  /** What identifies an entry: both are compared. */
  function Id(s: Slot): (Key, Word) { (s.key, s.hash) }

  predicate PowerOfTwo(n: nat) {
    n == 1 || (n > 1 && n % 2 == 0 && PowerOfTwo(n / 2))
  }

  /** hash & (length - 1), for a power of two */
  function Bucket(hash: Word, length: nat): (r: nat)
    ensures length > 0 ==> r < length
  {
    if length == 0 then 0 else hash % length
  }

  type Contents = map<(Key, Word), nat>

  /** Every entry is in its bucket and is an entry of `contents`. */
  ghost predicate InPlace(list: seq<seq<Slot>>, contents: Contents) {
    forall i, j {:trigger list[i][j]} :: 0 <= i < |list| && 0 <= j < |list[i]| ==>
      var s := list[i][j]; Bucket(s.hash, |list|) == i && Id(s) in contents && contents[Id(s)] == s.handle
  }

  ghost predicate NoTwins(list: seq<seq<Slot>>) {
    forall i, j, k :: 0 <= i < |list| && 0 <= j < k < |list[i]| ==> Id(list[i][j]) != Id(list[i][k])
  }

  ghost predicate Complete(list: seq<seq<Slot>>, contents: Contents)
    requires |list| > 0
  {
    forall k :: k in contents ==> Slot(contents[k], k.0, k.1) in list[Bucket(k.1, |list|)]
  }

  /** The chains hold exactly the entries of `contents`, each once, in its bucket. */
  ghost predicate Chains(list: seq<seq<Slot>>, contents: Contents) {
    |list| > 0 && InPlace(list, contents) && NoTwins(list) && Complete(list, contents)
  }

  class HandleTable {
    var length: nat
    var elems: nat
    var list: seq<seq<Slot>>
    /** The map this table is. */
    ghost var contents: Contents

    ghost predicate Valid()
      reads this
    {
      && |list| == length && PowerOfTwo(length) && Chains(list, contents) && elems == |contents|
      && elems <= length
    }

    constructor ()
      ensures Valid() && contents == map[]
    {
      length, elems, list, contents := 0, 0, [], map[];
      new;
      Resize();
    }

    /** FindPointer: the place in its chain of the matching entry, or the chain's
        end. */
    method FindPointer(key: Key, hash: Word) returns (b: nat, i: nat)
      requires |list| == length && Chains(list, contents)
      ensures b == Bucket(hash, length) && i <= |list[b]|
      ensures if i < |list[b]| then list[b][i] == Slot(list[b][i].handle, key, hash) && (key, hash) in contents && contents[(key, hash)] == list[b][i].handle
              else (key, hash) !in contents
    {
      b, i := Bucket(hash, length), 0;
      while i < |list[b]| && (list[b][i].hash != hash || key != list[b][i].key)
        invariant i <= |list[b]| && forall j :: 0 <= j < i ==> Id(list[b][j]) != (key, hash)
      {
        i := i + 1;
      }
      NotInChain(list, contents, key, hash, b, i);
    }

    method Lookup(key: Key, hash: Word) returns (r: Option<nat>)
      requires Valid()
      ensures r == if (key, hash) in contents then Some(contents[(key, hash)]) else None
    {
      var b, i := FindPointer(key, hash);
      r := if i < |list[b]| then Some(list[b][i].handle) else None;
    }

    /** Insert: in place of the entry with the same key, or at the chain's end. */
    method Insert(h: Slot) returns (old_: Option<nat>)
      requires Valid()
      modifies this
      ensures Valid() && contents == old(contents)[Id(h) := h.handle]
      ensures old_ == if Id(h) in old(contents) then Some(old(contents)[Id(h)]) else None
    {
      hide Chains;
      var b, i := FindPointer(h.key, h.hash);
      OneMore(contents, Id(h), h.handle);
      old_ := if i < |list[b]| then Some(list[b][i].handle) else None;
      PutKeeps(list, contents, h, b, i);
      list := list[b := if i < |list[b]| then list[b][i := h] else list[b] + [h]];
      contents := contents[Id(h) := h.handle];
      if old_.None? {
        elems := elems + 1;
        if elems > length {
          Resize();
        }
      }
    }

    method Remove(key: Key, hash: Word) returns (r: Option<nat>)
      requires Valid()
      modifies this
      ensures Valid() && contents == old(contents) - {(key, hash)}
      ensures r == if (key, hash) in old(contents) then Some(old(contents)[(key, hash)]) else None
    {
      hide Chains;
      var b, i := FindPointer(key, hash);
      if i < |list[b]| {
        r := Some(list[b][i].handle);
        CutKeeps(list, contents, b, i);
        OneFewer(contents, (key, hash));
        list := list[b := list[b][..i] + list[b][i + 1..]];
        contents := contents - {(key, hash)};
        elems := elems - 1;
      } else {
        r := None;
      }
    }

    /** Resize: a power of two no smaller than the number of entries, and every
        entry moved, once, to the front of its new chain. */
    method Resize()
      requires |list| == length && elems == |contents|
      requires if length == 0 then contents == map[] else Chains(list, contents)
      modifies this
      ensures Valid() && contents == old(contents) && elems == old(elems)
    {
      hide Chains, Bucket;
      var newLength := 4;
      assert PowerOfTwo(4) by { assert PowerOfTwo(1) && PowerOfTwo(2); }
      while newLength < elems
        invariant newLength >= 4 && PowerOfTwo(newLength)
        decreases elems - newLength
      {
        newLength := newLength * 2;
      }
      var newList := seq(newLength, _ => []);
      var count := 0;
      ghost var moved: Contents := map[];
      NoChains(newList);
      for i := 0 to length
        invariant |newList| == newLength && Chains(newList, moved) && count == |moved|
        invariant MovedBelow(contents, moved, length, i)
        modifies {}
      {
        ghost var m;
        newList, m := MoveChain(i, newList, moved);
        moved := m;
        count := count + |list[i]|;
      }
      AllMoved(contents, moved, length);
      assert count == elems;
      list, length := newList, newLength;
    }

    /** Moving the entries of one old chain. */
    method MoveChain(i: nat, newList: seq<seq<Slot>>, ghost moved: Contents)
      returns (r: seq<seq<Slot>>, ghost m: Contents)
      requires |list| == length && Chains(list, contents) && i < length
      requires Chains(newList, moved) && MovedBelow(contents, moved, length, i)
      ensures |r| == |newList| && Chains(r, m) && MovedBelow(contents, m, length, i + 1)
      ensures |m| == |moved| + |list[i]|
    {
      hide Chains, Bucket, MovedPart, MovedBelow;
      SomeChains(newList, moved);
      r, m := newList, moved;
      NoneOfChain(contents, moved, length, i);
      for j := 0 to |list[i]|
        invariant |r| == |newList| && Chains(r, m) && |m| == |moved| + j
        invariant MovedPart(contents, m, length, i, list[i][..j])
      {
        var h := list[i][j];
        var b := Bucket(h.hash, |r|);
        NextOfChain(list, contents, m, i, j);
        PushKeeps(r, m, h, b);
        r := r[b := [h] + r[b]];
        m := m[Id(h) := h.handle];
      }
      assert list[i][..|list[i]|] == list[i];
      ChainIsBucket(list, contents, m, i);
    }
  }

  // ----- resizing -----

  /** Moved: what the chains below `i` held. */
  ghost predicate MovedBelow(contents: Contents, moved: Contents, length: nat, i: nat) {
    && (forall k :: k in moved <==> k in contents && Bucket(k.1, length) < i)
    && (forall k :: k in moved ==> moved[k] == contents[k])
  }

  function Ids(chain: seq<Slot>): set<(Key, Word)> {
    set s | s in chain :: Id(s)
  }

  /** ... and the first `j` entries of chain `i`. */
  ghost predicate MovedPart(contents: Contents, moved: Contents, length: nat, i: nat, part: seq<Slot>) {
    && (forall k :: k in moved <==> k in contents && (Bucket(k.1, length) < i || k in Ids(part)))
    && (forall k :: k in moved ==> moved[k] == contents[k])
  }

  lemma {:induction false} NoChains(list: seq<seq<Slot>>)
    requires |list| > 0 && forall i :: 0 <= i < |list| ==> list[i] == []
    ensures Chains(list, map[])
  {
  }

  lemma {:induction false} SomeChains(list: seq<seq<Slot>>, contents: Contents)
    requires Chains(list, contents)
    ensures |list| > 0
  {
  }

  lemma {:induction false} AllMoved(contents: Contents, moved: Contents, length: nat)
    requires MovedBelow(contents, moved, length, length) && (length == 0 ==> contents == map[])
    ensures moved == contents
  {
    forall k | k in contents ensures Bucket(k.1, length) < length {
      assert length > 0;
    }
    assert moved.Keys == contents.Keys;
  }

  lemma {:induction false} NoneOfChain(contents: Contents, moved: Contents, length: nat, i: nat)
    requires MovedBelow(contents, moved, length, i)
    ensures MovedPart(contents, moved, length, i, [])
  {
    hide Bucket;
  }

  /** The entry that comes next has not been moved. */
  lemma {:induction false} NextOfChain(list: seq<seq<Slot>>, contents: Contents, moved: Contents, i: nat, j: nat)
    requires Chains(list, contents) && i < |list| && j < |list[i]|
    requires MovedPart(contents, moved, |list|, i, list[i][..j])
    ensures var h := list[i][j];
            && Id(h) !in moved && |moved[Id(h) := h.handle]| == |moved| + 1
            && MovedPart(contents, moved[Id(h) := h.handle], |list|, i, list[i][..j + 1])
  {
    hide Bucket, Complete, InPlace, NoTwins, Ids;
    var h := list[i][j];
    AtPlace(list, contents, i, j);
    IdsGrow(list[i], j);
    NotBefore(list, i, j);
    OneMore(moved, Id(h), h.handle);
  }

  lemma {:induction false} AtPlace(list: seq<seq<Slot>>, contents: Contents, i: nat, j: nat)
    requires InPlace(list, contents) && i < |list| && j < |list[i]|
    ensures var h := list[i][j]; Bucket(h.hash, |list|) == i && Id(h) in contents && contents[Id(h)] == h.handle
  {
    hide Bucket;
  }

  lemma {:induction false} IdsGrow(chain: seq<Slot>, j: nat)
    requires j < |chain|
    ensures Ids(chain[..j + 1]) == Ids(chain[..j]) + {Id(chain[j])}
  {
    assert chain[..j + 1] == chain[..j] + [chain[j]];
  }

  lemma {:induction false} NotBefore(list: seq<seq<Slot>>, i: nat, j: nat)
    requires NoTwins(list) && i < |list| && j < |list[i]|
    ensures Id(list[i][j]) !in Ids(list[i][..j])
  {
  }

  lemma {:induction false} ChainIsBucket(list: seq<seq<Slot>>, contents: Contents, moved: Contents, i: nat)
    requires Chains(list, contents) && i < |list| && MovedPart(contents, moved, |list|, i, list[i])
    ensures MovedBelow(contents, moved, |list|, i + 1)
  {
    hide Bucket, NoTwins;
    forall k | k in contents ensures k in Ids(list[i]) <==> Bucket(k.1, |list|) == i {
      if Bucket(k.1, |list|) == i {
        assert Id(Slot(contents[k], k.0, k.1)) == k;
      }
    }
  }

  // ----- changing one chain -----

  lemma {:induction false} NotInChain(list: seq<seq<Slot>>, contents: Contents, key: Key, hash: Word, b: nat, i: nat)
    requires Chains(list, contents) && b == Bucket(hash, |list|) < |list| && i <= |list[b]|
    requires forall j :: 0 <= j < i ==> Id(list[b][j]) != (key, hash)
    ensures i == |list[b]| ==> (key, hash) !in contents
    ensures i < |list[b]| ==> Id(list[b][i]) in contents && contents[Id(list[b][i])] == list[b][i].handle
  {
    if (key, hash) in contents {
      var s := Slot(contents[(key, hash)], key, hash);
      var j :| 0 <= j < |list[b]| && list[b][j] == s;
      assert Id(list[b][j]) == (key, hash);
    }
  }

  lemma {:induction false} OneFewer(m: Contents, k: (Key, Word))
    requires k in m
    ensures |m - {k}| == |m| - 1
  {
    assert m.Keys == (m - {k}).Keys + {k};
  }

  lemma {:induction false} OneMore(m: Contents, k: (Key, Word), h: nat)
    ensures |m[k := h]| == if k in m then |m| else |m| + 1
  {
    assert m[k := h].Keys == m.Keys + {k};
  }

  /** A new chain `chain` for bucket `b`, given what it holds. */
  ghost predicate ChainFor(chain: seq<Slot>, contents: Contents, contents': Contents, b: nat, length: nat) {
    && (forall j :: 0 <= j < |chain| ==> Bucket(chain[j].hash, length) == b && Id(chain[j]) in contents' && contents'[Id(chain[j])] == chain[j].handle)
    && (forall j, k :: 0 <= j < k < |chain| ==> Id(chain[j]) != Id(chain[k]))
    && (forall k :: k in contents' && Bucket(k.1, length) == b ==> Slot(contents'[k], k.0, k.1) in chain)
    && (forall k: (Key, Word) :: Bucket(k.1, length) != b ==> (k in contents' <==> k in contents) && (k in contents ==> contents'[k] == contents[k]))
  }

  lemma {:induction false} NewChain(list: seq<seq<Slot>>, contents: Contents, b: nat, chain: seq<Slot>,
      contents': Contents)
    requires Chains(list, contents) && b < |list| && ChainFor(chain, contents, contents', b, |list|)
    ensures Chains(list[b := chain], contents')
  {
    hide Bucket;
    var list': seq<seq<Slot>> := list[b := chain];
    forall i, j | 0 <= i < |list'| && 0 <= j < |list'[i]|
      ensures var s := list'[i][j]; Bucket(s.hash, |list|) == i && Id(s) in contents' && contents'[Id(s)] == s.handle
    {
      if i != b { AtPlace(list, contents, i, j); }
    }
    forall k | k in contents' ensures Slot(contents'[k], k.0, k.1) in list'[Bucket(k.1, |list|)] {
      if Bucket(k.1, |list|) != b {
        assert k in contents && contents'[k] == contents[k];
      }
    }
  }

  lemma {:induction false} ChainParts(list: seq<seq<Slot>>, contents: Contents, b: nat)
    requires Chains(list, contents) && b < |list|
    ensures ChainFor(list[b], contents, contents, b, |list|)
  {
    hide Bucket;
  }

  /** Putting an entry in place of its namesake, or at the end of its chain. */
  lemma {:induction false} PutKeeps(list: seq<seq<Slot>>, contents: Contents, h: Slot, b: nat, i: nat)
    requires Chains(list, contents) && b == Bucket(h.hash, |list|) < |list| && i <= |list[b]|
    requires if i < |list[b]| then Id(list[b][i]) == Id(h) else Id(h) !in contents
    ensures Chains(list[b := if i < |list[b]| then list[b][i := h] else list[b] + [h]], contents[Id(h) := h.handle])
  {
    hide Bucket, Chains;
    var chain := if i < |list[b]| then list[b][i := h] else list[b] + [h];
    ChainParts(list, contents, b);
    PutChain(list[b], contents, h, i, b, |list|);
    NewChain(list, contents, b, chain, contents[Id(h) := h.handle]);
  }

  lemma {:induction false} PutChain(chain: seq<Slot>, contents: Contents, h: Slot, i: nat, b: nat, length: nat)
    requires ChainFor(chain, contents, contents, b, length) && b == Bucket(h.hash, length) && i <= |chain|
    requires if i < |chain| then Id(chain[i]) == Id(h) else Id(h) !in contents
    ensures ChainFor(if i < |chain| then chain[i := h] else chain + [h], contents, contents[Id(h) := h.handle], b, length)
  {
    hide Bucket;
    var chain' := if i < |chain| then chain[i := h] else chain + [h];
    var contents' := contents[Id(h) := h.handle];
    assert chain'[i] == h;
    forall k | k in contents' && Bucket(k.1, length) == b ensures Slot(contents'[k], k.0, k.1) in chain' {
      if k != Id(h) {
        var s := Slot(contents[k], k.0, k.1);
        var j :| 0 <= j < |chain| && chain[j] == s;
        assert chain'[j] == s;
      }
    }
  }

  lemma {:induction false} CutKeeps(list: seq<seq<Slot>>, contents: Contents, b: nat, i: nat)
    requires Chains(list, contents) && b < |list| && i < |list[b]|
    ensures Chains(list[b := list[b][..i] + list[b][i + 1..]], contents - {Id(list[b][i])})
  {
    hide Bucket, Chains;
    ChainParts(list, contents, b);
    CutChain(list[b], contents, i, b, |list|);
    NewChain(list, contents, b, list[b][..i] + list[b][i + 1..], contents - {Id(list[b][i])});
  }

  lemma {:induction false} CutChain(chain: seq<Slot>, contents: Contents, i: nat, b: nat, length: nat)
    requires ChainFor(chain, contents, contents, b, length) && i < |chain|
    ensures ChainFor(chain[..i] + chain[i + 1..], contents, contents - {Id(chain[i])}, b, length)
  {
    hide Bucket;
    var chain' := chain[..i] + chain[i + 1..];
    var contents' := contents - {Id(chain[i])};
    assert forall j :: 0 <= j < |chain'| ==> chain'[j] == chain[if j < i then j else j + 1];
    forall k | k in contents' && Bucket(k.1, length) == b ensures Slot(contents'[k], k.0, k.1) in chain' {
      var s := Slot(contents[k], k.0, k.1);
      var j :| 0 <= j < |chain| && chain[j] == s;
      assert chain'[if j < i then j else j - 1] == s;
    }
  }

  lemma {:induction false} PushKeeps(list: seq<seq<Slot>>, contents: Contents, h: Slot, b: nat)
    requires Chains(list, contents) && b == Bucket(h.hash, |list|) < |list| && Id(h) !in contents
    ensures Chains(list[b := [h] + list[b]], contents[Id(h) := h.handle])
  {
    hide Bucket, Chains;
    ChainParts(list, contents, b);
    PushChain(list[b], contents, h, b, |list|);
    NewChain(list, contents, b, [h] + list[b], contents[Id(h) := h.handle]);
  }

  lemma {:induction false} PushChain(chain: seq<Slot>, contents: Contents, h: Slot, b: nat, length: nat)
    requires ChainFor(chain, contents, contents, b, length) && b == Bucket(h.hash, length) && Id(h) !in contents
    ensures ChainFor([h] + chain, contents, contents[Id(h) := h.handle], b, length)
  {
    hide Bucket;
    var chain' := [h] + chain;
    assert forall j :: 0 < j < |chain'| ==> chain'[j] == chain[j - 1];
    assert chain'[0] == h;
  }
}
