/** LRUCache (util/cache.cc): reference counts, the two lists, eviction.

    Handles are heap blocks; a handle is modelled by its address, and `handles`
    are the blocks allocated and not freed.  The circular lists lru_ and in_use_
    are sequences, oldest first. */
module LruCache {
  import opened InternalKeys
  import opened Coding
  import opened HandleTable

  datatype LruHandle = LruHandle(key: Key, hash: Word, charge: nat, inCache: bool, refs: nat)

  /** The shard's state; `held` counts the references clients hold. */
  datatype Shard = Shard(handles: map<nat, LruHandle>, lru: seq<nat>, inUse: seq<nat>, usage: int, held: multiset<nat>)

  // ----- lists -----

  ghost predicate NoDuplicates(s: seq<nat>) {
    forall i, j :: 0 <= i < j < |s| ==> s[i] != s[j]
  }

  /** LRU_Remove */
  function Without(s: seq<nat>, h: nat): (r: seq<nat>)
    ensures forall x :: x in r <==> x in s && x != h
    ensures NoDuplicates(s) ==> NoDuplicates(r)
    ensures h !in s ==> r == s
  {
    if |s| == 0 then []
    else
      var n := |s| - 1;
      assert s == s[..n] + [s[n]];
      var front := Without(s[..n], h);
      assert forall i :: 0 <= i < |front| ==> front[i] in front;
      if s[n] == h then front else front + [s[n]]
  }

  function Charges(handles: map<nat, LruHandle>, s: seq<nat>): nat {
    if |s| == 0 then 0
    else Charges(handles, s[..|s| - 1]) + if s[|s| - 1] in handles then handles[s[|s| - 1]].charge else 0
  }

  lemma {:induction false} LastIsNew(s: seq<nat>)
    requires NoDuplicates(s) && |s| > 0
    ensures NoDuplicates(s[..|s| - 1]) && s[|s| - 1] !in s[..|s| - 1] && s == s[..|s| - 1] + [s[|s| - 1]]
  {
  }

  lemma {:induction false} ChargesWithout(handles: map<nat, LruHandle>, s: seq<nat>, h: nat)
    requires NoDuplicates(s) && h in handles
    ensures Charges(handles, Without(s, h)) == Charges(handles, s) - if h in s then handles[h].charge else 0
  {
    hide NoDuplicates, Without, Charges;
    if |s| == 0 {
      NothingCharged(handles, h);
    } else {
      var n := |s| - 1;
      LastIsNew(s);
      ChargesWithout(handles, s[..n], h);
      WithoutSnoc(s[..n], s[n], h);
      ChargesAppend(handles, s[..n], s[n]);
      ChargesAppend(handles, Without(s[..n], h), s[n]);
    }
  }

  lemma {:induction false} NothingCharged(handles: map<nat, LruHandle>, h: nat)
    ensures Charges(handles, []) == 0 && Without([], h) == []
  {
  }

  lemma {:induction false} WithoutSnoc(s: seq<nat>, x: nat, h: nat)
    ensures Without(s + [x], h) == if x == h then Without(s, h) else Without(s, h) + [x]
  {
    assert (s + [x])[..|s|] == s;
  }

  lemma {:induction false} ChargesAppend(handles: map<nat, LruHandle>, s: seq<nat>, h: nat)
    ensures Charges(handles, s + [h]) == Charges(handles, s) + if h in handles then handles[h].charge else 0
  {
    assert (s + [h])[..|s|] == s;
  }

  lemma {:induction false} ChargesFrame(a: map<nat, LruHandle>, b: map<nat, LruHandle>, s: seq<nat>)
    requires forall h :: h in s ==> h in a && h in b && a[h].charge == b[h].charge
    ensures Charges(a, s) == Charges(b, s)
  {
    if |s| > 0 {
      assert forall h :: h in s[..|s| - 1] ==> h in s;
      ChargesFrame(a, b, s[..|s| - 1]);
    }
  }

  // ----- the invariants -----

  /** Its references are the clients' and the cache's; it is on the one list its
      count says; it is not freed while a client holds it. */
  ghost predicate HandleOk(st: Shard, h: nat) {
    var cached, refs := h in st.handles && st.handles[h].inCache, if h in st.handles then st.handles[h].refs else 0;
    && refs == st.held[h] + (if cached then 1 else 0)
    && (h in st.handles ==> refs > 0)
    && (h in st.lru <==> cached && refs == 1)
    && (h in st.inUse <==> cached && refs >= 2)
  }

  ghost predicate HandlesOk(st: Shard) {
    NoDuplicates(st.lru) && NoDuplicates(st.inUse) && forall h :: HandleOk(st, h)
  }

  ghost predicate Charged(st: Shard) {
    st.usage == Charges(st.handles, st.lru) + Charges(st.handles, st.inUse)
  }

  /** The table holds the cached entries; `extra` is one just taken out of it. */
  ghost predicate Tabled(st: Shard, contents: Contents, extra: Option<nat>) {
    && (forall k :: k in contents ==> contents[k] in st.handles && st.handles[contents[k]].inCache && Some(contents[k]) != extra &&
                                      (st.handles[contents[k]].key, st.handles[contents[k]].hash) == k)
    && (forall h :: h in st.handles && st.handles[h].inCache && Some(h) != extra ==>
          var k := (st.handles[h].key, st.handles[h].hash); k in contents && contents[k] == h)
    && (extra.Some? ==> extra.value in st.handles && st.handles[extra.value].inCache)
  }

  /** Reference counts, lists, table and usage agree. */
  ghost predicate Ok(st: Shard, contents: Contents, extra: Option<nat>) {
    HandlesOk(st) && Tabled(st, contents, extra) && Charged(st)
  }

  // ----- the primitives -----

  /** Ref, for a client. */
  function Ref(st: Shard, h: nat): Shard
    requires h in st.handles
  {
    var e := st.handles[h];
    var st1 := if e.refs == 1 && e.inCache then st.(lru := Without(st.lru, h), inUse := st.inUse + [h]) else st;
    st1.(handles := st.handles[h := e.(refs := e.refs + 1)], held := st.held + multiset{h})
  }

  /** Unref, which asserts refs > 0. */
  function Unref(st: Shard, h: nat): Shard
    requires h in st.handles
  {
    var e := st.handles[h];
    if e.refs <= 1 then st.(handles := st.handles - {h})
    else
      var st1 := st.(handles := st.handles[h := e.(refs := e.refs - 1)]);
      if e.inCache && e.refs == 2 then st1.(inUse := Without(st.inUse, h), lru := st.lru + [h]) else st1
  }

  /** FinishErase, of an entry already out of the table. */
  function FinishErase(st: Shard, h: nat): Shard
    requires h in st.handles
  {
    var e := st.handles[h];
    Unref(st.(lru := Without(st.lru, h), inUse := Without(st.inUse, h), usage := st.usage - e.charge,
              handles := st.handles[h := e.(inCache := false)]), h)
  }

  lemma {:induction false} PushNew(s: seq<nat>, h: nat)
    requires NoDuplicates(s) && h !in s
    ensures NoDuplicates(s + [h])
  {
  }

  lemma {:induction false} RefHandles(st: Shard, h: nat)
    requires HandlesOk(st) && h in st.handles
    ensures HandlesOk(Ref(st, h))
  {
    hide NoDuplicates, HandleOk;
    var st' := Ref(st, h);
    assert h in st.inUse <==> st.handles[h].inCache && st.handles[h].refs >= 2 by { PointOf(st, h); }
    if h !in st.inUse { PushNew(st.inUse, h); }
    forall x ensures HandleOk(st', x) {
      assert HandleOk(st, x);
      RefPoint(st, h, x);
    }
  }

  lemma {:induction false} PointOf(st: Shard, h: nat)
    requires HandleOk(st, h) && h in st.handles
    ensures st.handles[h].refs == st.held[h] + (if st.handles[h].inCache then 1 else 0)
    ensures h in st.lru <==> st.handles[h].inCache && st.handles[h].refs == 1
    ensures h in st.inUse <==> st.handles[h].inCache && st.handles[h].refs >= 2
    ensures st.handles[h].refs > 0
  {
  }

  lemma {:induction false} RefPoint(st: Shard, h: nat, x: nat)
    requires HandleOk(st, x) && h in st.handles && (x == h ==> HandleOk(st, h))
    ensures HandleOk(Ref(st, h), x)
  {
  }

  lemma {:induction false} RefUsage(st: Shard, h: nat)
    requires NoDuplicates(st.lru) && h in st.handles && HandleOk(st, h) && Charged(st)
    ensures Charged(Ref(st, h))
  {
    hide NoDuplicates;
    var st' := Ref(st, h);
    ChargesWithout(st.handles, st.lru, h);
    ChargesAppend(st.handles, st.inUse, h);
    SameCharges(st.handles, st'.handles, h, st'.lru);
    SameCharges(st.handles, st'.handles, h, st'.inUse);
  }

  /** Changing one handle but for its charge. */
  lemma {:induction false} SameCharges(a: map<nat, LruHandle>, b: map<nat, LruHandle>, h: nat, s: seq<nat>)
    requires forall x :: x != h ==> (x in a <==> x in b) && (x in a ==> a[x] == b[x])
    requires h in s ==> h in a && h in b && a[h].charge == b[h].charge
    ensures Charges(a, s) == Charges(b, s)
  {
    if |s| > 0 {
      assert s == s[..|s| - 1] + [s[|s| - 1]];
      SameCharges(a, b, h, s[..|s| - 1]);
    }
  }

  lemma {:induction false} RefKeepsOk(st: Shard, contents: Contents, h: nat)
    requires Ok(st, contents, None) && h in st.handles
    ensures Ok(Ref(st, h), contents, None)
  {
    hide NoDuplicates, HandleOk, Charged, Tabled;
    RefHandles(st, h);
    RefUsage(st, h);
    RefTabled(st, contents, h);
  }

  lemma {:induction false} RefTabled(st: Shard, contents: Contents, h: nat)
    requires Tabled(st, contents, None) && h in st.handles
    ensures Tabled(Ref(st, h), contents, None)
  {
  }

  /** A client gives up its reference. */
  function Release(st: Shard, h: nat): Shard
    requires h in st.handles
  {
    Unref(st, h).(held := st.held - multiset{h})
  }

  lemma {:induction false} HeldIsAlive(st: Shard, h: nat)
    requires HandleOk(st, h) && h in st.held
    ensures h in st.handles && st.handles[h].refs > 0
  {
  }

  lemma {:induction false} ReleasePoint(st: Shard, h: nat, x: nat)
    requires HandleOk(st, x) && HandleOk(st, h) && h in st.held && h in st.handles && st.handles[h].refs > 0
    ensures HandleOk(Release(st, h), x)
  {
  }

  lemma {:induction false} ReleaseHandles(st: Shard, h: nat)
    requires HandlesOk(st) && h in st.held
    ensures h in st.handles && st.handles[h].refs > 0 && HandlesOk(Release(st, h))
  {
    hide NoDuplicates, HandleOk;
    assert HandleOk(st, h);
    HeldIsAlive(st, h);
    PointOf(st, h);
    if h !in st.lru { PushNew(st.lru, h); }
    forall x ensures HandleOk(Release(st, h), x) {
      assert HandleOk(st, x);
      ReleasePoint(st, h, x);
    }
  }

  lemma {:induction false} ReleaseUsage(st: Shard, h: nat)
    requires NoDuplicates(st.inUse) && HandleOk(st, h) && h in st.held && Charged(st)
    ensures h in st.handles && st.handles[h].refs > 0 && Charged(Release(st, h))
  {
    hide NoDuplicates, Charges, HandleOk, Unref, Release;
    HeldIsAlive(st, h);
    PointOf(st, h);
    ReleaseShape(st, h);
    var st' := Release(st, h);
    SameCharges(st.handles, st'.handles, h, st'.lru);
    SameCharges(st.handles, st'.handles, h, st'.inUse);
    if st.handles[h].inCache && st.handles[h].refs == 2 {
      ChargesWithout(st.handles, st.inUse, h);
      ChargesAppend(st.handles, st.lru, h);
    }
  }

  lemma {:induction false} ReleaseShape(st: Shard, h: nat)
    requires HandleOk(st, h) && h in st.held && h in st.handles
    ensures var st' := Release(st, h); var moved := st.handles[h].inCache && st.handles[h].refs == 2;
            && st'.usage == st.usage
            && st'.lru == (if moved then st.lru + [h] else st.lru)
            && st'.inUse == (if moved then Without(st.inUse, h) else st.inUse)
            && (forall x :: x != h ==> (x in st.handles <==> x in st'.handles) && (x in st.handles ==> st.handles[x] == st'.handles[x]))
            && (h in st'.lru || h in st'.inUse ==> h in st'.handles && st'.handles[h].charge == st.handles[h].charge)
  {
  }

  lemma {:induction false} ReleaseTabled(st: Shard, contents: Contents, h: nat)
    requires Tabled(st, contents, None) && HandleOk(st, h) && h in st.held
    ensures h in st.handles && st.handles[h].refs > 0 && Tabled(Release(st, h), contents, None)
  {
  }

  lemma {:induction false} ReleaseKeepsOk(st: Shard, contents: Contents, h: nat)
    requires Ok(st, contents, None) && h in st.held
    ensures h in st.handles && st.handles[h].refs > 0
    ensures Ok(Release(st, h), contents, None)
  {
    hide NoDuplicates, HandleOk, Charged, Tabled, Release;
    assert HandleOk(st, h);
    ReleaseHandles(st, h);
    ReleaseUsage(st, h);
    ReleaseTabled(st, contents, h);
  }

  /** The cache gives up its reference on an entry already out of the table. */
  lemma {:induction false} EraseKeepsOk(st: Shard, contents: Contents, h: nat)
    requires Ok(st, contents, Some(h))
    ensures h in st.handles && st.handles[h].refs > 0
    ensures Ok(FinishErase(st, h), contents, None)
    ensures FinishErase(st, h).lru == Without(st.lru, h) && FinishErase(st, h).held == st.held
  {
    hide NoDuplicates, HandleOk, Charged, Tabled, FinishErase;
    assert HandleOk(st, h);
    ExtraIsCached(st, contents, h);
    EraseLists(st, h);
    EraseHandles(st, h);
    EraseUsage(st, h);
    EraseTabled(st, contents, h);
  }

  lemma {:induction false} ExtraIsCached(st: Shard, contents: Contents, h: nat)
    requires Tabled(st, contents, Some(h)) && HandleOk(st, h)
    ensures h in st.handles && st.handles[h].inCache && st.handles[h].refs > 0
  {
  }

  lemma {:induction false} EraseHandles(st: Shard, h: nat)
    requires HandlesOk(st) && h in st.handles && st.handles[h].inCache && st.handles[h].refs > 0
    ensures HandlesOk(FinishErase(st, h))
  {
    hide NoDuplicates, HandleOk, FinishErase;
    assert HandleOk(st, h);
    EraseLists(st, h);
    forall x ensures HandleOk(FinishErase(st, h), x) {
      assert HandleOk(st, x);
      ErasePoint(st, h, x);
    }
  }

  lemma {:induction false} EraseLists(st: Shard, h: nat)
    requires h in st.handles && st.handles[h].inCache && st.handles[h].refs > 0
    ensures FinishErase(st, h).lru == Without(st.lru, h) && FinishErase(st, h).inUse == Without(st.inUse, h)
    ensures FinishErase(st, h).held == st.held
  {
  }

  lemma {:induction false} ErasePoint(st: Shard, h: nat, x: nat)
    requires HandleOk(st, x) && HandleOk(st, h) && h in st.handles && st.handles[h].inCache && st.handles[h].refs > 0
    ensures HandleOk(FinishErase(st, h), x)
  {
    EraseLists(st, h);
  }

  lemma {:induction false} EraseUsage(st: Shard, h: nat)
    requires HandlesOk(st) && Charged(st) && h in st.handles && st.handles[h].inCache && st.handles[h].refs > 0
    ensures Charged(FinishErase(st, h))
  {
    hide NoDuplicates;
    var st' := FinishErase(st, h);
    assert HandleOk(st, h);
    EraseLists(st, h);
    ChargesWithout(st.handles, st.lru, h);
    ChargesWithout(st.handles, st.inUse, h);
    SameCharges(st.handles, st'.handles, h, st'.lru);
    SameCharges(st.handles, st'.handles, h, st'.inUse);
  }

  lemma {:induction false} EraseTabled(st: Shard, contents: Contents, h: nat)
    requires Tabled(st, contents, Some(h)) && HandleOk(st, h) && h in st.handles && st.handles[h].inCache
    requires st.handles[h].refs > 0
    ensures Tabled(FinishErase(st, h), contents, None)
  {
  }

  // ----- putting an entry in, taking one out -----

  /** Insert, up to the table: the new block, cached or not. */
  function Allocate(st: Shard, h: nat, key: Key, hash: Word, charge: nat, cached: bool): Shard {
    var st1 := st.(handles := st.handles[h := LruHandle(key, hash, charge, cached, if cached then 2 else 1)], held := st.held + multiset{h});
    if cached then st1.(inUse := st.inUse + [h], usage := st.usage + charge) else st1
  }

  lemma {:induction false} AllocatePoint(st: Shard, h: nat, key: Key, hash: Word, charge: nat, cached: bool, x: nat)
    requires HandleOk(st, x) && HandleOk(st, h) && h !in st.handles
    ensures HandleOk(Allocate(st, h, key, hash, charge, cached), x)
  {
  }

  lemma {:induction false} AllocateKeepsOk(st: Shard, contents: Contents, h: nat, key: Key, hash: Word, charge: nat,
      cached: bool)
    requires Ok(st, contents, None) && h !in st.handles
    ensures var st' := Allocate(st, h, key, hash, charge, cached); HandlesOk(st') && Charged(st')
  {
    hide NoDuplicates, HandleOk, Tabled;
    var st' := Allocate(st, h, key, hash, charge, cached);
    assert HandleOk(st, h);
    NotListed(st, h);
    PushNew(st.inUse, h);
    forall x ensures HandleOk(st', x) {
      assert HandleOk(st, x);
      AllocatePoint(st, h, key, hash, charge, cached, x);
    }
    ChargesAppend(st'.handles, st.inUse, h);
    SameCharges(st.handles, st'.handles, h, st.lru);
    SameCharges(st.handles, st'.handles, h, st.inUse);
  }

  lemma {:induction false} NotListed(st: Shard, h: nat)
    requires HandleOk(st, h) && h !in st.handles
    ensures h !in st.lru && h !in st.inUse
  {
  }

  /** A cached entry enters the table; the one it replaces is left out of it. */
  lemma {:induction false} EntersTable(st: Shard, contents: Contents, h: nat, key: Key, hash: Word, charge: nat)
    requires Tabled(st, contents, None) && h !in st.handles
    ensures var extra := if (key, hash) in contents then Some(contents[(key, hash)]) else None;
            Tabled(Allocate(st, h, key, hash, charge, true), contents[(key, hash) := h], extra)
  {
  }

  lemma {:induction false} StaysOut(st: Shard, contents: Contents, h: nat, key: Key, hash: Word, charge: nat)
    requires Tabled(st, contents, None) && h !in st.handles
    ensures Tabled(Allocate(st, h, key, hash, charge, false), contents, None)
  {
  }

  lemma {:induction false} LeavesTable(st: Shard, contents: Contents, k: (Key, Word))
    requires Ok(st, contents, None) && k in contents
    ensures Ok(st, contents - {k}, Some(contents[k]))
  {
    hide HandlesOk, Charged;
  }

  /** A listed entry is in the table under its own key. */
  lemma {:induction false} ListedIsTabled(st: Shard, contents: Contents, h: nat)
    requires Ok(st, contents, None) && h in st.lru
    ensures h in st.handles && var k := (st.handles[h].key, st.handles[h].hash); k in contents && contents[k] == h
  {
    hide NoDuplicates, Charged;
    assert HandleOk(st, h);
  }

  lemma {:induction false} WithoutFirst(s: seq<nat>, n: nat)
    requires NoDuplicates(s) && n < |s|
    ensures Without(s[n..], s[n]) == s[n + 1..]
    decreases |s|
  {
    var t := s[n..];
    var last := |t| - 1;
    if last > 0 {
      assert s[..|s| - 1][n..] == t[..last];
      WithoutFirst(s[..|s| - 1], n);
      assert t[last] != s[n];
      assert s[n + 1..] == s[..|s| - 1][n + 1..] + [t[last]];
    } else {
      assert t == [s[n]] && t[..last] == [];
    }
  }

  /** Every block handed out is alive or was freed once. */
  ghost predicate Blocks(alive: set<nat>, next: nat, freed: seq<nat>) {
    && NoDuplicates(freed) && (forall h :: h in freed ==> h !in alive)
    && forall h: nat :: h in alive || h in freed <==> h < next
  }

  lemma {:induction false} BlockFreed(alive: set<nat>, next: nat, freed: seq<nat>, h: nat)
    requires Blocks(alive, next, freed) && h in alive
    ensures Blocks(alive - {h}, next, freed + [h])
  {
    PushNew(freed, h);
  }

  class LRUCache {
    var capacity: nat
    const table: HandleTable
    var handles: map<nat, LruHandle>
    var lru: seq<nat>
    var inUse: seq<nat>
    var usage: int
    /** Where the next block comes from. */
    var nextHandle: nat
    /** The blocks freed, each after its deleter ran, in order. */
    var freed: seq<nat>
    ghost var held: multiset<nat>

    ghost function St(): Shard
      reads this
    {
      Shard(handles, lru, inUse, usage, held)
    }

    ghost predicate Valid()
      reads this, table
    {
      table.Valid() && Ok(St(), table.contents, None) && Blocks(handles.Keys, nextHandle, freed)
    }

    constructor (capacity: nat)
      ensures Valid() && fresh(table) && table.contents == map[] && held == multiset{} && this.capacity == capacity
    {
      this.capacity := capacity;
      table := new HandleTable();
      handles, lru, inUse, usage, nextHandle, freed, held := map[], [], [], 0, 0, [], multiset{};
    }

    method RefHandle(h: nat)
      requires h in handles
      modifies this`handles, this`lru, this`inUse, this`held
      ensures St() == Ref(old(St()), h)
    {
      var e := handles[h];
      if e.refs == 1 && e.inCache {
        lru := Without(lru, h);
        inUse := inUse + [h];
      }
      handles := handles[h := e.(refs := e.refs + 1)];
      held := held + multiset{h};
    }

    method UnrefHandle(h: nat)
      requires h in handles && handles[h].refs > 0 && Blocks(handles.Keys, nextHandle, freed)
      modifies this`handles, this`lru, this`inUse, this`freed
      ensures St() == Unref(old(St()), h) && Blocks(handles.Keys, nextHandle, freed)
      ensures freed == if old(handles)[h].refs == 1 then old(freed) + [h] else old(freed)
    {
      hide Blocks, Without;
      var e := handles[h];
      if e.refs == 1 {
        BlockFreed(handles.Keys, nextHandle, freed, h);
        assert (handles - {h}).Keys == handles.Keys - {h};
        handles := handles - {h};
        freed := freed + [h];
      } else {
        assert handles[h := e.(refs := e.refs - 1)].Keys == handles.Keys;
        handles := handles[h := e.(refs := e.refs - 1)];
        if e.inCache && e.refs == 2 {
          inUse := Without(inUse, h);
          lru := lru + [h];
        }
      }
    }

    /** FinishErase of an entry out of the table. */
    method FinishEraseHandle(h: nat)
      requires table.Valid() && Ok(St(), table.contents, Some(h)) && Blocks(handles.Keys, nextHandle, freed)
      modifies this`handles, this`lru, this`inUse, this`usage, this`freed
      ensures Valid() && held == old(held) && lru == Without(old(lru), h)
      ensures h in old(handles) && St() == FinishErase(old(St()), h)
    {
      hide Ok, Blocks, Without, Chains;
      EraseKeepsOk(St(), table.contents, h);
      var e := handles[h];
      assert handles[h := e.(inCache := false)].Keys == handles.Keys;
      lru, inUse := Without(lru, h), Without(inUse, h);
      handles := handles[h := e.(inCache := false)];
      usage := usage - e.charge;
      UnrefHandle(h);
    }

    /** Lookup: a hit gives the client a reference, and takes the entry off the
        LRU list. */
    method Lookup(key: Key, hash: Word) returns (r: Option<nat>)
      requires Valid()
      modifies this`handles, this`lru, this`inUse, this`held
      ensures Valid() && r == if (key, hash) in table.contents then Some(table.contents[(key, hash)]) else None
      ensures r.None? ==> St() == old(St())
      ensures r.Some? ==> r.value in old(handles) && St() == Ref(old(St()), r.value)
      ensures held == old(held) + (if r.Some? then multiset{r.value} else multiset{})
    {
      hide Ok, Blocks, Chains;
      r := table.Lookup(key, hash);
      if r.Some? {
        InTable(St(), table.contents, (key, hash));
        RefKeepsOk(St(), table.contents, r.value);
        ghost var alive := handles.Keys;
        RefHandle(r.value);
        assert handles.Keys == alive;
      }
    }

    /** Release: of a reference the client holds. */
    method ReleaseHandle(h: nat)
      requires Valid() && h in held
      modifies this`handles, this`lru, this`inUse, this`freed, this`held
      ensures Valid() && h in old(handles) && St() == Release(old(St()), h)
      ensures freed == if old(handles)[h].refs == 1 then old(freed) + [h] else old(freed)
    {
      hide Ok, Blocks, Chains;
      ReleaseKeepsOk(St(), table.contents, h);
      UnrefHandle(h);
      held := held - multiset{h};
    }

    method Erase(key: Key, hash: Word)
      requires Valid()
      modifies this`handles, this`lru, this`inUse, this`usage, this`freed, table
      ensures Valid() && table.contents == old(table.contents) - {(key, hash)} && held == old(held)
    {
      hide Ok, Blocks, Chains;
      ghost var m := table.contents;
      if (key, hash) in m { LeavesTable(St(), m, (key, hash)); } else { NothingLeaves(m, (key, hash)); }
      var r := table.Remove(key, hash);
      if r.Some? {
        FinishEraseHandle(r.value);
      }
    }

    /** Erases the oldest unreferenced entry. */
    method EvictOldest()
      requires Valid() && |lru| > 0
      modifies this`handles, this`lru, this`inUse, this`usage, this`freed, table
      ensures Valid() && held == old(held) && lru == old(lru)[1..]
      ensures old(lru)[0] in old(handles) && St() == FinishErase(old(St()), old(lru)[0])
      ensures forall x :: x in lru ==> x in handles && x in old(handles) && handles[x] == old(handles)[x]
      ensures forall x :: x in old(handles) && x != old(lru)[0] ==> x in handles
      ensures var e := old(handles)[old(lru)[0]]; table.contents == old(table.contents) - {(e.key, e.hash)} && usage == old(usage) - e.charge
    {
      hide *;
      Unpack();
      var h := lru[0];
      ListedIsTabled(St(), table.contents, h);
      FirstErased(St(), table.contents);
      var e := handles[h];
      LeavesTable(St(), table.contents, (e.key, e.hash));
      var r := table.Remove(e.key, e.hash);
      FinishEraseHandle(h);
      StIs();
    }

    lemma {:induction false} Unpack()
      requires Valid()
      ensures table.Valid() && Ok(St(), table.contents, None) && Blocks(handles.Keys, nextHandle, freed)
      ensures St() == Shard(handles, lru, inUse, usage, held) && forall x :: x in lru ==> x in handles
    {
      hide Ok, Blocks, Chains;
      ListedAreAlive(St(), table.contents);
    }

    lemma {:induction false} Pack()
      requires table.Valid() && Ok(Shard(handles, lru, inUse, usage, held), table.contents, None)
      requires Blocks(handles.Keys, nextHandle, freed)
      ensures Valid()
    {
      hide Ok, Blocks, Chains;
    }

    /** The new block, entered into the table unless caching is off. */
    method Enter(key: Key, hash: Word, charge: nat) returns (h: nat)
      requires Valid()
      modifies this`handles, this`lru, this`inUse, this`usage, this`freed, this`nextHandle, this`held, table
      ensures Valid() && h == old(nextHandle) && h !in old(handles) && h in handles && held == old(held) + multiset{h}
      ensures table.contents == if capacity > 0 then old(table.contents)[(key, hash) := h] else old(table.contents)
      ensures lru == if capacity > 0 && (key, hash) in old(table.contents) then Without(old(lru), old(table.contents)[(key, hash)]) else old(lru)
      ensures forall x :: x in lru ==> x in handles && x in old(handles) && handles[x] == old(handles)[x]
    {
      hide *;
      Unpack();
      ghost var st, m := St(), table.contents;
      h := nextHandle;
      NewBlock(handles.Keys, nextHandle, freed);
      handles := handles[h := LruHandle(key, hash, charge, capacity > 0, if capacity > 0 then 2 else 1)];
      assert handles.Keys == st.handles.Keys + {h};
      nextHandle := nextHandle + 1;
      held := held + multiset{h};
      AllocateIs(st, h, key, hash, charge);
      if capacity > 0 {
        inUse := inUse + [h];
        usage := usage + charge;
        EnteredOk(st, m, h, key, hash, charge);
        EnterTable(h, key, hash, st, charge);
      } else {
        NotEnteredOk(st, m, h, key, hash, charge);
        Pack();
      }
    }

    /** table_.Insert and FinishErase of what it replaced. */
    method EnterTable(h: nat, key: Key, hash: Word, ghost st: Shard, ghost charge: nat)
      requires table.Valid() && Blocks(handles.Keys, nextHandle, freed)
      requires h in handles && (forall x :: x in lru ==> x in handles)
      requires h !in st.handles && Shard(handles, lru, inUse, usage, held) == Allocate(st, h, key, hash, charge, true)
      requires Ok(Allocate(st, h, key, hash, charge, true), table.contents[(key, hash) := h],
                  if (key, hash) in table.contents then Some(table.contents[(key, hash)]) else None)
      modifies this`handles, this`lru, this`inUse, this`usage, this`freed, table
      ensures Valid() && h in handles && held == old(held) && table.contents == old(table.contents)[(key, hash) := h]
      ensures lru == if (key, hash) in old(table.contents) then Without(old(lru), old(table.contents)[(key, hash)]) else old(lru)
      ensures forall x :: x in lru ==> x in handles && x in old(handles) && handles[x] == old(handles)[x]
    {
      hide *;
      assert St() == Shard(handles, lru, inUse, usage, held) by { StIs(); }
      ghost var m := table.contents;
      var replaced := table.Insert(Slot(h, key, hash));
      IdOf(h, key, hash);
      if replaced.Some? {
        ghost var before := St();
        ReplacedIsOther(before, table.contents, replaced.value, key, hash);
        FinishEraseHandle(replaced.value);
        StIs();
        Unpack();
        ErasedElsewhere(before, replaced.value);
      } else {
        Pack();
        Unpack();
      }
    }

    lemma {:induction false} StIs()
      ensures St() == Shard(handles, lru, inUse, usage, held)
    {
    }

    /** Insert: then the oldest unreferenced entries go, no more of them than bring
        the usage within the capacity. */
    method Insert(key: Key, hash: Word, charge: nat) returns (h: nat, ghost evicted: seq<nat>)
      requires Valid()
      modifies this`handles, this`lru, this`inUse, this`usage, this`freed, this`nextHandle, this`held, table
      ensures Valid() && h == old(nextHandle) && h in handles && held == old(held) + multiset{h}
      ensures usage <= capacity || lru == []
      ensures capacity > 0 ==> (key, hash) in table.contents && table.contents[(key, hash)] == h
      ensures forall k :: k in table.contents && k != (key, hash) ==>
        k in old(table.contents) && table.contents[k] == old(table.contents)[k]
      ensures evicted + lru == if capacity > 0 && (key, hash) in old(table.contents) then Without(old(lru), old(table.contents)[(key, hash)]) else old(lru)
      ensures |evicted| > 0 ==> var last := evicted[|evicted| - 1]; last in old(handles) && usage + old(handles)[last].charge > capacity
    {
      hide *;
      h := Enter(key, hash, charge);
      evicted := EvictToCapacity(h);
    }

    /** The loop that evicts; what a client holds stays. */
    method EvictToCapacity(ghost h: nat) returns (ghost evicted: seq<nat>)
      requires Valid() && h in held
      modifies this`handles, this`lru, this`inUse, this`usage, this`freed, table
      ensures Valid() && held == old(held) && h in handles && (usage <= capacity || lru == [])
      ensures evicted + lru == old(lru)
      ensures forall k :: k in table.contents ==>
        k in old(table.contents) && table.contents[k] == old(table.contents)[k]
      ensures forall k :: k in old(table.contents) && old(table.contents)[k] == h ==> k in table.contents
      ensures |evicted| > 0 ==> var last := evicted[|evicted| - 1];
                last in old(lru) && last in old(handles) && usage + old(handles)[last].charge > capacity
    {
      hide *;
      evicted := [];
      Unpack();
      HeldIsNotListed(St(), table.contents, h);
      ghost var was, m := St(), table.contents;
      NoneEvicted(was, m, h, capacity);
      while usage > capacity && |lru| > 0
        invariant Valid() && held == old(held) && h !in lru && Evicted(was, m, St(), table.contents, evicted, h, capacity)
        decreases |lru|
      {
        ghost var now, m' := St(), table.contents;
        Unpack();
        EvictOldest();
        Unpack();
        OneMoreEvicted(was, m, now, m', evicted, h, capacity, St(), table.contents);
        evicted := evicted + [now.lru[0]];
      }
      Unpack();
      EvictedMeans(was, m, St(), table.contents, evicted, h, capacity);
    }

    /** Prune: erases every unreferenced entry, and no other. */
    method Prune()
      requires Valid()
      modifies this`handles, this`lru, this`inUse, this`usage, this`freed, table
      ensures Valid() && held == old(held) && lru == []
      ensures forall k :: k in table.contents ==>
        k in old(table.contents) && table.contents[k] == old(table.contents)[k]
      ensures forall k :: k in old(table.contents) && old(table.contents)[k] !in old(lru) ==> k in table.contents
    {
      hide *;
      while |lru| > 0
        invariant Valid() && held == old(held) && forall x :: x in lru ==> x in old(lru)
        invariant forall k :: k in table.contents ==>
          k in old(table.contents) && table.contents[k] == old(table.contents)[k]
        invariant forall k :: k in old(table.contents) && old(table.contents)[k] !in old(lru) ==> k in table.contents
        decreases |lru|
      {
        Unpack();
        ListedIsTabled(St(), table.contents, lru[0]);
        EvictOldest();
      }
    }
  }

  /** What erasing the oldest unreferenced entry leaves as it was. */
  lemma {:induction false} FirstErased(st: Shard, m: Contents)
    requires Ok(st, m, None) && |st.lru| > 0
    ensures st.lru[0] in st.handles && Without(st.lru, st.lru[0]) == st.lru[1..]
    ensures var now := FinishErase(st, st.lru[0]);
      && now.usage == st.usage - st.handles[st.lru[0]].charge
      && (forall x :: x in st.lru[1..] ==> x in st.handles && x in now.handles && now.handles[x] == st.handles[x])
      && forall x :: x in st.handles && x != st.lru[0] ==> x in now.handles
  {
    hide Ok, Without;
    NoTwiceListed(st, m);
    ListedAreAlive(st, m);
    assert st.lru[0..] == st.lru;
    WithoutFirst(st.lru, 0);
  }

  lemma {:induction false} ListedAreAlive(st: Shard, m: Contents)
    requires Ok(st, m, None)
    ensures forall x :: x in st.lru ==> x in st.handles
  {
    hide NoDuplicates, Charged, Tabled;
    forall x | x in st.lru ensures x in st.handles {
      assert HandleOk(st, x);
    }
  }

  /** Between two moments these were evicted, oldest first and only while the usage
      was above the capacity; nothing else changed for what is cached, and `h` stayed. */
  ghost predicate Evicted(was: Shard, m: Contents, now: Shard, m': Contents, evicted: seq<nat>, h: nat, capacity: nat) {
    && evicted + now.lru == was.lru && h in now.handles
    && (forall x :: x in now.lru ==> x in now.handles && x in was.handles && now.handles[x] == was.handles[x])
    && (forall k :: k in m' ==> k in m && m'[k] == m[k])
    && (forall k :: k in m && m[k] == h ==> k in m')
    && (|evicted| > 0 ==> var last := evicted[|evicted| - 1];
                          last in was.lru && last in was.handles && now.usage + was.handles[last].charge > capacity)
  }

  lemma {:induction false} NoneEvicted(st: Shard, m: Contents, h: nat, capacity: nat)
    requires Ok(st, m, None) && h in st.handles
    ensures Evicted(st, m, st, m, [], h, capacity)
  {
    hide Ok;
    ListedAreAlive(st, m);
  }

  lemma {:induction false} OneMoreEvicted(was: Shard, m: Contents, now: Shard, m': Contents, evicted: seq<nat>, h: nat,
      capacity: nat, next: Shard, m'': Contents)
    requires Evicted(was, m, now, m', evicted, h, capacity) && Ok(now, m', None)
    requires now.usage > capacity && |now.lru| > 0 && now.lru[0] in now.handles && h !in now.lru
    requires next.lru == now.lru[1..] && next.usage == now.usage - now.handles[now.lru[0]].charge
    requires forall x :: x in next.lru ==> x in next.handles && x in now.handles && next.handles[x] == now.handles[x]
    requires forall x :: x in now.handles && x != now.lru[0] ==> x in next.handles
    requires var e := now.handles[now.lru[0]]; m'' == m' - {(e.key, e.hash)}
    ensures h !in next.lru && Evicted(was, m, next, m'', evicted + [now.lru[0]], h, capacity)
  {
    hide Ok;
    var first := now.lru[0];
    assert first in now.lru;
    ListedIsTabled(now, m', first);
    assert evicted + [first] + next.lru == evicted + now.lru;
    assert first in was.lru;
  }

  lemma {:induction false} EvictedMeans(was: Shard, m: Contents, now: Shard, m': Contents, evicted: seq<nat>, h: nat, capacity: nat)
    requires Evicted(was, m, now, m', evicted, h, capacity)
    ensures evicted + now.lru == was.lru && h in now.handles
    ensures forall k :: k in m' ==> k in m && m'[k] == m[k]
    ensures forall k :: k in m && m[k] == h ==> k in m'
    ensures |evicted| > 0 ==> var last := evicted[|evicted| - 1];
              last in was.lru && last in was.handles && now.usage + was.handles[last].charge > capacity
  {
  }

  /** What a client holds is never on the LRU list, so never evicted. */
  lemma {:induction false} HeldIsNotListed(st: Shard, m: Contents, h: nat)
    requires Ok(st, m, None) && h in st.held
    ensures h !in st.lru && h in st.handles
  {
    hide NoDuplicates, Charged, Tabled;
    assert HandleOk(st, h);
  }

  lemma {:induction false} AllocateIs(st: Shard, h: nat, key: Key, hash: Word, charge: nat)
    ensures Allocate(st, h, key, hash, charge, false) ==
              Shard(st.handles[h := LruHandle(key, hash, charge, false, 1)], st.lru, st.inUse, st.usage, st.held + multiset{h})
    ensures Allocate(st, h, key, hash, charge, true) ==
              Shard(st.handles[h := LruHandle(key, hash, charge, true, 2)], st.lru, st.inUse + [h], st.usage + charge, st.held + multiset{h})
  {
  }

  lemma {:induction false} IdOf(h: nat, key: Key, hash: Word)
    ensures Id(Slot(h, key, hash)) == (key, hash)
  {
  }

  /** The entry replaced is not the one that replaces it. */
  lemma {:induction false} ReplacedIsOther(st: Shard, m: Contents, x: nat, key: Key, hash: Word)
    requires Ok(st, m, Some(x)) && (key, hash) in m
    ensures m[(key, hash)] != x && x in st.handles
  {
    hide HandlesOk, Charged;
  }

  lemma {:induction false} ErasedElsewhere(st: Shard, h: nat)
    requires h in st.handles
    ensures var st' := FinishErase(st, h);
            && st'.lru == Without(st.lru, h)
            && forall x :: x in st.handles && x != h ==> x in st'.handles && st'.handles[x] == st.handles[x]
    ensures forall x :: x in Without(st.lru, h) ==> x != h
  {
  }

  lemma {:induction false} NewBlock(alive: set<nat>, next: nat, freed: seq<nat>)
    requires Blocks(alive, next, freed)
    ensures next !in alive && Blocks(alive + {next}, next + 1, freed)
  {
  }

  lemma {:induction false} EnteredOk(st: Shard, m: Contents, h: nat, key: Key, hash: Word, charge: nat)
    requires Ok(st, m, None) && h !in st.handles
    ensures Ok(Allocate(st, h, key, hash, charge, true), m[(key, hash) := h], if (key, hash) in m then Some(m[(key, hash)]) else None)
  {
    AllocateKeepsOk(st, m, h, key, hash, charge, true);
    EntersTable(st, m, h, key, hash, charge);
    hide HandlesOk, Charged, Tabled, Allocate;
  }

  lemma {:induction false} NotEnteredOk(st: Shard, m: Contents, h: nat, key: Key, hash: Word, charge: nat)
    requires Ok(st, m, None) && h !in st.handles
    ensures Ok(Allocate(st, h, key, hash, charge, false), m, None)
  {
    AllocateKeepsOk(st, m, h, key, hash, charge, false);
    StaysOut(st, m, h, key, hash, charge);
    hide HandlesOk, Charged, Tabled, Allocate;
  }

  lemma {:induction false} NothingLeaves(m: Contents, k: (Key, Word))
    requires k !in m
    ensures m - {k} == m
  {
  }

  lemma {:induction false} InTable(st: Shard, contents: Contents, k: (Key, Word))
    requires Ok(st, contents, None) && k in contents
    ensures contents[k] in st.handles
  {
    hide HandlesOk, Charged;
  }

  lemma {:induction false} NoTwiceListed(st: Shard, contents: Contents)
    requires Ok(st, contents, None)
    ensures NoDuplicates(st.lru)
  {
    hide HandleOk, Charged, Tabled;
  }
}
