/** The memtable's skip list (db/skiplist.h): one writer, any number of readers,
    no locks between them.

    Nodes live in an arena and are never moved or freed; a node is modelled by
    its position in the arena, the head being position 0. */
module SkipList {
  import opened InternalKeys

  type Key = real

  /** kMaxHeight */
  const MAX_HEIGHT: nat := 12

  datatype Node = Node(key: Key, next: seq<Option<nat>>)

  /** The arena, and which nodes are linked into the list of each level. */
  datatype Memory = Memory(nodes: seq<Node>, linked: seq<set<nat>>)

  /** `k` comes after `n`; the head comes before every node. */
  predicate After(nodes: seq<Node>, n: nat, k: nat)
    requires n < |nodes| && k < |nodes|
  {
    n == 0 || nodes[n].key < nodes[k].key
  }

  ghost predicate Shape(m: Memory) {
    && |m.nodes| > 0 && |m.nodes[0].next| == MAX_HEIGHT == |m.linked|
    && (forall i, n {:trigger n in m.linked[i]} :: 0 <= i < MAX_HEIGHT && n in m.linked[i] ==> 0 < n < |m.nodes| && i < |m.nodes[n].next|)
  }

  ghost predicate OnLevel(m: Memory, i: nat, n: nat)
    requires Shape(m) && i < MAX_HEIGHT
  {
    n == 0 || n in m.linked[i]
  }

  /** The link of `n` at level `i` leads to the next node of that level. */
  ghost predicate LinkOk(m: Memory, i: nat, n: nat)
    requires Shape(m) && i < MAX_HEIGHT && OnLevel(m, i, n)
  {
    match m.nodes[n].next[i]
    case None => forall k :: k in m.linked[i] ==> !After(m.nodes, n, k)
    case Some(x) => x in m.linked[i] && After(m.nodes, n, x) &&
                    forall k :: k in m.linked[i] && After(m.nodes, n, k) ==> m.nodes[x].key <= m.nodes[k].key
  }

  /** Every level is a sub-list of the one below, without equal keys, and its
      links lead from each node to the next. */
  ghost predicate Ok(m: Memory) {
    && Shape(m)
    && (forall i :: 0 <= i < MAX_HEIGHT - 1 ==> m.linked[i + 1] <= m.linked[i])
    && (forall a, b :: a in m.linked[0] && b in m.linked[0] && m.nodes[a].key == m.nodes[b].key ==> a == b)
    && (forall i, n :: 0 <= i < MAX_HEIGHT && OnLevel(m, i, n) ==> LinkOk(m, i, n))
  }

  lemma {:induction false} LowerLevels(m: Memory, i: nat, j: nat, n: nat)
    requires Ok(m) && j <= i < MAX_HEIGHT && OnLevel(m, i, n)
    ensures OnLevel(m, j, n)
    decreases i
  {
    if j < i { LowerLevels(m, i - 1, j, n); }
  }

  lemma {:induction false} LinkOf(m: Memory, i: nat, n: nat)
    requires Ok(m) && i < MAX_HEIGHT && OnLevel(m, i, n)
    ensures Shape(m) && LinkOk(m, i, n)
  {
  }

  /** The nodes of level `i` after `n`. */
  ghost function Later(m: Memory, i: nat, n: nat): set<nat>
    requires Shape(m) && i < MAX_HEIGHT && n < |m.nodes|
  {
    set k | k in m.linked[i] && After(m.nodes, n, k)
  }

  lemma {:induction false} LaterShrinks(m: Memory, i: nat, n: nat)
    requires Ok(m) && i < MAX_HEIGHT && OnLevel(m, i, n) && m.nodes[n].next[i].Some?
    ensures var x := m.nodes[n].next[i].value; OnLevel(m, i, x) && Later(m, i, x) < Later(m, i, n)
  {
    assert LinkOk(m, i, n);
    var x := m.nodes[n].next[i].value;
    assert x in Later(m, i, n) && x !in Later(m, i, x);
    forall k | k in Later(m, i, x) ensures k in Later(m, i, n) {
    }
  }

  // ----- what searches return -----

  /** `r` is the first node at or after `key`. */
  ghost predicate FirstAtOrAfter(m: Memory, key: Key, r: Option<nat>)
    requires Shape(m)
  {
    match r
    case None => forall k :: k in m.linked[0] ==> m.nodes[k].key < key
    case Some(x) => x in m.linked[0] && m.nodes[x].key >= key &&
                    forall k :: k in m.linked[0] && m.nodes[k].key >= key ==> m.nodes[x].key <= m.nodes[k].key
  }

  /** `p` is the last node of level `i` before `key`, or the head. */
  ghost predicate LastBefore(m: Memory, i: nat, key: Key, p: nat)
    requires Shape(m) && i < MAX_HEIGHT
  {
    && OnLevel(m, i, p) && (p != 0 ==> m.nodes[p].key < key)
    && forall k :: k in m.linked[i] && m.nodes[k].key < key ==> !After(m.nodes, p, k)
  }

  /** A search for `key` may stand at `x` on level `i`. */
  ghost predicate MayStand(m: Memory, i: nat, key: Key, x: nat)
    requires Shape(m) && i < MAX_HEIGHT
  {
    OnLevel(m, i, x) && (x != 0 ==> m.nodes[x].key < key)
  }

  /** KeyIsAfterNode: a missing node is infinite. */
  predicate KeyIsAfterNode(nodes: seq<Node>, key: Key, n: Option<nat>)
    requires n.Some? ==> n.value < |nodes|
  {
    n.Some? && nodes[n.value].key < key
  }

  lemma {:induction false} SearchStops(m: Memory, i: nat, key: Key, x: nat)
    requires Ok(m) && i < MAX_HEIGHT && MayStand(m, i, key, x)
    requires m.nodes[x].next[i].Some? ==> m.nodes[x].next[i].value < |m.nodes|
    requires !KeyIsAfterNode(m.nodes, key, m.nodes[x].next[i])
    ensures LastBefore(m, i, key, x)
    ensures i == 0 ==> FirstAtOrAfter(m, key, m.nodes[x].next[i])
  {
    assert LinkOk(m, i, x);
  }

  lemma {:induction false} NextExists(m: Memory, i: nat, x: nat)
    requires Ok(m) && i < MAX_HEIGHT && OnLevel(m, i, x)
    ensures x < |m.nodes| && i < |m.nodes[x].next|
    ensures m.nodes[x].next[i].Some? ==> m.nodes[x].next[i].value < |m.nodes| && OnLevel(m, i, m.nodes[x].next[i].value)
  {
    assert LinkOk(m, i, x);
  }

  // ----- the writer's stores -----

  /** NewNode: in the arena, not linked yet. */
  function Allocated(m: Memory, key: Key, height: nat): Memory {
    m.(nodes := m.nodes + [Node(key, seq(height, _ => None))])
  }

  /** The new node's own link, set before anybody can reach it. */
  function OwnLinkSet(m: Memory, x: nat, i: nat, p: nat): Memory
    requires x < |m.nodes| && p < |m.nodes| && i < |m.nodes[x].next| && i < |m.nodes[p].next|
  {
    m.(nodes := m.nodes[x := m.nodes[x].(next := m.nodes[x].next[i := m.nodes[p].next[i]])])
  }

  /** The predecessor's link, which makes the node reachable on level `i`. */
  function Published(m: Memory, x: nat, i: nat, p: nat): Memory
    requires p < |m.nodes| && i < |m.nodes[p].next| && i < |m.linked|
  {
    Memory(m.nodes[p := m.nodes[p].(next := m.nodes[p].next[i := Some(x)])], m.linked[i := m.linked[i] + {x}])
  }

  /** The list only grows and nodes never change their keys. */
  ghost predicate Grows(m: Memory, m': Memory) {
    && |m.nodes| <= |m'.nodes| && |m.linked| == |m'.linked|
    && (forall n :: 0 <= n < |m.nodes| ==> m'.nodes[n].key == m.nodes[n].key && |m'.nodes[n].next| == |m.nodes[n].next|)
    && (forall i :: 0 <= i < |m.linked| ==> m.linked[i] <= m'.linked[i])
  }

  lemma {:induction false} AllocationKeepsOk(m: Memory, key: Key, height: nat)
    requires Ok(m)
    ensures Ok(Allocated(m, key, height)) && Grows(m, Allocated(m, key, height))
  {
    var m' := Allocated(m, key, height);
    forall i, n | 0 <= i < MAX_HEIGHT && OnLevel(m', i, n) ensures LinkOk(m', i, n) {
      assert OnLevel(m, i, n) && LinkOk(m, i, n);
    }
  }

  lemma {:induction false} OwnLinkKeepsOk(m: Memory, x: nat, i: nat, p: nat)
    requires Ok(m) && i < MAX_HEIGHT && 0 < x < |m.nodes| && i < |m.nodes[x].next| && x !in m.linked[i]
    requires OnLevel(m, i, p)
    ensures Ok(OwnLinkSet(m, x, i, p)) && Grows(m, OwnLinkSet(m, x, i, p))
  {
    hide LinkOk;
    var m' := OwnLinkSet(m, x, i, p);
    forall j, n | 0 <= j < MAX_HEIGHT && OnLevel(m', j, n) ensures LinkOk(m', j, n) {
      assert OnLevel(m, j, n) && LinkOk(m, j, n);
      OtherLinkKept(m, x, i, p, j, n);
    }
  }

  lemma {:induction false} OtherLinkKept(m: Memory, x: nat, i: nat, p: nat, j: nat, n: nat)
    requires Shape(m) && i < MAX_HEIGHT && 0 < x < |m.nodes| && i < |m.nodes[x].next| && x !in m.linked[i]
    requires OnLevel(m, i, p) && j < MAX_HEIGHT && OnLevel(m, j, n) && LinkOk(m, j, n)
    ensures var m' := OwnLinkSet(m, x, i, p); Shape(m') && OnLevel(m', j, n) && LinkOk(m', j, n)
  {
    var m' := OwnLinkSet(m, x, i, p);
    assert m'.nodes[n].next[j] == m.nodes[n].next[j];
    assert forall k :: k in m.linked[j] ==> m'.nodes[k].key == m.nodes[k].key;
  }

  /** The step that publishes: the node goes between its predecessor and what the
      predecessor led to, which its own link already names. */
  lemma {:induction false} PublishKeepsOk(m: Memory, x: nat, i: nat, p: nat)
    requires Ok(m) && i < MAX_HEIGHT && 0 < x < |m.nodes| && i < |m.nodes[x].next| && x !in m.linked[i]
    requires if i == 0 then forall k :: k in m.linked[0] ==> m.nodes[k].key != m.nodes[x].key else x in m.linked[i - 1]
    requires i < MAX_HEIGHT - 1 ==> x !in m.linked[i + 1]
    requires OnLevel(m, i, p) && LastBefore(m, i, m.nodes[x].key, p) && m.nodes[x].next[i] == m.nodes[p].next[i]
    ensures Ok(Published(m, x, i, p)) && Grows(m, Published(m, x, i, p))
  {
    hide LinkOk, LastBefore;
    var m' := Published(m, x, i, p);
    DistinctOnLevel(m, x, i);
    PublishedShape(m, x, i, p);
    forall j, n | 0 <= j < MAX_HEIGHT && OnLevel(m', j, n) ensures LinkOk(m', j, n) {
      if j != i {
        OtherLevelLink(m, x, i, p, j, n);
      } else {
        PublishedLink(m, x, i, p, n);
      }
    }
  }

  lemma {:induction false} PublishedShape(m: Memory, x: nat, i: nat, p: nat)
    requires Shape(m) && i < MAX_HEIGHT && 0 < x < |m.nodes| && i < |m.nodes[x].next| && OnLevel(m, i, p)
    ensures Shape(Published(m, x, i, p)) && Grows(m, Published(m, x, i, p))
  {
  }

  lemma {:induction false} OtherLevelLink(m: Memory, x: nat, i: nat, p: nat, j: nat, n: nat)
    requires Ok(m) && i < MAX_HEIGHT && 0 < x < |m.nodes| && i < |m.nodes[x].next| && OnLevel(m, i, p)
    requires j < MAX_HEIGHT && j != i && OnLevel(m, j, n)
    ensures var m' := Published(m, x, i, p); Shape(m') && OnLevel(m', j, n) && LinkOk(m', j, n)
  {
    assert LinkOk(m, j, n);
  }

  lemma {:induction false} DistinctOnLevel(m: Memory, x: nat, i: nat)
    requires Ok(m) && i < MAX_HEIGHT && 0 < x < |m.nodes| && x !in m.linked[i]
    requires if i == 0 then forall k :: k in m.linked[0] ==> m.nodes[k].key != m.nodes[x].key else x in m.linked[i - 1]
    ensures forall k :: k in m.linked[i] ==> m.nodes[k].key != m.nodes[x].key
  {
    if i > 0 {
      LowerLevels(m, i - 1, 0, x);
      forall k | k in m.linked[i] ensures m.nodes[k].key != m.nodes[x].key {
        LowerLevels(m, i, 0, k);
      }
    }
  }

  /** Any other node of the level before `x` is before the predecessor. */
  lemma {:induction false} BeforePredecessor(m: Memory, x: nat, i: nat, p: nat, n: nat)
    requires Ok(m) && i < MAX_HEIGHT && 0 < x < |m.nodes| && LastBefore(m, i, m.nodes[x].key, p)
    requires OnLevel(m, i, n) && n != p && After(m.nodes, n, x)
    ensures p != 0 && After(m.nodes, n, p)
  {
    if n != 0 {
      assert !After(m.nodes, p, n);
      LowerLevels(m, i, 0, n);
      LowerLevels(m, i, 0, p);
    }
  }

  lemma {:induction false} LastIsBefore(m: Memory, i: nat, key: Key, p: nat)
    requires Shape(m) && i < MAX_HEIGHT && LastBefore(m, i, key, p)
    ensures p != 0 ==> m.nodes[p].key < key
    ensures forall k :: k in m.linked[i] && m.nodes[k].key < key ==> !After(m.nodes, p, k)
  {
  }

  lemma {:induction false} PublishedLink(m: Memory, x: nat, i: nat, p: nat, n: nat)
    requires Ok(m) && Shape(m) && i < MAX_HEIGHT && 0 < x < |m.nodes| && i < |m.nodes[x].next| && x !in m.linked[i]
    requires forall k :: k in m.linked[i] ==> m.nodes[k].key != m.nodes[x].key
    requires LastBefore(m, i, m.nodes[x].key, p) && m.nodes[x].next[i] == m.nodes[p].next[i]
    requires OnLevel(m, i, p) && (OnLevel(m, i, n) || n == x)
    ensures var m' := Published(m, x, i, p); Shape(m') && OnLevel(m', i, n) && LinkOk(m', i, n)
  {
    hide Ok, LastBefore;
    LinkOf(m, i, p);
    LastIsBefore(m, i, m.nodes[x].key, p);
    if n != x && n != p {
      LinkOf(m, i, n);
      if After(m.nodes, n, x) { BeforePredecessor(m, x, i, p, n); }
    }
  }

  // ----- walking a level -----

  /** The nodes met by following the links of level `i` from `n`. */
  ghost function Walk(m: Memory, i: nat, n: nat): seq<nat>
    requires Ok(m) && i < MAX_HEIGHT && OnLevel(m, i, n)
    decreases |Later(m, i, n)|
  {
    NextExists(m, i, n);
    if m.nodes[n].next[i].None? then []
    else
      var x := m.nodes[n].next[i].value;
      LaterShrinks(m, i, n);
      SubsetSize(Later(m, i, x), Later(m, i, n));
      [x] + Walk(m, i, x)
  }

  ghost predicate Ascending(nodes: seq<Node>, r: seq<nat>) {
    && (forall a :: 0 <= a < |r| ==> r[a] < |nodes|)
    && (forall a, b :: 0 <= a < b < |r| ==> nodes[r[a]].key < nodes[r[b]].key)
  }

  lemma {:induction false} NoneAscending(nodes: seq<Node>)
    ensures Ascending(nodes, [])
  {
  }

  lemma {:induction false} ConsAscending(nodes: seq<Node>, x: nat, rest: seq<nat>)
    requires x < |nodes| && Ascending(nodes, rest)
    requires forall b :: 0 <= b < |rest| ==> nodes[x].key < nodes[rest[b]].key
    ensures Ascending(nodes, [x] + rest)
  {
  }

  /** Each level, walked from any of its nodes, gives all its later nodes in
      strictly ascending order: a sorted sub-list of level 0. */
  lemma {:induction false} WalkIsSorted(m: Memory, i: nat, n: nat)
    requires Ok(m) && i < MAX_HEIGHT && OnLevel(m, i, n)
    ensures forall k :: k in Walk(m, i, n) <==> k in Later(m, i, n)
    ensures Ascending(m.nodes, Walk(m, i, n))
    decreases |Later(m, i, n)|
  {
    hide Ok, Ascending;
    NextExists(m, i, n);
    ShapeOf(m);
    if m.nodes[n].next[i].None? {
      NoneLater(m, i, n);
      NoneAscending(m.nodes);
    } else {
      var x := m.nodes[n].next[i].value;
      LaterShrinks(m, i, n);
      SubsetSize(Later(m, i, x), Later(m, i, n));
      LaterIs(m, i, n);
      WalkIsSorted(m, i, x);
      var rest := Walk(m, i, x);
      forall b | 0 <= b < |rest| ensures rest[b] < |m.nodes| && m.nodes[x].key < m.nodes[rest[b]].key {
        assert rest[b] in rest;
        assert rest[b] in Later(m, i, x);
      }
      ConsAscending(m.nodes, x, rest);
    }
  }

  lemma {:induction false} NoneLater(m: Memory, i: nat, n: nat)
    requires Ok(m) && i < MAX_HEIGHT && OnLevel(m, i, n) && m.nodes[n].next[i].None?
    ensures Later(m, i, n) == {}
  {
    assert LinkOk(m, i, n);
  }

  lemma {:induction false} LaterIs(m: Memory, i: nat, n: nat)
    requires Ok(m) && i < MAX_HEIGHT && OnLevel(m, i, n) && m.nodes[n].next[i].Some?
    ensures var x := m.nodes[n].next[i].value; x in m.linked[i] && Later(m, i, n) == {x} + Later(m, i, x)
  {
    assert LinkOk(m, i, n);
    var x := m.nodes[n].next[i].value;
    forall k | k in Later(m, i, n) && k != x ensures k in Later(m, i, x) {
      LowerLevels(m, i, 0, k);
      LowerLevels(m, i, 0, x);
    }
  }

  lemma {:induction false} SubsetSize<T>(a: set<T>, b: set<T>)
    requires a < b
    ensures |a| < |b|
  {
    var x :| x in b && x !in a;
    assert b == a + {x} + (b - a - {x});
  }

  // ----- inserting, store by store -----

  /** Where the writer is: `own` says that the new node's link of `level` is set. */
  datatype Writer = Idle | Inserting(x: nat, prev: seq<nat>, level: nat, own: bool)

  /** Insert in progress: below `level` the node is reachable, from `level` up it
      is not, and the predecessors found at the start are still right. */
  ghost predicate WriterOk(m: Memory, w: Writer)
    requires Shape(m)
  {
    w.Inserting? ==>
      && 0 < w.x < |m.nodes| && w.level < |m.nodes[w.x].next| == |w.prev| <= MAX_HEIGHT
      && (w.level == 0 ==> forall k :: k in m.linked[0] ==> m.nodes[k].key != m.nodes[w.x].key)
      && (forall j :: 0 <= j < MAX_HEIGHT ==> (w.x in m.linked[j] <==> j < w.level))
      && (forall j :: w.level <= j < |w.prev| ==> LastBefore(m, j, m.nodes[w.x].key, w.prev[j]))
      && (w.own ==> m.nodes[w.x].next[w.level] == m.nodes[w.prev[w.level]].next[w.level])
  }

  /** One store of the writer. */
  ghost predicate WriterStep(m: Memory, w: Writer, m': Memory, w': Writer)
    requires Shape(m) && WriterOk(m, w)
  {
    match w
    case Idle =>
      exists key, prev :: Begins(m, key, prev) && m' == Allocated(m, key, |prev|) && w' == Inserting(|m.nodes|, prev, 0, false)
    case Inserting(x, prev, level, own) =>
      if !own then m' == OwnLinkSet(m, x, level, prev[level]) && w' == w.(own := true)
      else m' == Published(m, x, level, prev[level]) &&
           w' == if level + 1 == |prev| then Idle else Inserting(x, prev, level + 1, false)
  }

  /** A new key, and its predecessors on the levels it will be on. */
  ghost predicate Begins(m: Memory, key: Key, prev: seq<nat>)
    requires Shape(m)
  {
    && (forall k :: k in m.linked[0] ==> m.nodes[k].key != key)
    && 1 <= |prev| <= MAX_HEIGHT && forall j :: 0 <= j < |prev| ==> LastBefore(m, j, key, prev[j])
  }

  lemma {:induction false} BeginStep(m: Memory, key: Key, prev: seq<nat>)
    requires Ok(m) && Begins(m, key, prev)
    ensures var m' := Allocated(m, key, |prev|); Ok(m') && Grows(m, m') && WriterOk(m', Inserting(|m.nodes|, prev, 0, false))
  {
    AllocationKeepsOk(m, key, |prev|);
    hide Ok, Grows;
    ShapeOf(m);
    var m' := Allocated(m, key, |prev|);
    ShapeOf(m');
    forall j | 0 <= j < |prev| ensures LastBefore(m', j, key, prev[j]) {
      assert LastBefore(m, j, key, prev[j]);
    }
  }

  lemma {:induction false} OwnStep(m: Memory, w: Writer)
    requires Ok(m) && WriterOk(m, w) && w.Inserting? && !w.own
    ensures var m' := OwnLinkSet(m, w.x, w.level, w.prev[w.level]);
            Ok(m') && Grows(m, m') && WriterOk(m', w.(own := true))
  {
    hide Ok, Grows;
    ShapeOf(m);
    var m' := OwnLinkSet(m, w.x, w.level, w.prev[w.level]);
    assert LastBefore(m, w.level, m.nodes[w.x].key, w.prev[w.level]);
    OwnLinkKeepsOk(m, w.x, w.level, w.prev[w.level]);
    ShapeOf(m');
    forall j | w.level <= j < |w.prev| ensures LastBefore(m', j, m'.nodes[w.x].key, w.prev[j]) {
      assert LastBefore(m, j, m.nodes[w.x].key, w.prev[j]);
    }
  }

  lemma {:induction false} PublishStep(m: Memory, w: Writer)
    requires Ok(m) && WriterOk(m, w) && w.Inserting? && w.own
    ensures var m' := Published(m, w.x, w.level, w.prev[w.level]);
            && Ok(m') && Grows(m, m') && m'.linked[w.level] == m.linked[w.level] + {w.x}
            && WriterOk(m', if w.level + 1 == |w.prev| then Idle else Inserting(w.x, w.prev, w.level + 1, false))
  {
    hide Ok, Grows;
    ShapeOf(m);
    var m' := Published(m, w.x, w.level, w.prev[w.level]);
    assert LastBefore(m, w.level, m.nodes[w.x].key, w.prev[w.level]);
    PublishKeepsOk(m, w.x, w.level, w.prev[w.level]);
    ShapeOf(m');
    forall j | w.level + 1 <= j < |w.prev| ensures LastBefore(m', j, m'.nodes[w.x].key, w.prev[j]) {
      assert LastBefore(m, j, m.nodes[w.x].key, w.prev[j]);
    }
  }

  /** Every store leaves every level a sorted sub-list and only adds to them. */
  lemma {:induction false} WriterStepKeepsOk(m: Memory, w: Writer, m': Memory, w': Writer)
    requires Ok(m) && WriterOk(m, w) && WriterStep(m, w, m', w')
    ensures Ok(m') && Grows(m, m') && WriterOk(m', w')
  {
    hide Ok, Grows, Begins;
    ShapeOf(m);
    if w.Idle? {
      var key, prev :| Begins(m, key, prev) && m' == Allocated(m, key, |prev|) && w' == Inserting(|m.nodes|, prev, 0, false);
      BeginStep(m, key, prev);
    } else if !w.own {
      OwnStep(m, w);
    } else {
      PublishStep(m, w);
    }
  }

  // ----- readers beside the writer -----

  /** A search for `key`: standing at a node on a level, or finished. */
  datatype Reader = Searching(at: nat, level: nat) | Returned(r: Option<nat>)

  ghost predicate ReaderOk(m: Memory, key: Key, rd: Reader)
    requires Shape(m)
  {
    rd.Searching? ==> rd.level < MAX_HEIGHT && MayStand(m, rd.level, key, rd.at)
  }

  /** One turn of FindGreaterOrEqual's loop: a single load of a link. */
  ghost predicate ReaderStep(m: Memory, key: Key, rd: Reader, rd': Reader)
    requires Ok(m) && ReaderOk(m, key, rd)
  {
    rd.Searching? &&
    (NextExists(m, rd.level, rd.at);
     var next := m.nodes[rd.at].next[rd.level];
     rd' == if KeyIsAfterNode(m.nodes, key, next) then Searching(next.value, rd.level)
            else if rd.level == 0 then Returned(next)
            else Searching(rd.at, rd.level - 1))
  }

  lemma {:induction false} ReaderStaysOk(m: Memory, m': Memory, key: Key, rd: Reader)
    requires Shape(m) && Shape(m') && Grows(m, m') && ReaderOk(m, key, rd)
    ensures ReaderOk(m', key, rd)
  {
  }

  lemma {:induction false} ReaderStepOk(m: Memory, key: Key, rd: Reader, rd': Reader)
    requires Ok(m) && ReaderOk(m, key, rd) && ReaderStep(m, key, rd, rd')
    ensures Shape(m) && ReaderOk(m, key, rd')
    ensures rd'.Returned? ==> FirstAtOrAfter(m, key, rd'.r)
  {
    hide Ok, FirstAtOrAfter, LastBefore;
    ShapeOf(m);
    NextExists(m, rd.level, rd.at);
    var next := m.nodes[rd.at].next[rd.level];
    if !KeyIsAfterNode(m.nodes, key, next) {
      SearchStops(m, rd.level, key, rd.at);
      if rd.level > 0 { LowerLevels(m, rd.level, rd.level - 1, rd.at); }
    }
  }

  /** The shared list, its writer, and one reader. */
  datatype Moment = Moment(mem: Memory, writer: Writer, reader: Reader)

  ghost predicate MomentOk(t: Moment, key: Key) {
    Ok(t.mem) && Shape(t.mem) && WriterOk(t.mem, t.writer) && ReaderOk(t.mem, key, t.reader)
  }

  /** Either the writer stores or the reader loads. */
  ghost predicate Tick(t: Moment, t': Moment, key: Key)
    requires MomentOk(t, key)
  {
    || (WriterStep(t.mem, t.writer, t'.mem, t'.writer) && t'.reader == t.reader)
    || (ReaderStep(t.mem, key, t.reader, t'.reader) && t'.mem == t.mem && t'.writer == t.writer)
  }

  lemma {:induction false} TickKeepsOk(t: Moment, t': Moment, key: Key)
    requires MomentOk(t, key) && Tick(t, t', key)
    ensures MomentOk(t', key) && Grows(t.mem, t'.mem)
  {
    hide Ok, Shape, WriterOk, ReaderOk, WriterStep, ReaderStep, Grows;
    if WriterStep(t.mem, t.writer, t'.mem, t'.writer) && t'.reader == t.reader {
      WriterStepKeepsOk(t.mem, t.writer, t'.mem, t'.writer);
      ShapeOf(t'.mem);
      ReaderStaysOk(t.mem, t'.mem, key, t.reader);
    } else {
      ReaderStepOk(t.mem, key, t.reader, t'.reader);
      GrowsSelf(t.mem);
    }
  }

  lemma {:induction false} GrowsSelf(m: Memory)
    ensures Grows(m, m)
  {
  }

  lemma {:induction false} GrowsOn(a: Memory, b: Memory, c: Memory)
    requires Grows(a, b) && Grows(b, c)
    ensures Grows(a, c)
  {
  }

  /** An interleaving: the reader starts at the head, on any level, while the
      writer may be anywhere inside an Insert. */
  ghost predicate Interleaving(run: seq<Moment>, key: Key) {
    && |run| > 0 && MomentOk(run[0], key) && run[0].reader.Searching? && run[0].reader.at == 0
    && forall i :: 0 <= i < |run| - 1 && MomentOk(run[i], key) ==> Tick(run[i], run[i + 1], key)
  }

  /** What the reader returned is the first node at or after the key among all
      nodes then in the list, which include all there were at the start. */
  ghost predicate NothingMissed(start: Memory, m: Memory, key: Key, r: Option<nat>)
    requires Shape(start) && Shape(m)
  {
    match r
    case None => forall k :: k in start.linked[0] ==> start.nodes[k].key < key
    case Some(x) => x in m.linked[0] && m.nodes[x].key >= key &&
                    forall k :: k in start.linked[0] && start.nodes[k].key >= key ==> m.nodes[x].key <= start.nodes[k].key
  }

  lemma {:induction false} MissedNothingYet(start: Memory, m: Memory, key: Key, r: Option<nat>)
    requires Shape(start) && Shape(m) && Grows(start, m) && FirstAtOrAfter(m, key, r)
    ensures NothingMissed(start, m, key, r)
  {
  }

  lemma {:induction false} StillMissedNothing(start: Memory, m: Memory, m': Memory, key: Key, r: Option<nat>)
    requires Shape(start) && Shape(m) && Shape(m') && Grows(m, m') && NothingMissed(start, m, key, r)
    ensures NothingMissed(start, m', key, r)
  {
  }

  /** Searches beside an insert are right: whenever the reader has returned, it
      returned a node at or after the key and skipped none present at the start. */
  lemma {:induction false} ReaderNeverMisses(run: seq<Moment>, key: Key, n: nat)
    requires Interleaving(run, key) && n < |run|
    ensures MomentOk(run[n], key) && Grows(run[0].mem, run[n].mem)
    ensures Shape(run[0].mem) && Shape(run[n].mem)
    ensures run[n].reader.Returned? ==> NothingMissed(run[0].mem, run[n].mem, key, run[n].reader.r)
  {
    hide Ok, Shape, WriterOk, ReaderOk, WriterStep, ReaderStep, Grows, NothingMissed, FirstAtOrAfter;
    if n == 0 {
      GrowsSelf(run[0].mem);
    } else {
      ReaderNeverMisses(run, key, n - 1);
      var t, t' := run[n - 1], run[n];
      assert Tick(run[n - 1], run[n - 1 + 1], key);
      TickKeepsOk(t, t', key);
      GrowsOn(run[0].mem, t.mem, t'.mem);
      if t.reader.Returned? && t'.reader == t.reader {
        StillMissedNothing(run[0].mem, t.mem, t'.mem, key, t.reader.r);
      } else if t'.reader.Returned? {
        ReaderMoved(t, t', key);
        ReaderStepOk(t.mem, key, t.reader, t'.reader);
        MissedNothingYet(run[0].mem, t'.mem, key, t'.reader.r);
      }
    }
  }

  lemma {:induction false} ReaderMoved(t: Moment, t': Moment, key: Key)
    requires MomentOk(t, key) && Tick(t, t', key) && t'.reader != t.reader
    ensures t'.mem == t.mem && ReaderStep(t.mem, key, t.reader, t'.reader)
  {
  }

  // ----- the list object -----

  class List {
    var nodes: seq<Node>
    var maxHeight: nat
    ghost var linked: seq<set<nat>>

    ghost function Mem(): Memory
      reads this
    {
      Memory(nodes, linked)
    }

    ghost predicate Valid()
      reads this
    {
      Ok(Mem()) && 1 <= maxHeight <= MAX_HEIGHT && forall i :: maxHeight <= i < MAX_HEIGHT ==> linked[i] == {}
    }

    /** The keys in the list. */
    ghost function Keys(): set<Key>
      requires Valid()
      reads this
    {
      set n | n in linked[0] :: nodes[n].key
    }

    constructor ()
      ensures Valid() && Keys() == {}
    {
      nodes := [Node(0.0, seq(MAX_HEIGHT, _ => None))];
      maxHeight := 1;
      linked := seq(MAX_HEIGHT, _ => {});
    }

    /** FindGreaterOrEqual, also noting where each level was left. */
    method FindGreaterOrEqual(key: Key) returns (r: Option<nat>, prev: seq<nat>)
      requires Valid()
      ensures FirstAtOrAfter(Mem(), key, r)
      ensures |prev| == maxHeight && forall i :: 0 <= i < maxHeight ==> LastBefore(Mem(), i, key, prev[i])
    {
      hide Ok, FirstAtOrAfter, LastBefore;
      ghost var m := Mem();
      assert Shape(m) by { ShapeOf(m); }
      var x: nat := 0;
      var level := maxHeight - 1;
      prev := seq(maxHeight, _ => 0);
      while true
        invariant 0 <= level < maxHeight == |prev| && MayStand(m, level, key, x)
        invariant forall i :: level < i < maxHeight ==> LastBefore(m, i, key, prev[i])
        decreases level, Later(m, level, x)
      {
        NextExists(m, level, x);
        var next := nodes[x].next[level];
        if KeyIsAfterNode(nodes, key, next) {
          LaterShrinks(m, level, x);
          x := next.value;
        } else {
          SearchStops(m, level, key, x);
          prev := prev[level := x];
          if level == 0 {
            return next, prev;
          }
          LowerLevels(m, level, level - 1, x);
          level := level - 1;
        }
      }
    }

    method FindLessThan(key: Key) returns (x: nat)
      requires Valid()
      ensures LastBefore(Mem(), 0, key, x)
    {
      hide Ok, LastBefore;
      ghost var m := Mem();
      assert Shape(m) by { ShapeOf(m); }
      x := 0;
      var level := maxHeight - 1;
      while true
        invariant 0 <= level < maxHeight && MayStand(m, level, key, x)
        decreases level, Later(m, level, x)
      {
        NextExists(m, level, x);
        var next := nodes[x].next[level];
        if next.None? || nodes[next.value].key >= key {
          SearchStops(m, level, key, x);
          if level == 0 {
            return;
          }
          LowerLevels(m, level, level - 1, x);
          level := level - 1;
        } else {
          LaterShrinks(m, level, x);
          x := next.value;
        }
      }
    }

    /** FindLast: the head when the list is empty. */
    method FindLast() returns (x: nat)
      requires Valid()
      ensures OnLevel(Mem(), 0, x) && forall k :: k in linked[0] ==> !After(nodes, x, k)
    {
      hide Ok;
      ghost var m := Mem();
      assert Shape(m) by { ShapeOf(m); }
      x := 0;
      var level := maxHeight - 1;
      while true
        invariant 0 <= level < maxHeight && OnLevel(m, level, x)
        decreases level, Later(m, level, x)
      {
        NextExists(m, level, x);
        var next := nodes[x].next[level];
        if next.None? {
          LinkOf(m, level, x);
          if level == 0 {
            return;
          }
          LowerLevels(m, level, level - 1, x);
          level := level - 1;
        } else {
          LaterShrinks(m, level, x);
          x := next.value;
        }
      }
    }

    /** Insert: bottom-up, each level first the new node's own link and then the
        predecessor's.  Every state in between is one the readers may see. */
    method Insert(key: Key, height: nat)
      requires Valid() && key !in Keys() && 1 <= height <= MAX_HEIGHT
      modifies this
      ensures Valid() && Keys() == old(Keys()) + {key}
    {
      hide Ok, LastBefore, FirstAtOrAfter, Grows, OwnLinkSet, Published, WriterOk;
      ghost var m0 := Mem();
      assert Shape(m0) by { ShapeOf(m0); }
      var _, prev := FindGreaterOrEqual(key);
      HeadIsLast(m0, maxHeight, key);
      if height > maxHeight {
        prev := prev + seq(height - maxHeight, _ => 0);
        maxHeight := height;
      }
      prev := prev[..height];
      var x := |nodes|;
      BeginStep(m0, key, prev);
      nodes := nodes + [Node(key, seq(height, _ => None))];
      ghost var before, top := linked[0], maxHeight;
      GrowsSelf(Mem());
      for i := 0 to height
        invariant height <= maxHeight == top <= MAX_HEIGHT
        invariant Ok(Mem()) && Shape(Mem()) && Grows(Allocated(m0, key, height), Mem())
        invariant WriterOk(Mem(), if i < height then Inserting(x, prev, i, false) else Idle)
        invariant linked[0] == if i == 0 then before else before + {x}
        invariant forall j :: maxHeight <= j < MAX_HEIGHT ==> linked[j] == {}
      {
        ghost var m := Mem();
        LinkLevel(x, prev, i);
        GrowsOn(Allocated(m0, key, height), m, Mem());
      }
      SameKeys(Allocated(m0, key, height), Mem(), before, x);
    }

    method LinkLevel(x: nat, prev: seq<nat>, i: nat)
      requires Ok(Mem()) && Shape(Mem()) && WriterOk(Mem(), Inserting(x, prev, i, false))
      modifies this`nodes, this`linked
      ensures Ok(Mem()) && Shape(Mem()) && Grows(old(Mem()), Mem())
      ensures WriterOk(Mem(), if i + 1 == |prev| then Idle else Inserting(x, prev, i + 1, false))
      ensures |old(linked)| == MAX_HEIGHT && i < |prev| <= MAX_HEIGHT && linked == old(linked)[i := old(linked[i]) + {x}]
    {
      hide Ok, LastBefore, Grows, LinkOk;
      ghost var m := Mem();
      PlacesOk(m, Inserting(x, prev, i, false));
      OwnStep(m, Inserting(x, prev, i, false));
      nodes := nodes[x := nodes[x].(next := nodes[x].next[i := nodes[prev[i]].next[i]])];
      ghost var m1 := Mem();
      assert m1 == OwnLinkSet(m, x, i, prev[i]);
      ShapeOf(m1);
      PlacesOk(m1, Inserting(x, prev, i, true));
      PublishStep(m1, Inserting(x, prev, i, true));
      nodes := nodes[prev[i] := nodes[prev[i]].(next := nodes[prev[i]].next[i := Some(x)])];
      linked := linked[i := linked[i] + {x}];
      assert Mem() == Published(m1, x, i, prev[i]);
      ShapeOf(Mem());
      GrowsOn(m, m1, Mem());
    }

    method Contains(key: Key) returns (found: bool)
      requires Valid()
      ensures found <==> key in Keys()
    {
      var x, _ := FindGreaterOrEqual(key);
      found := x.Some? && nodes[x.value].key == key;
    }
  }

  lemma {:induction false} PlacesOk(m: Memory, w: Writer)
    requires Shape(m) && WriterOk(m, w) && w.Inserting?
    ensures w.x < |m.nodes| && w.level < |w.prev| <= MAX_HEIGHT && w.level < |m.nodes[w.x].next|
    ensures w.prev[w.level] < |m.nodes| && w.level < |m.nodes[w.prev[w.level]].next|
  {
    assert LastBefore(m, w.level, m.nodes[w.x].key, w.prev[w.level]);
  }

  lemma {:induction false} SameKeys(m: Memory, m': Memory, S: set<nat>, x: nat)
    requires Shape(m) && Grows(m, m') && x < |m.nodes| && forall n :: n in S ==> n < |m.nodes|
    ensures forall n :: n in S || n == x ==> n < |m'.nodes| && m'.nodes[n].key == m.nodes[n].key
  {
  }

  /** Above the tallest node the head is every key's predecessor. */
  lemma {:induction false} HeadIsLast(m: Memory, top: nat, key: Key)
    requires Shape(m) && forall i :: top <= i < MAX_HEIGHT ==> m.linked[i] == {}
    ensures forall i :: top <= i < MAX_HEIGHT ==> LastBefore(m, i, key, 0)
  {
  }

  lemma {:induction false} ShapeOf(m: Memory)
    requires Ok(m)
    ensures Shape(m)
  {
  }
}
