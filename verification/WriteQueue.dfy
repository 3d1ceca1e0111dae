/** The queue of writers and group commit (db/db_impl.cc: Write,
    BuildBatchGroup).

    One thread at a time, the one whose writer is at the front, logs and applies a
    group of batches with the mutex released; meanwhile other writers join the
    queue and readers take snapshots.  Every such step is a step of a machine. */
module WriteQueue {
  import opened InternalKeys
  import opened FlatHistory
  import opened Versions

  /** A writer; a null batch asks for nothing but its turn. */
  datatype Writer = Writer(id: nat, batch: Option<seq<Op>>, size: nat, sync: bool)

  function BatchOf(w: Writer): seq<Op> {
    if w.batch.Some? then w.batch.value else []
  }

  /** The operations of some writers, in order. */
  function OpsOf(ws: seq<Writer>): seq<Op> {
    if |ws| == 0 then [] else OpsOf(ws[..|ws| - 1]) + BatchOf(ws[|ws| - 1])
  }

  lemma {:induction false} OpsOfSum(a: seq<Writer>, b: seq<Writer>)
    ensures OpsOf(a + b) == OpsOf(a) + OpsOf(b)
  {
    hide BatchOf, OpsOf;
    if |b| == 0 {
      assert a + b == a;
      NoOps(OpsOf(a));
    } else {
      var n := |b| - 1;
      OpsOfSum(a, b[..n]);
      assert a + b == a + b[..n] + [b[n]] && b == b[..n] + [b[n]];
      OpsOfSnoc(a + b[..n], b[n]);
      OpsOfSnoc(b[..n], b[n]);
      Regroup(OpsOf(a), OpsOf(b[..n]), BatchOf(b[n]));
    }
  }

  lemma {:induction false} NoOps(ops: seq<Op>)
    ensures OpsOf([]) == [] && ops + [] == ops
  {
  }

  lemma {:induction false} OpsOfSnoc(ws: seq<Writer>, w: Writer)
    ensures OpsOf(ws + [w]) == OpsOf(ws) + BatchOf(w)
  {
    hide BatchOf;
    assert (ws + [w])[..|ws|] == ws;
  }

  lemma {:induction false} Regroup(a: seq<Op>, b: seq<Op>, c: seq<Op>)
    ensures (a + b) + c == a + (b + c)
  {
  }

  // ----- BuildBatchGroup -----

  function MaxSize(first: Writer): nat {
    if first.size <= 0x2_0000 then first.size + 0x2_0000 else 0x10_0000
  }

  /** The bytes of the batches of some writers. */
  function Bytes(ws: seq<Writer>): nat {
    if |ws| == 0 then 0
    else Bytes(ws[..|ws| - 1]) + if ws[|ws| - 1].batch.Some? then ws[|ws| - 1].size else 0
  }

  /** Writer `i` may not be led by the first one with those before it. */
  predicate Stops(ws: seq<Writer>, i: nat)
    requires 0 < i < |ws|
  {
    (ws[i].sync && !ws[0].sync) || (ws[i].batch.Some? && Bytes(ws[..i]) + ws[i].size > MaxSize(ws[0]))
  }

  /** The group is as long as it may be. */
  ghost predicate IsGroup(ws: seq<Writer>, n: nat) {
    && 0 < n <= |ws| && ws[0].batch.Some?
    && (forall i :: 0 < i < n ==> !Stops(ws, i))
    && (n < |ws| ==> Stops(ws, n))
  }

  method BuildBatchGroup(writers: seq<Writer>) returns (n: nat, result: seq<Op>)
    requires |writers| > 0 && writers[0].batch.Some?
    ensures IsGroup(writers, n) && result == OpsOf(writers[..n])
  {
    var first := writers[0];
    result := first.batch.value;
    var size := first.size;
    var maxSize := 0x10_0000;
    if size <= 0x2_0000 {
      maxSize := size + 0x2_0000;
    }
    n := 1;
    assert writers[..1] == [first] && [first][..0] == [];
    assert Bytes(writers[..1]) == Bytes([first][..0]) + size;
    while n < |writers|
      invariant 0 < n <= |writers|
      invariant forall i :: 0 < i < n ==> !Stops(writers, i)
      invariant size == Bytes(writers[..n]) && result == OpsOf(writers[..n])
    {
      var w := writers[n];
      assert writers[..n + 1][..n] == writers[..n];
      if w.sync && !first.sync {
        break;
      }
      if w.batch.Some? {
        size := size + w.size;
        if size > maxSize {
          break;
        }
        result := result + w.batch.value;
      }
      n := n + 1;
    }
  }

  // ----- the machine -----

  datatype Phase = Idle | Leading(n: nat, ops: seq<Op>, logged: bool, applied: nat)

  /** A finished turn at the front of the queue: who was in the group, and the log
      record, if one was written and if it was synced. */
  datatype Commit = Commit(writers: seq<Writer>, sequence: nat, ops: seq<Op>, written: bool, synced: bool)

  datatype Queue = Queue(
    arrived: seq<Writer>,       // in the order they took the mutex
    waiting: seq<Writer>,       // writers_
    finished: seq<Writer>,      // done, in the order they left the queue
    phase: Phase,
    commits: seq<Commit>,
    mem: seq<Entry>,            // entries in the order they enter the memtable
    lastSequence: nat)

  function Empty(): Queue {
    Queue([], [], [], Idle, [], [], 0)
  }

  datatype Action = Join(w: Writer) | TakeEmptyTurn | Lead(n: nat) | AddRecord | Insert | Leave

  ghost predicate Step(q: Queue, a: Action, q': Queue) {
    match a
    case Join(w) =>
      q' == q.(arrived := q.arrived + [w], waiting := q.waiting + [w])
    case TakeEmptyTurn =>
      && q.phase.Idle? && |q.waiting| > 0 && q.waiting[0].batch.None?
      && q' == q.(waiting := q.waiting[1..], finished := q.finished + [q.waiting[0]],
                  commits := q.commits + [Commit([q.waiting[0]], q.lastSequence + 1, [], false, false)])
    case Lead(n) =>
      q.phase.Idle? && IsGroup(q.waiting, n) && q' == q.(phase := Leading(n, OpsOf(q.waiting[..n]), false, 0))
    case AddRecord =>
      && q.phase.Leading? && !q.phase.logged && q.phase.n <= |q.waiting| && |q.waiting| > 0
      && q' == q.(phase := q.phase.(logged := true),
                  commits := q.commits + [Commit(q.waiting[..q.phase.n], q.lastSequence + 1, q.phase.ops, true, q.waiting[0].sync)])
    case Insert =>
      && q.phase.Leading? && q.phase.logged && q.phase.applied < |q.phase.ops|
      && var o := q.phase.ops[q.phase.applied];
         q' == q.(phase := q.phase.(applied := q.phase.applied + 1),
                  mem := q.mem + [Entry(InternalKey(o.key, q.lastSequence + 1 + q.phase.applied, o.kind), o.value)])
    case Leave =>
      && q.phase.Leading? && q.phase.logged && q.phase.applied == |q.phase.ops| && q.phase.n <= |q.waiting|
      && q' == q.(phase := Idle, waiting := q.waiting[q.phase.n..], finished := q.finished + q.waiting[..q.phase.n],
                  lastSequence := q.lastSequence + |q.phase.ops|)
  }

  // ----- what every reachable state satisfies -----

  /** The entries of a history, oldest first. */
  function EntryList(h: seq<Op>): (r: seq<Entry>)
    ensures |r| == |h| && forall i :: 0 <= i < |h| ==> r[i] == EntryAt(h, i)
  {
    seq(|h|, i requires 0 <= i < |h| => EntryAt(h, i))
  }

  function WritersOf(cs: seq<Commit>): seq<Writer> {
    if |cs| == 0 then [] else WritersOf(cs[..|cs| - 1]) + cs[|cs| - 1].writers
  }

  /** A sync writer's batch is in a synced record; the record has the group's
      operations, numbered on from the records before. */
  ghost predicate CommitsOk(cs: seq<Commit>) {
    forall i :: 0 <= i < |cs| ==>
      && cs[i].ops == OpsOf(cs[i].writers) && cs[i].sequence == 1 + |OpsOf(WritersOf(cs[..i]))|
      && (!cs[i].written ==> cs[i].ops == [])
      && forall w :: w in cs[i].writers && w.sync && w.batch.Some? ==> cs[i].written && cs[i].synced
  }

  ghost predicate Logged(q: Queue) { q.phase.Leading? && q.phase.logged }

  /** Everything that is committed or being committed. */
  function History(q: Queue): seq<Op> {
    OpsOf(q.finished) + if q.phase.Leading? then q.phase.ops else []
  }

  /** A group, also when others have joined behind it: a sync writer in it is led
      by a sync writer. */
  ghost predicate GroupPrefix(ws: seq<Writer>, n: nat) {
    0 < n <= |ws| && forall w :: w in ws[..n] && w.sync ==> ws[0].sync
  }

  ghost predicate Leads(q: Queue) {
    q.phase.Leading? ==>
      && GroupPrefix(q.waiting, q.phase.n) && q.phase.ops == OpsOf(q.waiting[..q.phase.n])
      && q.phase.applied <= |q.phase.ops| && (!q.phase.logged ==> q.phase.applied == 0)
  }

  /** Writers leave in the order they came; the commits are theirs and perhaps the
      current group's; the memtable holds the finished operations and the first
      few of the current group, numbered on without a gap. */
  ghost predicate QueueOk(q: Queue) {
    && q.arrived == q.finished + q.waiting
    && q.lastSequence == |OpsOf(q.finished)|
    && Leads(q) && CommitsOk(q.commits)
    && WritersOf(q.commits) == q.finished + (if Logged(q) then q.waiting[..q.phase.n] else [])
    && q.mem == EntryList(History(q))[..q.lastSequence + if q.phase.Leading? then q.phase.applied else 0]
  }

  lemma {:induction false} GroupIsPrefix(ws: seq<Writer>, n: nat)
    requires IsGroup(ws, n)
    ensures GroupPrefix(ws, n)
  {
    forall w | w in ws[..n] && w.sync ensures ws[0].sync {
      var i :| 0 <= i < n && ws[i] == w;
      if i > 0 { assert !Stops(ws, i); }
    }
  }

  lemma {:induction false} EntryListSum(h: seq<Op>, more: seq<Op>)
    ensures EntryList(h + more)[..|h|] == EntryList(h)
  {
  }

  lemma {:induction false} JoinKeeps(q: Queue, w: Writer, q': Queue)
    requires QueueOk(q) && Step(q, Join(w), q')
    ensures QueueOk(q')
  {
    hide CommitsOk, EntryList;
    if q.phase.Leading? {
      assert q'.waiting[..q.phase.n] == q.waiting[..q.phase.n];
    }
    assert History(q') == History(q);
  }

  lemma {:induction false} CommitAdded(cs: seq<Commit>, c: Commit)
    requires CommitsOk(cs) && c.ops == OpsOf(c.writers) && c.sequence == 1 + |OpsOf(WritersOf(cs))|
    requires !c.written ==> c.ops == []
    requires forall w :: w in c.writers && w.sync && w.batch.Some? ==> c.written && c.synced
    ensures CommitsOk(cs + [c]) && WritersOf(cs + [c]) == WritersOf(cs) + c.writers
  {
    hide OpsOf, WritersOf;
    var cs' := cs + [c];
    assert cs'[..|cs|] == cs;
    assert WritersOf(cs') == WritersOf(cs) + c.writers by { WritersSnoc(cs, c); }
    forall i | 0 <= i < |cs| ensures cs'[..i] == cs[..i] {
    }
  }

  lemma {:induction false} WritersSnoc(cs: seq<Commit>, c: Commit)
    ensures WritersOf(cs + [c]) == WritersOf(cs) + c.writers
  {
    assert (cs + [c])[..|cs|] == cs;
  }

  lemma {:induction false} OneOps(w: Writer)
    ensures OpsOf([w]) == BatchOf(w)
  {
    assert [w][..0] == [];
  }

  lemma {:induction false} EmptyTurnKeeps(q: Queue, q': Queue)
    requires QueueOk(q) && Step(q, TakeEmptyTurn, q')
    ensures QueueOk(q')
  {
    hide CommitsOk, EntryList, OpsOf, WritersOf;
    var w := q.waiting[0];
    OneOps(w);
    OpsOfSum(q.finished, [w]);
    assert q.finished + [] == q.finished;
    CommitAdded(q.commits, Commit([w], q.lastSequence + 1, [], false, false));
    assert q.arrived == q.finished + [w] + q.waiting[1..];
    assert OpsOf(q.finished) + [] == OpsOf(q.finished);
  }

  lemma {:induction false} LeadKeeps(q: Queue, n: nat, q': Queue)
    requires QueueOk(q) && Step(q, Lead(n), q')
    ensures QueueOk(q')
  {
    hide CommitsOk, EntryList, OpsOf, WritersOf, IsGroup, GroupPrefix;
    GroupIsPrefix(q.waiting, n);
    EntryListSum(OpsOf(q.finished), q'.phase.ops);
    assert OpsOf(q.finished) + [] == OpsOf(q.finished);
    WholeList(OpsOf(q.finished));
  }

  lemma {:induction false} WholeList(h: seq<Op>)
    ensures EntryList(h)[..|h|] == EntryList(h)
  {
  }

  lemma {:induction false} RecordKeeps(q: Queue, q': Queue)
    requires QueueOk(q) && Step(q, AddRecord, q')
    ensures QueueOk(q')
  {
    hide CommitsOk, EntryList, OpsOf, WritersOf;
    assert q.finished + [] == q.finished;
    CommitAdded(q.commits, Commit(q.waiting[..q.phase.n], q.lastSequence + 1, q.phase.ops, true, q.waiting[0].sync));
    assert History(q') == History(q);
  }

  lemma {:induction false} InsertKeeps(q: Queue, q': Queue)
    requires QueueOk(q) && Step(q, Insert, q')
    ensures QueueOk(q')
  {
    hide CommitsOk, OpsOf, WritersOf, GroupPrefix;
    var h, i := History(q), q.lastSequence + q.phase.applied;
    assert h[i] == q.phase.ops[q.phase.applied];
    assert EntryList(h)[..i + 1] == EntryList(h)[..i] + [EntryAt(h, i)];
    assert History(q') == h;
  }

  lemma {:induction false} LeaveKeeps(q: Queue, q': Queue)
    requires QueueOk(q) && Step(q, Leave, q')
    ensures QueueOk(q')
  {
    hide CommitsOk, OpsOf, WritersOf, GroupPrefix, EntryList;
    var n := q.phase.n;
    OpsOfSum(q.finished, q.waiting[..n]);
    assert q.waiting == q.waiting[..n] + q.waiting[n..];
    assert q'.finished + [] == q'.finished;
    assert History(q') == History(q) by { assert OpsOf(q'.finished) + [] == OpsOf(q'.finished); }
    WholeList(History(q));
  }

  lemma {:induction false} StepKeepsOk(q: Queue, a: Action, q': Queue)
    requires QueueOk(q) && Step(q, a, q')
    ensures QueueOk(q')
  {
    hide QueueOk, Step;
    match a
    case Join(w) => JoinKeeps(q, w, q');
    case TakeEmptyTurn => EmptyTurnKeeps(q, q');
    case Lead(n) => LeadKeeps(q, n, q');
    case AddRecord => RecordKeeps(q, q');
    case Insert => InsertKeeps(q, q');
    case Leave => LeaveKeeps(q, q');
  }

  // ----- every interleaving -----

  ghost predicate IsRun(qs: seq<Queue>, actions: seq<Action>) {
    && |qs| == |actions| + 1 && qs[0] == Empty()
    && forall i :: 0 <= i < |actions| ==> Step(qs[i], actions[i], qs[i + 1])
  }

  lemma {:induction false} EmptyOk()
    ensures QueueOk(Empty())
  {
  }

  lemma {:induction false} RunKeepsOk(qs: seq<Queue>, actions: seq<Action>, n: nat)
    requires IsRun(qs, actions) && n < |qs|
    ensures QueueOk(qs[n])
  {
    hide QueueOk, Step, Empty;
    if n == 0 {
      EmptyOk();
    } else {
      RunKeepsOk(qs, actions, n - 1);
      StepKeepsOk(qs[n - 1], actions[n - 1], qs[n]);
    }
  }

  /** What a reader that takes its snapshot now may see. */
  ghost function Visible(q: Queue, s: nat): iset<Entry> {
    iset e | e in q.mem && e.ikey.sequence <= s
  }

  lemma {:induction false} VisibleIsHistory(q: Queue, s: nat)
    requires QueueOk(q) && s <= q.lastSequence
    ensures Visible(q, s) == Entries(History(q)[..s]) && |OpsOf(q.finished)| == q.lastSequence <= |History(q)|
  {
    hide CommitsOk, OpsOf, WritersOf, GroupPrefix;
    var h := History(q);
    assert forall i :: 0 <= i < |q.mem| ==> q.mem[i] == EntryAt(h, i);
    forall e ensures e in Visible(q, s) <==> e in Entries(h[..s]) {
      if e in q.mem && e.ikey.sequence <= s {
        var i :| 0 <= i < |q.mem| && q.mem[i] == e;
        assert e == EntryAt(h[..s], i);
      }
      if Written(h[..s], e) {
        assert q.mem[e.ikey.sequence - 1] == EntryAt(h, e.ikey.sequence - 1);
      }
    }
  }

  /** Group commit is atomic: in every reachable state, also while a group is being
      inserted, a new snapshot shows exactly the batches of the finished writers,
      applied one after another in the order the writers came. */
  lemma {:induction false} SnapshotsAreWholeGroups(qs: seq<Queue>, actions: seq<Action>, n: nat, k: UserKey)
    requires IsRun(qs, actions) && n < |qs|
    ensures var q := qs[n];
            && q.finished <= q.arrived
            && View(Visible(q, q.lastSequence), k, q.lastSequence) == Lookup(Replay(OpsOf(q.finished)), k)
  {
    hide QueueOk, Step, Empty, View, Replay, Entries, Visible, OpsOf;
    RunKeepsOk(qs, actions, n);
    var q := qs[n];
    VisibleIsHistory(q, q.lastSequence);
    FinishedFirst(q);
    var h := OpsOf(q.finished);
    assert h[..q.lastSequence] == h;
    ViewIsReplay(h, k, q.lastSequence);
  }

  lemma {:induction false} FinishedFirst(q: Queue)
    requires QueueOk(q)
    ensures q.finished <= q.arrived && History(q)[..q.lastSequence] == OpsOf(q.finished)
  {
    hide CommitsOk, OpsOf, WritersOf, GroupPrefix, EntryList;
  }

  /** And it keeps showing them, whatever else is written. */
  lemma {:induction false} SnapshotsStay(qs: seq<Queue>, actions: seq<Action>, m: nat, n: nat, k: UserKey)
    requires IsRun(qs, actions) && m <= n < |qs|
    ensures var s := qs[m].lastSequence;
            && s <= qs[n].lastSequence && qs[m].finished <= qs[n].finished
            && View(Visible(qs[n], s), k, s) == Lookup(Replay(OpsOf(qs[m].finished)), k)
  {
    hide QueueOk, Step, Empty, View, Replay, Entries, Visible, OpsOf;
    FinishedGrow(qs, actions, m, n);
    RunKeepsOk(qs, actions, m);
    RunKeepsOk(qs, actions, n);
    var q, s, h := qs[n], qs[m].lastSequence, OpsOf(qs[m].finished);
    assert |h| == s by { LastIsCount(qs[m]); }
    OpsOfPrefix(qs[m].finished, q.finished);
    LastIsCount(q);
    VisibleIsHistory(q, s);
    FinishedFirst(q);
    assert History(q)[..s] == OpsOf(q.finished)[..s] == h;
    assert h[..s] == h;
    ViewIsReplay(h, k, s);
  }

  lemma {:induction false} LastIsCount(q: Queue)
    requires QueueOk(q)
    ensures q.lastSequence == |OpsOf(q.finished)|
  {
    hide CommitsOk, OpsOf, WritersOf, GroupPrefix, EntryList;
  }

  lemma {:induction false} OpsOfPrefix(a: seq<Writer>, b: seq<Writer>)
    requires a <= b
    ensures OpsOf(a) <= OpsOf(b)
  {
    assert b == a + b[|a|..];
    OpsOfSum(a, b[|a|..]);
  }

  lemma {:induction false} FinishedGrow(qs: seq<Queue>, actions: seq<Action>, m: nat, n: nat)
    requires IsRun(qs, actions) && m <= n < |qs|
    ensures qs[m].finished <= qs[n].finished
  {
    hide IsGroup, OpsOf, Empty;
    if m < n {
      FinishedGrow(qs, actions, m, n - 1);
      assert Step(qs[n - 1], actions[n - 1], qs[n - 1 + 1]);
    }
  }

  /** The writers whose batches are logged while they wait. */
  function LoggedGroup(q: Queue): (r: seq<Writer>)
    ensures r <= q.waiting
  {
    if q.phase.Leading? && q.phase.logged && q.phase.n <= |q.waiting| then q.waiting[..q.phase.n] else []
  }

  /** In every reachable state each finished writer's batch, and each of a group that
      is logged and has not left, is in exactly one log record, at its place in the
      order of arrival; records number their operations without a gap; and a sync
      writer's record was synced. */
  lemma {:induction false} CommittedOnceInOrder(qs: seq<Queue>, actions: seq<Action>, n: nat)
    requires IsRun(qs, actions) && n < |qs|
    ensures var q := qs[n];
            && WritersOf(q.commits) == q.finished + LoggedGroup(q) && q.finished + q.waiting == q.arrived
            && CommitsOk(q.commits)
  {
    hide QueueOk, Step, Empty, OpsOf, WritersOf, CommitsOk;
    RunKeepsOk(qs, actions, n);
    CommitsOf(qs[n]);
  }

  lemma {:induction false} CommitsOf(q: Queue)
    requires QueueOk(q)
    ensures WritersOf(q.commits) == q.finished + LoggedGroup(q)
    ensures q.finished + q.waiting == q.arrived && CommitsOk(q.commits)
  {
    hide OpsOf, WritersOf, CommitsOk, EntryList;
  }
}
