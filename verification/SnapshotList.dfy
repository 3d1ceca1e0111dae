/** The list of live snapshots (db/snapshot.h): circular and doubly linked, oldest first. */
module SnapshotList {
  class SnapshotImpl {
    const sequenceNumber: nat
    var prev: SnapshotImpl?
    var next: SnapshotImpl?

    constructor (sequenceNumber: nat)
      ensures this.sequenceNumber == sequenceNumber && prev == null && next == null
    {
      this.sequenceNumber, prev, next := sequenceNumber, null, null;
    }
  }

  /** The node at place `i` of the circle; the dummy head is at both its ends. */
  ghost function Around(head: SnapshotImpl, nodes: seq<SnapshotImpl>, i: nat): SnapshotImpl
    requires i <= |nodes| + 1
  {
    if 1 <= i <= |nodes| then nodes[i - 1] else head
  }

  ghost predicate Linked(a: SnapshotImpl, b: SnapshotImpl)
    reads a, b
  {
    a.next == b && b.prev == a
  }

  function Sequences(nodes: seq<SnapshotImpl>): (r: seq<nat>)
    ensures |r| == |nodes| && forall i :: 0 <= i < |r| ==> r[i] == nodes[i].sequenceNumber
  {
    seq(|nodes|, i requires 0 <= i < |nodes| => nodes[i].sequenceNumber)
  }

  class SnapshotList {
    const head: SnapshotImpl
    /** The live snapshots, oldest first. */
    ghost var nodes: seq<SnapshotImpl>

    ghost predicate Valid()
      reads this, head, nodes
    {
      && head !in nodes
      && (forall i, j :: 0 <= i < j < |nodes| ==> nodes[i] != nodes[j])
      && (forall i, j :: 0 <= i < j < |nodes| ==> nodes[i].sequenceNumber <= nodes[j].sequenceNumber)
      && (forall i {:trigger Around(head, nodes, i)} :: 0 <= i <= |nodes| ==>
            Linked(Around(head, nodes, i), Around(head, nodes, i + 1)))
    }

    constructor ()
      ensures Valid() && nodes == [] && fresh(head)
    {
      head := new SnapshotImpl(0);
      nodes := [];
      new;
      head.prev, head.next := head, head;
    }

    method Empty() returns (r: bool)
      requires Valid()
      ensures r <==> nodes == []
    {
      assert Linked(Around(head, nodes, 0), Around(head, nodes, 1));
      return head.next == head;
    }

    /** oldest(): no live snapshot has a smaller sequence number. */
    method Oldest() returns (r: SnapshotImpl)
      requires Valid() && nodes != []
      ensures r == nodes[0] && forall n :: n in nodes ==> r.sequenceNumber <= n.sequenceNumber
    {
      assert Linked(Around(head, nodes, 0), Around(head, nodes, 1));
      return head.next;
    }

    method Newest() returns (r: SnapshotImpl)
      requires Valid() && nodes != []
      ensures r == nodes[|nodes| - 1] && forall n :: n in nodes ==> n.sequenceNumber <= r.sequenceNumber
    {
      assert Linked(Around(head, nodes, |nodes|), Around(head, nodes, |nodes| + 1));
      return head.prev;
    }

    /** New: appends a snapshot that is no older than any other. */
    method New(sequenceNumber: nat) returns (snapshot: SnapshotImpl)
      requires Valid() && (nodes != [] ==> nodes[|nodes| - 1].sequenceNumber <= sequenceNumber)
      modifies this, head, nodes
      ensures Valid() && fresh(snapshot) && nodes == old(nodes) + [snapshot]
      ensures Sequences(nodes) == old(Sequences(nodes)) + [sequenceNumber]
    {
      snapshot := new SnapshotImpl(sequenceNumber);
      ghost var before := nodes;
      assert Linked(Around(head, before, |before|), Around(head, before, |before| + 1));
      snapshot.next := head;
      snapshot.prev := head.prev;
      snapshot.prev.next := snapshot;
      snapshot.next.prev := snapshot;
      nodes := nodes + [snapshot];
      forall i | 0 <= i <= |nodes| ensures Linked(Around(head, nodes, i), Around(head, nodes, i + 1)) {
        if i < |before| {
          assert old(Linked(Around(head, before, i), Around(head, before, i + 1)));
        }
      }
    }

    /** Delete: of a snapshot that New returned; its neighbours become neighbours. */
    method Delete(snapshot: SnapshotImpl, ghost at: nat)
      requires Valid() && at < |nodes| && nodes[at] == snapshot
      modifies this, head, nodes
      ensures Valid() && nodes == old(nodes[..at] + nodes[at + 1..])
    {
      ghost var before := nodes;
      assert Linked(Around(head, before, at), Around(head, before, at + 1));
      assert Linked(Around(head, before, at + 1), Around(head, before, at + 2));
      snapshot.prev.next := snapshot.next;
      snapshot.next.prev := snapshot.prev;
      nodes := nodes[..at] + nodes[at + 1..];
      forall i | 0 <= i <= |nodes| ensures Linked(Around(head, nodes, i), Around(head, nodes, i + 1)) {
        if i < at {
          assert old(Linked(Around(head, before, i), Around(head, before, i + 1)));
        } else if i > at {
          assert old(Linked(Around(head, before, i + 1), Around(head, before, i + 2)));
        }
      }
    }
  }
}
