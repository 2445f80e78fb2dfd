/** The list of live snapshots (db/snapshot.h): a circular doubly-linked list with a dummy head. */
module Snapshots {

  class SnapshotImpl {
    var prev: SnapshotImpl?
    var next: SnapshotImpl?
    const number: nat

    constructor (number: nat)
      ensures this.number == number
    {
      this.number := number;
      prev, next := null, null;
    }
  }

  class SnapshotList {
    const head: SnapshotImpl
    /** The head, then the snapshots from the oldest to the newest. */
    ghost var ring: seq<SnapshotImpl>

    ghost predicate Distinct()
      reads this
    {
      forall i, j {:trigger ring[i], ring[j]} :: 0 <= i < j < |ring| ==> ring[i] != ring[j]
    }

    /** The node after the i-th, going round. */
    ghost function After(i: nat): SnapshotImpl
      requires i < |ring|
      reads this
    {
      if i + 1 < |ring| then ring[i + 1] else ring[0]
    }

    ghost predicate Linked(i: nat)
      requires i < |ring|
      reads this, ring
    {
      ring[i].next == After(i) && After(i).prev == ring[i]
    }

    ghost predicate Ordered()
      reads this
    {
      forall i, j {:trigger ring[i], ring[j]} :: 1 <= i < j < |ring| ==> ring[i].number <= ring[j].number
    }

    ghost predicate Valid()
      reads this, ring
    {
      && |ring| >= 1 && ring[0] == head && Distinct() && Ordered()
      && forall i {:trigger Linked(i)} :: 0 <= i < |ring| ==> Linked(i)
    }

    /** The live snapshots, oldest first. */
    ghost function Live(): (s: seq<SnapshotImpl>)
      requires Valid()
      reads this, ring
      ensures head !in s
    {
      ring[1..]
    }

    constructor ()
      ensures Valid() && fresh(ring) && Live() == []
    {
      var h := new SnapshotImpl(0);
      head := h;
      ring := [h];
      new;
      head.prev := head;
      head.next := head;
      assert Linked(0);
    }

    predicate Empty()
      requires Valid()
      reads this, ring
      ensures Empty() <==> Live() == []
    {
      assert Linked(0);
      head.next == head
    }

    /** The oldest live snapshot has the least sequence number: what compaction must keep readable
        is bounded by it. */
    function Oldest(): (s: SnapshotImpl)
      requires Valid() && !Empty()
      reads this, ring
      ensures s == Live()[0]
      ensures forall t :: t in Live() ==> s.number <= t.number
    {
      assert Linked(0);
      assert forall i :: 1 < i < |ring| ==> ring[1].number <= ring[i].number;
      head.next
    }

    function Newest(): (s: SnapshotImpl)
      requires Valid() && !Empty()
      reads this, ring
      ensures s == Live()[|Live()| - 1]
    {
      assert Linked(|ring| - 1);
      head.prev
    }

    /** Appends a snapshot at the end of the list. */
    method New(number: nat) returns (s: SnapshotImpl)
      requires Valid() && (!Empty() ==> Newest().number <= number)
      modifies this`ring, ring
      ensures Valid() && fresh(s) && s.number == number
      ensures Live() == old(Live()) + [s] && ring == old(ring) + [s]
    {
      ghost var n := |ring|;
      assert Linked(n - 1);
      assert n > 1 ==> Newest() == ring[n - 1];
      s := new SnapshotImpl(number);
      s.next := head;
      s.prev := head.prev;
      s.prev.next := s;
      s.next.prev := s;
      ring := ring + [s];
      forall i {:trigger Linked(i)} | 0 <= i < |ring|
        ensures Linked(i)
      {
        if i < n - 1 {
          assert old(Linked(i));
          assert old(ring)[i] == ring[i] && old(ring)[i + 1] == ring[i + 1];
        }
      }
      assert ring[1..] == old(ring)[1..] + [s];
    }

    /** Takes a live snapshot out of the list, wherever it stands. */
    method Delete(s: SnapshotImpl, ghost k: nat)
      requires Valid() && k < |Live()| && Live()[k] == s
      modifies this`ring, ring
      ensures Valid() && Live() == old(Live())[..k] + old(Live())[k + 1..]
    {
      ghost var r, n := ring, |ring|;
      assert Linked(k) && Linked(k + 1);
      s.prev.next := s.next;
      s.next.prev := s.prev;
      ring := r[..k + 1] + r[k + 2..];
      forall i {:trigger Linked(i)} | 0 <= i < |ring|
        ensures Linked(i)
      {
        if i < k {
          assert old(Linked(i));
        } else if i > k {
          assert old(Linked(i + 1));
        }
      }
    }
  }
}
