/** rt-thread/include/rtservice.h: circular doubly linked lists through nodes embedded in
    other structures. A list is a node; what it holds are the other nodes of its ring. */
module IntrusiveList {
  import opened Common

  function Behind(n: nat, i: nat): nat { if i + 1 < n then i + 1 else 0 }

  ghost predicate Linked(ring: seq<Node>, i: nat)
    requires i < |ring|
    reads ring
  {
    var j := Behind(|ring|, i);
    ring[i].next == ring[j] && ring[j].prev == ring[i]
  }

  /** The nodes met by following next from ring[0] until it comes round, and backwards by
      following prev. */
  ghost predicate Ring(ring: seq<Node>)
    reads ring
  {
    && ring != []
    && (forall i, j {:trigger ring[i], ring[j]} :: 0 <= i < j < |ring| ==> ring[i] != ring[j])
    && forall i {:trigger Linked(ring, i)} :: 0 <= i < |ring| ==> Linked(ring, i)
  }

  /** The links decide what the list holds: there is one ring from any node. */
  lemma {:induction false} RingUnique(a: seq<Node>, b: seq<Node>, k: nat)
    requires Ring(a) && Ring(b) && a[0] == b[0] && k < |a|
    ensures k < |b| && a[..k + 1] == b[..k + 1]
  {
    if k > 0 {
      RingUnique(a, b, k - 1);
      assert Linked(a, k - 1) && Linked(b, k - 1);
      assert a[k - 1] == a[..k][k - 1] == b[k - 1];
    }
  }

  lemma ContentsUnique(a: seq<Node>, b: seq<Node>)
    requires Ring(a) && Ring(b) && a[0] == b[0]
    ensures a == b
  {
    RingUnique(a, b, |a| - 1);
    RingUnique(b, a, |b| - 1);
  }

  /** Any node of a ring may stand for the list. */
  lemma Rotated(ring: seq<Node>, k: nat)
    requires Ring(ring) && k < |ring|
    ensures Ring(ring[k..] + ring[..k])
  {
    var r := ring[k..] + ring[..k];
    forall i | 0 <= i < |r|
      ensures Linked(r, i)
    {
      var j := if i + k < |ring| then i + k else i + k - |ring|;
      assert Linked(ring, j);
    }
  }

  /** A ring keeps its shape while its nodes keep their links. */
  class Node {
    var next: Node
    var prev: Node

    /** rt_list_init. */
    constructor ()
      ensures Ring([this])
    {
      next, prev := this, this;
    }

    /** rt_list_insert_after; nothing is required of the links of n. */
    method InsertAfter(n: Node, ghost ring: seq<Node>, ghost k: nat)
      requires Ring(ring) && k < |ring| && ring[k] == this && n !in ring
      modifies this, next, n
      ensures Ring(ring[..k + 1] + [n] + ring[k + 1..])
    {
      assert Linked(ring, k);
      ghost var j := Behind(|ring|, k);
      next.prev := n;
      n.next := next;
      next := n;
      n.prev := this;
      ghost var r := ring[..k + 1] + [n] + ring[k + 1..];
      forall i | 0 <= i < |r|
        ensures Linked(r, i)
      {
        if i != k && i != k + 1 { assert old(Linked(ring, if i < k then i else i - 1)); }
      }
    }

    /** rt_list_insert_before: in front of the list itself is at the end of what it holds. */
    method InsertBefore(n: Node, ghost ring: seq<Node>, ghost k: nat)
      requires Ring(ring) && k < |ring| && ring[k] == this && n !in ring
      modifies this, prev, n
      ensures Ring(if k == 0 then ring + [n] else ring[..k] + [n] + ring[k..])
    {
      ghost var p := if k == 0 then |ring| - 1 else k - 1;
      assert Linked(ring, p);
      prev.next := n;
      n.prev := prev;
      prev := n;
      n.next := this;
      ghost var r := if k == 0 then ring + [n] else ring[..k] + [n] + ring[k..];
      forall i | 0 <= i < |r|
        ensures Linked(r, i)
      {
        if i != p && i != p + 1 { assert old(Linked(ring, if i < p then i else i - 1)); }
      }
    }

    /** rt_list_remove: the node ends up in a ring of its own. */
    method Remove(ghost ring: seq<Node>, ghost k: nat)
      requires Ring(ring) && k < |ring| && ring[k] == this
      modifies this, next, prev
      ensures Ring([this]) && (|ring| > 1 ==> Ring(ring[..k] + ring[k + 1..]))
    {
      ghost var p, n := if k == 0 then |ring| - 1 else k - 1, Behind(|ring|, k);
      assert Linked(ring, p) && Linked(ring, k);
      next.prev := prev;
      prev.next := next;
      next, prev := this, this;
      ghost var r := ring[..k] + ring[k + 1..];
      forall i | 0 <= i < |r|
        ensures Linked(r, i)
      {
        assert old(Linked(ring, if i < k then i else i + 1));
      }
    }

    /** rt_list_isempty. */
    method IsEmpty(ghost ring: seq<Node>) returns (r: bool)
      requires Ring(ring) && ring[0] == this
      ensures r <==> ring == [this]
    {
      assert Linked(ring, 0);
      r := next == this;
    }

    /** rt_list_len, an unsigned int. */
    method Len(ghost ring: seq<Node>) returns (len: nat)
      requires Ring(ring) && ring[0] == this
      ensures len == (|ring| - 1) % WORD_RANGE
    {
      len := 0;
      var p := this;
      ghost var i := 0;
      assert Linked(ring, 0);
      while p.next != this
        invariant i < |ring| && p == ring[i] && len == i % WORD_RANGE
        decreases |ring| - i
      {
        assert Linked(ring, i);
        p := p.next;
        i := i + 1;
        len := (len + 1) % WORD_RANGE;
      }
      assert Linked(ring, i);
    }
  }
}
