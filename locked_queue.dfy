/**
 * The fine-grained-locked FIFO queue of base/locked_queue.h, with its head
 * and tail locks taken away: every operation runs atomically.
 *
 * The queue is a singly linked chain of nodes that always ends in one empty
 * sentinel node. `Push` stores the payload in the current tail (the
 * sentinel), hangs a fresh empty node after it and moves `tail` there;
 * popping detaches the head node, whose payload is the oldest one, and makes
 * its successor the new head. The queue is empty exactly when `head == tail`.
 */
module LockedQueue {
  import opened Pointers

  class Node<T> {
    var data: Shared?<T>
    var next: Node?<T>

    constructor ()
      ensures data == null && next == null
    {
      data := null;
      next := null;
    }
  }

  class LockedQueue<T> {
    var head: Node<T>
    var tail: Node<T>

    // abstract view: the chain from head to tail and the payloads it holds
    ghost var nodes: seq<Node<T>>
    ghost var Contents: seq<T>
    ghost var Repr: set<object>

    /**
     * Following `next` from `head` walks `nodes` and ends at `tail`; every
     * node before `tail` carries the payload at its position in `Contents`;
     * `tail` is the sentinel, with no payload and no successor.
     */
    ghost predicate Valid()
      reads this, Repr
      ensures Valid() ==> this in Repr
    {
      && this in Repr
      && |nodes| == |Contents| + 1
      && (forall i :: 0 <= i < |nodes| ==> nodes[i] in Repr)
      && (forall i, j :: 0 <= i < j < |nodes| ==> nodes[i] != nodes[j])
      && nodes[0] == head
      && nodes[|Contents|] == tail
      && (forall i :: 0 <= i < |Contents| ==> nodes[i].next == nodes[i + 1])
      && (forall i :: 0 <= i < |Contents| ==>
            nodes[i].data != null && nodes[i].data.value == Contents[i])
      && tail.data == null
      && tail.next == null
    }

    /** A new queue is one sentinel node that is both head and tail. */
    constructor ()
      ensures Valid() && fresh(Repr)
      ensures Contents == [] && nodes == [head] && head == tail
    {
      var n := new Node<T>();
      head, tail := n, n;
      nodes, Contents := [n], [];
      Repr := {this, n};
    }

    /** The sentinel is the head exactly when no payload is queued. */
    lemma HeadIsTailIffEmpty()
      requires Valid()
      ensures head == tail <==> Contents == []
    {
      if Contents != [] {
        assert head.next == nodes[1];
      }
    }

    method Empty() returns (empty: bool)
      requires Valid()
      ensures empty <==> Contents == []
    {
      HeadIsTailIffEmpty();
      empty := head == tail;
    }

    /**
     * Fills the sentinel with the value, links a fresh sentinel after it and
     * advances `tail`; `head` and every other node are left alone.
     */
    method Push(value: T)
      requires Valid()
      modifies this, tail
      ensures Valid() && old(Repr) <= Repr && fresh(Repr - old(Repr))
      ensures Contents == old(Contents) + [value]
      ensures head == old(head) && nodes == old(nodes) + [tail] && fresh(tail)
      ensures old(tail).next == tail
      ensures old(tail).data != null && fresh(old(tail).data) && old(tail).data.value == value
    {
      var data := new Shared(value);
      var p := new Node<T>();
      tail.data := data;
      var newTail := p;
      tail.next := p;
      tail := newTail;
      nodes := nodes + [p];
      Contents := Contents + [value];
      Repr := Repr + {p};
    }

    /** Unlinks the head node, which holds the oldest payload. */
    method PopHead() returns (oldHead: Node<T>)
      requires Valid() && Contents != []
      modifies this, head
      ensures Valid() && Repr == old(Repr)
      ensures Contents == old(Contents)[1..] && nodes == old(nodes)[1..]
      ensures oldHead == old(head) && head == old(head.next) && tail == old(tail)
      ensures oldHead.data == old(head.data) && oldHead.next == null
      ensures oldHead.data != null && oldHead.data.value == old(Contents)[0]
    {
      oldHead := head;
      assert oldHead.next == nodes[1];
      head := oldHead.next;
      oldHead.next := null;
      nodes := nodes[1..];
      Contents := Contents[1..];
    }

    method TryPopHead() returns (oldHead: Node?<T>)
      requires Valid()
      modifies this, head
      ensures Valid() && Repr == old(Repr) && tail == old(tail)
      ensures oldHead == null <==> old(Contents) == []
      ensures oldHead == null ==>
                head == old(head) && nodes == old(nodes) && Contents == old(Contents)
      ensures oldHead != null ==>
                && oldHead == old(head) && head == old(head.next)
                && nodes == old(nodes)[1..] && Contents == old(Contents)[1..]
                && oldHead.data == old(head.data)
                && oldHead.data != null && oldHead.data.value == old(Contents)[0]
    {
      HeadIsTailIffEmpty();
      if head == tail {
        return null;
      }
      oldHead := PopHead();
    }

    /** Moves the head payload into `*value`, then unlinks the head node. */
    method TryPopHeadInto(value: Cell<T>) returns (oldHead: Node?<T>)
      requires Valid()
      modifies this, head, value
      ensures Valid() && Repr == old(Repr) && tail == old(tail)
      ensures oldHead == null <==> old(Contents) == []
      ensures oldHead == null ==>
                && head == old(head) && nodes == old(nodes) && Contents == old(Contents)
                && value.value == old(value.value)
      ensures oldHead != null ==>
                && oldHead == old(head) && head == old(head.next)
                && nodes == old(nodes)[1..] && Contents == old(Contents)[1..]
                && value.value == old(Contents)[0]
    {
      HeadIsTailIffEmpty();
      if head == tail {
        return null;
      }
      value.value := head.data.value;
      oldHead := PopHead();
    }

    method WaitPopHead() returns (oldHead: Node<T>)
      requires Valid() && Contents != []
      modifies this, head
      ensures Valid() && Repr == old(Repr) && tail == old(tail)
      ensures oldHead == old(head) && head == old(head.next)
      ensures nodes == old(nodes)[1..] && Contents == old(Contents)[1..]
      ensures oldHead.data == old(head.data)
      ensures oldHead.data != null && oldHead.data.value == old(Contents)[0]
    {
      oldHead := PopHead();
    }

    method WaitPopHeadInto(value: Cell<T>) returns (oldHead: Node<T>)
      requires Valid() && Contents != []
      modifies this, head, value
      ensures Valid() && Repr == old(Repr) && tail == old(tail)
      ensures oldHead == old(head) && head == old(head.next)
      ensures nodes == old(nodes)[1..] && Contents == old(Contents)[1..]
      ensures value.value == old(Contents)[0]
    {
      value.value := head.data.value;
      oldHead := PopHead();
    }

    /**
     * Returns the box stored by the matching `Push` (no allocation on the
     * pop path), or null when the queue is empty.
     */
    method TryPop() returns (r: Shared?<T>)
      requires Valid()
      modifies this, head
      ensures Valid() && Repr == old(Repr) && tail == old(tail)
      ensures r == null <==> old(Contents) == []
      ensures r == null ==> head == old(head) && nodes == old(nodes) && Contents == old(Contents)
      ensures r != null ==>
                && r == old(head.data) && !fresh(r) && r.value == old(Contents)[0]
                && head == old(head.next) && Contents == old(Contents)[1..]
    {
      var oldHead := TryPopHead();
      r := if oldHead != null then oldHead.data else null;
    }

    method TryPopInto(value: Cell<T>) returns (ok: bool)
      requires Valid()
      modifies this, head, value
      ensures Valid() && Repr == old(Repr) && tail == old(tail)
      ensures ok <==> old(Contents) != []
      ensures !ok ==>
                && head == old(head) && nodes == old(nodes) && Contents == old(Contents)
                && value.value == old(value.value)
      ensures ok ==>
                && value.value == old(Contents)[0]
                && head == old(head.next) && Contents == old(Contents)[1..]
    {
      var oldHead := TryPopHeadInto(value);
      ok := oldHead != null;
    }

    /** The blocking pop, with the wait for data replaced by its precondition. */
    method WaitAndPop() returns (r: Shared<T>)
      requires Valid() && Contents != []
      modifies this, head
      ensures Valid() && Repr == old(Repr) && tail == old(tail)
      ensures r == old(head.data) && !fresh(r) && r.value == old(Contents)[0]
      ensures head == old(head.next) && Contents == old(Contents)[1..]
    {
      var oldHead := WaitPopHead();
      r := oldHead.data;
    }

    method WaitAndPopInto(value: Cell<T>)
      requires Valid() && Contents != []
      modifies this, head, value
      ensures Valid() && Repr == old(Repr) && tail == old(tail)
      ensures value.value == old(Contents)[0]
      ensures head == old(head.next) && Contents == old(Contents)[1..]
    {
      var _ := WaitPopHeadInto(value);
    }
  }
}
