/**
 * The coarse single-lock queues of base/simple_thread_safe_queue.h (whose
 * out-of-line definitions in base/simple_thread_safe_queue.cc repeat the
 * inline ones), with the mutex and condition variable taken away.
 *
 * `ThreadSafeQueue1` stores plain values and allocates a box when a pop
 * returns a pointer; `ThreadSafeQueue` boxes each value at `Push`, so no pop
 * allocates.
 */
module SimpleThreadSafeQueue {
  import opened Pointers

  /**
   * A FIFO of plain values.
   */
  class ThreadSafeQueue1<T> {
    var queue: seq<T>   // queue[0] is the front

    constructor ()
      ensures queue == []
    {
      queue := [];
    }

    method Empty() returns (empty: bool)
      ensures empty <==> queue == []
    {
      empty := queue == [];
    }

    method Push(value: T)
      modifies this
      ensures queue == old(queue) + [value]
    {
      queue := queue + [value];
    }

    /** The blocking pop into `*value`; the wait becomes the precondition. */
    method WaitAndPopInto(value: Cell<T>)
      requires queue != []
      modifies this, value
      ensures value.value == old(queue)[0] && queue == old(queue)[1..]
    {
      value.value := queue[0];
      queue := queue[1..];
    }

    /** The blocking pop; the front is copied into a freshly allocated box. */
    method WaitAndPop() returns (r: Shared<T>)
      requires queue != []
      modifies this
      ensures fresh(r) && r.value == old(queue)[0] && queue == old(queue)[1..]
    {
      r := new Shared(queue[0]);
      queue := queue[1..];
    }

    method TryPopInto(value: Cell<T>) returns (ok: bool)
      modifies this, value
      ensures ok <==> old(queue) != []
      ensures !ok ==> queue == old(queue) && value.value == old(value.value)
      ensures ok ==> value.value == old(queue)[0] && queue == old(queue)[1..]
    {
      if queue == [] {
        return false;
      }
      value.value := queue[0];
      queue := queue[1..];
      ok := true;
    }

    /** Null when empty; otherwise the front, copied into a fresh box. */
    method TryPop() returns (r: Shared?<T>)
      modifies this
      ensures r == null <==> old(queue) == []
      ensures r == null ==> queue == old(queue)
      ensures r != null ==> fresh(r) && r.value == old(queue)[0] && queue == old(queue)[1..]
    {
      if queue == [] {
        return null;
      }
      r := new Shared(queue[0]);
      queue := queue[1..];
    }
  }

  /**
   * A FIFO of boxed values.
   */
  class ThreadSafeQueue<T> {
    var queue: seq<Shared<T>>   // queue[0] is the front

    /** The payloads in the order they will be popped. */
    function Contents(): seq<T>
      reads this
    {
      Values(queue)
    }

    constructor ()
      ensures queue == [] && Contents() == []
    {
      queue := [];
    }

    method Empty() returns (empty: bool)
      ensures empty <==> Contents() == []
    {
      empty := queue == [];
    }

    /** Boxes the value before it is queued. */
    method Push(value: T)
      modifies this
      ensures Contents() == old(Contents()) + [value]
      ensures queue[..|queue| - 1] == old(queue) && fresh(queue[|queue| - 1])
    {
      var data := new Shared(value);
      queue := queue + [data];
    }

    method WaitAndPopInto(value: Cell<T>)
      requires Contents() != []
      modifies this, value
      ensures value.value == old(Contents())[0] && Contents() == old(Contents())[1..]
      ensures queue == old(queue)[1..]
    {
      value.value := queue[0].value;
      queue := queue[1..];
    }

    /** The blocking pop hands out the queued box itself: nothing is allocated. */
    method WaitAndPop() returns (r: Shared<T>)
      requires Contents() != []
      modifies this
      ensures r == old(queue)[0] && !fresh(r)
      ensures r.value == old(Contents())[0] && Contents() == old(Contents())[1..]
      ensures queue == old(queue)[1..]
    {
      r := queue[0];
      queue := queue[1..];
    }

    method TryPopInto(value: Cell<T>) returns (ok: bool)
      modifies this, value
      ensures ok <==> old(Contents()) != []
      ensures !ok ==> queue == old(queue) && value.value == old(value.value)
      ensures ok ==> value.value == old(Contents())[0] && Contents() == old(Contents())[1..]
      ensures ok ==> queue == old(queue)[1..]
    {
      if queue == [] {
        return false;
      }
      value.value := queue[0].value;
      queue := queue[1..];
      ok := true;
    }

    /** Null when empty; otherwise the queued front box itself. */
    method TryPop() returns (r: Shared?<T>)
      modifies this
      ensures r == null <==> old(Contents()) == []
      ensures r == null ==> queue == old(queue)
      ensures r != null ==> r == old(queue)[0] && !fresh(r)
      ensures r != null ==> r.value == old(Contents())[0] && Contents() == old(Contents())[1..]
      ensures r != null ==> queue == old(queue)[1..]
    {
      if queue == [] {
        return null;
      }
      r := queue[0];
      queue := queue[1..];
    }
  }
}
