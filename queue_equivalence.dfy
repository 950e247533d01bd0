/**
 * Every queue of the toolkit meets the one FIFO contract of module Fifo:
 * running any sequence of the six interface calls on a freshly constructed
 * queue, as long as no blocking pop finds it empty, yields exactly the
 * answers `Fifo.Run` predicts. In particular the linked queue and the
 * baseline single-lock queue cannot be told apart by their callers.
 */
module QueueEquivalence {
  import opened Wrappers
  import opened Pointers
  import opened Fifo
  import LockedQueue
  import SimpleLockedQueue
  import SimpleThreadSafeQueue

  /** One interface call on a `LockedQueue`, with what the call returns as its answer. */
  method CallLockedQueue<T>(q: LockedQueue.LockedQueue<T>, op: Op<T>) returns (reply: seq<Answer<T>>)
    requires q.Valid() && !Blocks(q.Contents, op)
    modifies q.Repr
    ensures q.Valid() && old(q.Repr) <= q.Repr && fresh(q.Repr - old(q.Repr))
      ensures q.Contents == After(old(q.Contents), op) && reply == Reply(old(q.Contents), op)
  {
    match op {
      case Push(x) =>
        q.Push(x);
        reply := [];
      case IsEmpty =>
        var empty := q.Empty();
        reply := [Emptiness(empty)];
      case TryPop =>
        var r := q.TryPop();
        reply := [Popped(if r == null then None else Some(r.value))];
      case TryPopInto(slot) =>
        var cell := new Cell<T>(slot);
        var ok := q.TryPopInto(cell);
        reply := [Stored(ok, cell.value)];
      case WaitAndPop =>
        var r := q.WaitAndPop();
        reply := [Popped(Some(r.value))];
      case WaitAndPopInto(slot) =>
        var cell := new Cell<T>(slot);
        q.WaitAndPopInto(cell);
        reply := [Stored(true, cell.value)];
    }
  }

  /** The linked queue with its sentinel refines the FIFO contract. */
  method ReplayLockedQueue<T>(ops: seq<Op<T>>) returns (answers: seq<Answer<T>>)
    requires Completes([], ops)
    ensures answers == Run([], ops)
  {
    var q := new LockedQueue.LockedQueue<T>();
    answers := [];
    for i := 0 to |ops|
      invariant q.Valid() && fresh(q.Repr)
      invariant Completes(q.Contents, ops[i..])
      invariant answers + Run(q.Contents, ops[i..]) == Run([], ops)
    {
      ghost var before, rest := q.Contents, ops[i..];
      assert rest[0] == ops[i] && rest[1..] == ops[i + 1..];
      RunFirstCall(before, rest);
      var reply := CallLockedQueue(q, ops[i]);
      AppendAssoc(answers, reply, Run(q.Contents, ops[i + 1..]));
      answers := answers + reply;
    }
  }

  /** One interface call on a `SimpleLockedQueue1`, with what the call returns as its answer. */
  method CallSimpleLockedQueue1<T>(q: SimpleLockedQueue.SimpleLockedQueue1<T>, op: Op<T>) returns (reply: seq<Answer<T>>)
    requires !Blocks(q.queue, op)
    modifies q
    ensures q.queue == After(old(q.queue), op) && reply == Reply(old(q.queue), op)
  {
    match op {
      case Push(x) =>
        q.Push(x);
        reply := [];
      case IsEmpty =>
        var empty := q.Empty();
        reply := [Emptiness(empty)];
      case TryPop =>
        var r := q.TryPop();
        reply := [Popped(if r == null then None else Some(r.value))];
      case TryPopInto(slot) =>
        var cell := new Cell<T>(slot);
        var ok := q.TryPopInto(cell);
        reply := [Stored(ok, cell.value)];
      case WaitAndPop =>
        var r := q.WaitAndPop();
        reply := [Popped(Some(r.value))];
      case WaitAndPopInto(slot) =>
        var cell := new Cell<T>(slot);
        q.WaitAndPopInto(cell);
        reply := [Stored(true, cell.value)];
    }
  }

  /** The single-lock queue of values refines the FIFO contract. */
  method ReplaySimpleLockedQueue1<T>(ops: seq<Op<T>>) returns (answers: seq<Answer<T>>)
    requires Completes([], ops)
    ensures answers == Run([], ops)
  {
    var q := new SimpleLockedQueue.SimpleLockedQueue1<T>();
    answers := [];
    for i := 0 to |ops|
      invariant fresh(q)
      invariant Completes(q.queue, ops[i..])
      invariant answers + Run(q.queue, ops[i..]) == Run([], ops)
    {
      ghost var before, rest := q.queue, ops[i..];
      assert rest[0] == ops[i] && rest[1..] == ops[i + 1..];
      RunFirstCall(before, rest);
      var reply := CallSimpleLockedQueue1(q, ops[i]);
      AppendAssoc(answers, reply, Run(q.queue, ops[i + 1..]));
      answers := answers + reply;
    }
  }

  /** One interface call on a `SimpleLockedQueue`, with what the call returns as its answer. */
  method CallSimpleLockedQueue<T>(q: SimpleLockedQueue.SimpleLockedQueue<T>, op: Op<T>) returns (reply: seq<Answer<T>>)
    requires !Blocks(q.Contents(), op)
    modifies q
    ensures q.Contents() == After(old(q.Contents()), op) && reply == Reply(old(q.Contents()), op)
  {
    match op {
      case Push(x) =>
        q.Push(x);
        reply := [];
      case IsEmpty =>
        var empty := q.Empty();
        reply := [Emptiness(empty)];
      case TryPop =>
        var r := q.TryPop();
        reply := [Popped(if r == null then None else Some(r.value))];
      case TryPopInto(slot) =>
        var cell := new Cell<T>(slot);
        var ok := q.TryPopInto(cell);
        reply := [Stored(ok, cell.value)];
      case WaitAndPop =>
        var r := q.WaitAndPop();
        reply := [Popped(Some(r.value))];
      case WaitAndPopInto(slot) =>
        var cell := new Cell<T>(slot);
        q.WaitAndPopInto(cell);
        reply := [Stored(true, cell.value)];
    }
  }

  /** The single-lock queue of boxes refines the FIFO contract. */
  method ReplaySimpleLockedQueue<T>(ops: seq<Op<T>>) returns (answers: seq<Answer<T>>)
    requires Completes([], ops)
    ensures answers == Run([], ops)
  {
    var q := new SimpleLockedQueue.SimpleLockedQueue<T>();
    answers := [];
    for i := 0 to |ops|
      invariant fresh(q)
      invariant Completes(q.Contents(), ops[i..])
      invariant answers + Run(q.Contents(), ops[i..]) == Run([], ops)
    {
      ghost var before, rest := q.Contents(), ops[i..];
      assert rest[0] == ops[i] && rest[1..] == ops[i + 1..];
      RunFirstCall(before, rest);
      var reply := CallSimpleLockedQueue(q, ops[i]);
      AppendAssoc(answers, reply, Run(q.Contents(), ops[i + 1..]));
      answers := answers + reply;
    }
  }

  /** One interface call on a `ThreadSafeQueue1`, with what the call returns as its answer. */
  method CallThreadSafeQueue1<T>(q: SimpleThreadSafeQueue.ThreadSafeQueue1<T>, op: Op<T>) returns (reply: seq<Answer<T>>)
    requires !Blocks(q.queue, op)
    modifies q
    ensures q.queue == After(old(q.queue), op) && reply == Reply(old(q.queue), op)
  {
    match op {
      case Push(x) =>
        q.Push(x);
        reply := [];
      case IsEmpty =>
        var empty := q.Empty();
        reply := [Emptiness(empty)];
      case TryPop =>
        var r := q.TryPop();
        reply := [Popped(if r == null then None else Some(r.value))];
      case TryPopInto(slot) =>
        var cell := new Cell<T>(slot);
        var ok := q.TryPopInto(cell);
        reply := [Stored(ok, cell.value)];
      case WaitAndPop =>
        var r := q.WaitAndPop();
        reply := [Popped(Some(r.value))];
      case WaitAndPopInto(slot) =>
        var cell := new Cell<T>(slot);
        q.WaitAndPopInto(cell);
        reply := [Stored(true, cell.value)];
    }
  }

  /** `ThreadSafeQueue1`, a queue of values, refines the FIFO contract. */
  method ReplayThreadSafeQueue1<T>(ops: seq<Op<T>>) returns (answers: seq<Answer<T>>)
    requires Completes([], ops)
    ensures answers == Run([], ops)
  {
    var q := new SimpleThreadSafeQueue.ThreadSafeQueue1<T>();
    answers := [];
    for i := 0 to |ops|
      invariant fresh(q)
      invariant Completes(q.queue, ops[i..])
      invariant answers + Run(q.queue, ops[i..]) == Run([], ops)
    {
      ghost var before, rest := q.queue, ops[i..];
      assert rest[0] == ops[i] && rest[1..] == ops[i + 1..];
      RunFirstCall(before, rest);
      var reply := CallThreadSafeQueue1(q, ops[i]);
      AppendAssoc(answers, reply, Run(q.queue, ops[i + 1..]));
      answers := answers + reply;
    }
  }

  /** One interface call on a `ThreadSafeQueue`, with what the call returns as its answer. */
  method CallThreadSafeQueue<T>(q: SimpleThreadSafeQueue.ThreadSafeQueue<T>, op: Op<T>) returns (reply: seq<Answer<T>>)
    requires !Blocks(q.Contents(), op)
    modifies q
    ensures q.Contents() == After(old(q.Contents()), op) && reply == Reply(old(q.Contents()), op)
  {
    match op {
      case Push(x) =>
        q.Push(x);
        reply := [];
      case IsEmpty =>
        var empty := q.Empty();
        reply := [Emptiness(empty)];
      case TryPop =>
        var r := q.TryPop();
        reply := [Popped(if r == null then None else Some(r.value))];
      case TryPopInto(slot) =>
        var cell := new Cell<T>(slot);
        var ok := q.TryPopInto(cell);
        reply := [Stored(ok, cell.value)];
      case WaitAndPop =>
        var r := q.WaitAndPop();
        reply := [Popped(Some(r.value))];
      case WaitAndPopInto(slot) =>
        var cell := new Cell<T>(slot);
        q.WaitAndPopInto(cell);
        reply := [Stored(true, cell.value)];
    }
  }

  /** `ThreadSafeQueue`, a queue of boxes, refines the FIFO contract. */
  method ReplayThreadSafeQueue<T>(ops: seq<Op<T>>) returns (answers: seq<Answer<T>>)
    requires Completes([], ops)
    ensures answers == Run([], ops)
  {
    var q := new SimpleThreadSafeQueue.ThreadSafeQueue<T>();
    answers := [];
    for i := 0 to |ops|
      invariant fresh(q)
      invariant Completes(q.Contents(), ops[i..])
      invariant answers + Run(q.Contents(), ops[i..]) == Run([], ops)
    {
      ghost var before, rest := q.Contents(), ops[i..];
      assert rest[0] == ops[i] && rest[1..] == ops[i + 1..];
      RunFirstCall(before, rest);
      var reply := CallThreadSafeQueue(q, ops[i]);
      AppendAssoc(answers, reply, Run(q.Contents(), ops[i + 1..]));
      answers := answers + reply;
    }
  }

  lemma AppendAssoc<T>(a: seq<T>, b: seq<T>, c: seq<T>)
    ensures (a + b) + c == a + (b + c)
  {
  }

  /**
   * The fine-grained linked queue and the baseline single-lock queue give the
   * same answers to the same calls.
   */
  method LinkedMatchesBaseline<T>(ops: seq<Op<T>>) returns (linked: seq<Answer<T>>, baseline: seq<Answer<T>>)
    requires Completes([], ops)
    ensures linked == baseline
    ensures linked == Run([], ops)
  {
    linked := ReplayLockedQueue(ops);
    baseline := ReplaySimpleLockedQueue(ops);
  }
}
