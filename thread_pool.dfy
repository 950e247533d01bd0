/**
 * The per-worker deque and the task-selection part of the thread pool of
 * base/thread_pool.h, with its locks, worker threads and futures taken away.
 *
 * `WorkStealingQueue` is a deque whose owner pushes and pops at the front
 * (so it works as a stack) while thieves take from the back (the oldest
 * task). `ThreadPool` holds one such deque per worker and the linked
 * `LockedQueue` as its global queue; the calling thread's identity, kept in
 * thread-local variables by the source, is the explicit `caller` parameter.
 */
module ThreadPool {
  import opened Wrappers
  import opened Pointers
  import opened Scheduling
  import LockedQueue

  class WorkStealingQueue {
    var q: seq<FunctionWrapper>   // q[0] is the front

    constructor ()
      ensures q == []
    {
      q := [];
    }

    method Push(data: FunctionWrapper)
      modifies this
      ensures q == [data] + old(q)
    {
      q := [data] + q;
    }

    /** The owner's pop: the most recently pushed task. */
    method TryPop(value: Cell<FunctionWrapper>) returns (ok: bool)
      modifies this, value
      ensures ok <==> old(q) != []
      ensures !ok ==> q == old(q) && value.value == old(value.value)
      ensures ok ==> value.value == old(q)[0] && q == old(q)[1..]
    {
      if q == [] {
        return false;
      }
      value.value := q[0];
      q := q[1..];
      ok := true;
    }

    /** A thief's pop: the oldest task, at the back. */
    method TrySteal(value: Cell<FunctionWrapper>) returns (ok: bool)
      modifies this, value
      ensures ok <==> old(q) != []
      ensures !ok ==> q == old(q) && value.value == old(value.value)
      ensures ok ==> value.value == old(q)[|old(q)| - 1] && q == old(q)[..|old(q)| - 1]
    {
      if q == [] {
        return false;
      }
      value.value := q[|q| - 1];
      q := q[..|q| - 1];
      ok := true;
    }

    method Empty() returns (empty: bool)
      ensures empty <==> q == []
    {
      empty := q == [];
    }
  }

  function Reversed<T>(s: seq<T>): (r: seq<T>)
    ensures |r| == |s| && forall i :: 0 <= i < |s| ==> r[i] == s[|s| - 1 - i]
  {
    if s == [] then [] else Reversed(s[1..]) + [s[0]]
  }

  /** The owner gets its tasks back in reverse order of pushing. */
  method OwnerPopsInReverse(tasks: seq<FunctionWrapper>) returns (popped: seq<FunctionWrapper>)
    ensures popped == Reversed(tasks)
  {
    var d := new WorkStealingQueue();
    for i := 0 to |tasks|
      invariant d.q == Reversed(tasks[..i])
    {
      d.Push(tasks[i]);
      assert tasks[..i + 1][1..] == tasks[1..i + 1];
    }
    assert tasks[..|tasks|] == tasks;
    var cell := new Cell<FunctionWrapper>(Empty);
    popped := [];
    for i := 0 to |tasks|
      invariant |popped| == i && |d.q| == |tasks| - i
      invariant forall k :: 0 <= k < i ==> popped[k] == tasks[|tasks| - 1 - k]
      invariant forall k :: 0 <= k < |d.q| ==> d.q[k] == tasks[|tasks| - 1 - i - k]
    {
      var ok := d.TryPop(cell);
      popped := popped + [cell.value];
    }
  }

  /** A thief that finds no owner pop in between takes the tasks oldest first. */
  method ThiefStealsInOrder(tasks: seq<FunctionWrapper>) returns (stolen: seq<FunctionWrapper>)
    ensures stolen == tasks
  {
    var d := new WorkStealingQueue();
    for i := 0 to |tasks|
      invariant d.q == Reversed(tasks[..i])
    {
      d.Push(tasks[i]);
      assert tasks[..i + 1][1..] == tasks[1..i + 1];
    }
    assert tasks[..|tasks|] == tasks;
    var cell := new Cell<FunctionWrapper>(Empty);
    stolen := [];
    for i := 0 to |tasks|
      invariant stolen == tasks[..i]
      invariant d.q == Reversed(tasks)[..|tasks| - i]
    {
      var ok := d.TrySteal(cell);
      stolen := stolen + [cell.value];
      assert tasks[..i + 1] == tasks[..i] + [tasks[i]];
    }
  }

  class ThreadPool {
    const global: LockedQueue.LockedQueue<FunctionWrapper>
    const locals: seq<WorkStealingQueue>
    ghost var Repr: set<object>

    /** The pool as a value: each deque's tasks and the global FIFO's. */
    ghost function State(): PoolState
      reads locals, global
    {
      PoolState(seq(|locals|, i reads locals requires 0 <= i < |locals| => locals[i].q), global.Contents)
    }

    /** The deques are distinct objects outside the global queue's nodes. */
    ghost predicate Shape()
      reads this, Repr, locals, global
    {
      && this in Repr
      && global in Repr && global.Repr <= Repr && this !in global.Repr
      && global.Valid()
      && (forall i :: 0 <= i < |locals| ==> locals[i] in Repr && locals[i] !in global.Repr)
      && (forall i, j :: 0 <= i < j < |locals| ==> locals[i] != locals[j])
    }

    /** The pool is well formed and every queued wrapper holds a callable. */
    ghost predicate Valid()
      reads this, Repr, locals, global
    {
      Shape() && AllInvocable(State())
    }

    /** `threadCount` stands for the hardware concurrency that sizes the pool. */
    constructor (threadCount: nat)
      ensures Valid() && fresh(Repr)
      ensures |locals| == threadCount
      ensures State() == PoolState(seq(threadCount, _ => []), [])
    {
      var qs: seq<WorkStealingQueue> := [];
      for i := 0 to threadCount
        invariant |qs| == i
        invariant forall k :: 0 <= k < i ==> fresh(qs[k]) && qs[k].q == []
        invariant forall k, l :: 0 <= k < l < i ==> qs[k] != qs[l]
      {
        var w := new WorkStealingQueue();
        qs := qs + [w];
      }
      locals := qs;
      global := new LockedQueue.LockedQueue<FunctionWrapper>();
      new;
      Repr := {this} + global.Repr + set k | 0 <= k < |locals| :: locals[k];
      assert State().locals == seq(threadCount, _ => []);
      TasksEmptyIffAllEmpty(State());
    }

    /**
     * Wraps the callable and queues it: on the caller's own deque when the
     * caller is a worker, on the global queue otherwise.
     */
    method Submit(caller: Option<nat>, callable: nat)
      requires Valid() && CallerOk(State(), caller)
      modifies Repr
      ensures Valid() && old(Repr) <= Repr && fresh(Repr - old(Repr))
      ensures State() == Scheduling.Submit(old(State()), caller, Wraps(callable))
    {
      var task := Wraps(callable);
      ghost var st := State();
      if caller.Some? {
        locals[caller.value].Push(task);
        assert State().locals == st.locals[caller.value := [task] + st.locals[caller.value]];
      } else {
        global.Push(task);
        Repr := Repr + global.Repr;
      }
      assert State() == Scheduling.Submit(st, caller, task);
      SubmitKeepsInvocable(st, caller, task);
    }

    method PopTaskFromLocalQueue(caller: Option<nat>, task: Cell<FunctionWrapper>) returns (ok: bool)
      requires Valid() && CallerOk(State(), caller)
      modifies Repr, task
      ensures Valid() && Repr == old(Repr)
      ensures var s := PopLocal(old(State()), caller);
              && ok == s.ran.Some? && State() == s.after
              && (ok ==> task.value == s.ran.value)
              && (!ok ==> task.value == old(task.value))
    {
      ghost var st := State();
      PopLocalKeepsInvocable(st, caller);
      if caller.Some? {
        ok := locals[caller.value].TryPop(task);
        if ok {
          assert State().locals == st.locals[caller.value := st.locals[caller.value][1..]];
        } else {
          assert State() == st;
        }
      } else {
        ok := false;
      }
    }

    method PopTaskFromGlobalQueue(task: Cell<FunctionWrapper>) returns (ok: bool)
      requires Valid()
      modifies Repr, task
      ensures Valid() && Repr == old(Repr)
      ensures var s := PopGlobal(old(State()));
              && ok == s.ran.Some? && State() == s.after
              && (ok ==> task.value == s.ran.value)
              && (!ok ==> task.value == old(task.value))
    {
      ghost var st := State();
      PopGlobalKeepsInvocable(st);
      ok := global.TryPopInto(task);
      assert State() == PopGlobal(st).after;
    }

    /** One thief's attempt on the deque at `index`, seen on the pool's state. */
    method TryStealAt(index: nat, task: Cell<FunctionWrapper>) returns (ok: bool)
      requires Shape() && index < |locals|
      modifies locals[index], task
      ensures Shape()
      ensures ok <==> old(State()).locals[index] != []
      ensures !ok ==> State() == old(State()) && task.value == old(task.value)
      ensures ok ==>
                var q := old(State()).locals[index];
                && task.value == q[|q| - 1]
                && State() == old(State()).(locals := old(State()).locals[index := q[..|q| - 1]])
    {
      ghost var st := State();
      ok := locals[index].TrySteal(task);
      if ok {
        assert State().locals == st.locals[index := st.locals[index][..|st.locals[index]| - 1]];
      } else {
        assert State().locals == st.locals;
      }
    }

    /**
     * Visits the deques in the order `(my_index_ + 1 + i) % n` and steals
     * from the first one that has a task.
     */
    method PopTaskFromOtherThreadQueue(caller: Option<nat>, task: Cell<FunctionWrapper>) returns (ok: bool)
      requires Valid()
      modifies Repr, task
      ensures Valid() && Repr == old(Repr)
      ensures var s := PopOther(old(State()), caller);
              && ok == s.ran.Some? && State() == s.after
              && (ok ==> task.value == s.ran.value)
              && (!ok ==> task.value == old(task.value))
    {
      var me := MyIndex(caller);
      var n := |locals|;
      ghost var st := State();
      PopOtherKeepsInvocable(st, caller);
      for i := 0 to n
        invariant Shape() && Repr == old(Repr) && State() == st
        invariant task.value == old(task.value)
        invariant ScanFrom(st.locals, me, i) == ScanFrom(st.locals, me, 0)
      {
        var index := (me + 1 + i) % n;
        assert index == ScanIndex(me, i, n);
        ok := TryStealAt(index, task);
        if ok {
          assert ScanFrom(st.locals, me, 0) == Some(i);
          return;
        }
      }
      ok := false;
    }

    /**
     * Finds at most one task, trying the local deque, then the global queue,
     * then the other deques, and returns the task it would invoke; `None`
     * stands for yielding the processor.
     */
    method RunPendingTask(caller: Option<nat>) returns (ran: Option<FunctionWrapper>)
      requires Valid() && CallerOk(State(), caller)
      modifies Repr
      ensures Valid() && Repr == old(Repr)
      ensures Step(ran, State()) == RunPending(old(State()), caller)
      ensures ran.Some? ==> ran.value.Invocable()
    {
      ghost var st := State();
      RunPendingKeepsInvocable(st, caller);
      var task := new Cell<FunctionWrapper>(Empty);
      var ok := PopTaskFromLocalQueue(caller, task);
      if !ok {
        ok := PopTaskFromGlobalQueue(task);
      }
      if !ok {
        ok := PopTaskFromOtherThreadQueue(caller, task);
      }
      ran := if ok then Some(task.value) else None;
    }
  }
}
