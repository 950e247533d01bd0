/**
 * The task-selection rules of the work-stealing thread pool of
 * base/thread_pool.h, stated on values.
 *
 * A pool state is one deque per worker (front first: the owner pushes and
 * pops at the front, a thief takes from the back) and one global FIFO. A
 * caller is a worker with its index, or an outside thread (`None`), whose
 * `my_index_` is the zero it was initialised with.
 */
module Scheduling {
  import opened Wrappers

  /** A type-erased task: either empty (default-constructed or moved from) or wrapping a callable. */
  datatype FunctionWrapper = Empty | Wraps(callable: nat) {
    predicate Invocable() { Wraps? }
  }

  type Deque = seq<FunctionWrapper>

  datatype PoolState = PoolState(locals: seq<Deque>, global: seq<FunctionWrapper>)

  /** A worker names its own deque; an outside thread has none. */
  predicate CallerOk(st: PoolState, caller: Option<nat>) {
    caller.Some? ==> caller.value < |st.locals|
  }

  /** `my_index_` of the calling thread: a worker's index, zero for any other thread. */
  function MyIndex(caller: Option<nat>): nat {
    if caller.Some? then caller.value else 0
  }

  // ----- The steal scan -----

  /** The `i`-th deque the scan visits: `(my_index_ + 1 + i) % n`. */
  function ScanIndex(me: nat, i: nat, n: nat): nat
    requires n > 0
  {
    (me + 1 + i) % n
  }

  function ScanOrder(me: nat, n: nat): (order: seq<nat>)
    ensures |order| == n
  {
    seq(n, i requires 0 <= i < n => ScanIndex(me, i, n))
  }

  lemma ScanIndexClosedForm(me: nat, i: nat, n: nat)
    requires me < n && i < n
    ensures ScanIndex(me, i, n) == if me + 1 + i < n then me + 1 + i else me + 1 + i - n
  {
    var x := me + 1 + i;
    if x < n {
      ModBelow(x, n);
    } else {
      ModOnce(x, n);
    }
  }

  lemma ModBelow(x: nat, n: nat)
    requires x < n
    ensures x % n == x
  {
  }

  lemma ModOnce(x: nat, n: nat)
    requires n <= x < 2 * n
    ensures x % n == x - n
  {
    ModBelow(x - n, n);
  }

  /** The step of the scan at which deque `k` is visited. */
  function ScanPosition(me: nat, k: nat, n: nat): nat
    requires me < n && k < n
  {
    if k > me then k - me - 1 else k + n - me - 1
  }

  /**
   * For a worker (or the outside thread on a non-empty pool) the scan visits
   * every deque exactly once, starting just after the caller's own and
   * ending at it; with no deques it computes no index at all.
   */
  lemma ScanOrderVisitsEachOnce(me: nat, n: nat)
    requires me < n
    ensures forall i :: 0 <= i < n ==> ScanOrder(me, n)[i] < n
    ensures forall i, j :: 0 <= i < j < n ==> ScanOrder(me, n)[i] != ScanOrder(me, n)[j]
    ensures forall k :: 0 <= k < n ==> ScanPosition(me, k, n) < n && ScanOrder(me, n)[ScanPosition(me, k, n)] == k
    ensures ScanOrder(me, n)[0] == (me + 1) % n && ScanOrder(me, n)[n - 1] == me
  {
    var order := ScanOrder(me, n);
    forall i | 0 <= i < n
      ensures order[i] == if me + 1 + i < n then me + 1 + i else me + 1 + i - n
    {
      ScanIndexClosedForm(me, i, n);
    }
    forall k | 0 <= k < n
      ensures ScanPosition(me, k, n) < n && order[ScanPosition(me, k, n)] == k
    {
      assert order[ScanPosition(me, k, n)] == k;
    }
  }

  lemma ScanOrderOfNoDeques(me: nat)
    ensures ScanOrder(me, 0) == []
  {
  }

  /**
   * The first position at or after `i` in the scan order whose deque is not
   * empty; every position passed over holds an empty deque.
   */
  function ScanFrom(qs: seq<Deque>, me: nat, i: nat): (p: Option<nat>)
    ensures p.Some? ==>
              && i <= p.value < |qs|
              && qs[ScanIndex(me, p.value, |qs|)] != []
              && forall k :: i <= k < p.value ==> qs[ScanIndex(me, k, |qs|)] == []
    ensures p.None? ==> forall k :: i <= k < |qs| ==> qs[ScanIndex(me, k, |qs|)] == []
    decreases |qs| - i
  {
    if i >= |qs| then None
    else if qs[ScanIndex(me, i, |qs|)] != [] then Some(i)
    else ScanFrom(qs, me, i + 1)
  }

  /**
   * `PopTaskFromOtherThreadQueue` on values: take the back of the first
   * non-empty deque in scan order, or nothing when the scan finds none.
   */
  function Steal(qs: seq<Deque>, me: nat): (Option<FunctionWrapper>, seq<Deque>)
  {
    match ScanFrom(qs, me, 0)
    case None => (None, qs)
    case Some(p) =>
      var v := ScanIndex(me, p, |qs|);
      (Some(qs[v][|qs[v]| - 1]), qs[v := qs[v][..|qs[v]| - 1]])
  }

  /** The scan comes back empty-handed exactly when every deque is empty. */
  lemma StealFailsIffAllEmpty(qs: seq<Deque>, me: nat)
    requires |qs| == 0 || me < |qs|
    ensures Steal(qs, me).0.None? <==> forall v :: 0 <= v < |qs| ==> qs[v] == []
    ensures Steal(qs, me).0.None? ==> Steal(qs, me).1 == qs
  {
    if ScanFrom(qs, me, 0).None? && |qs| > 0 {
      ScanOrderVisitsEachOnce(me, |qs|);
      forall v | 0 <= v < |qs|
        ensures qs[v] == []
      {
        var i := ScanPosition(me, v, |qs|);
        assert qs[ScanIndex(me, i, |qs|)] == [];
      }
    }
  }

  // ----- Selecting a task -----

  /** What one call obtained (the task it runs, if any) and the state it leaves. */
  datatype Step = Step(ran: Option<FunctionWrapper>, after: PoolState)

  /** `PopTaskFromLocalQueue`: the front of the caller's own deque, if it has one. */
  function PopLocal(st: PoolState, caller: Option<nat>): Step
    requires CallerOk(st, caller)
  {
    if caller.Some? && st.locals[caller.value] != [] then
      var i := caller.value;
      Step(Some(st.locals[i][0]), st.(locals := st.locals[i := st.locals[i][1..]]))
    else Step(None, st)
  }

  /** `PopTaskFromGlobalQueue`: the front of the global FIFO. */
  function PopGlobal(st: PoolState): Step
  {
    if st.global != [] then Step(Some(st.global[0]), st.(global := st.global[1..]))
    else Step(None, st)
  }

  /** `PopTaskFromOtherThreadQueue`: steal from the first non-empty sibling in scan order. */
  function PopOther(st: PoolState, caller: Option<nat>): Step
  {
    var (t, qs) := Steal(st.locals, MyIndex(caller));
    Step(t, st.(locals := qs))
  }

  /** `RunPendingTask`: local deque, then global queue, then stealing; each only if the earlier came back empty. */
  function RunPending(st: PoolState, caller: Option<nat>): Step
    requires CallerOk(st, caller)
  {
    var local := PopLocal(st, caller);
    if local.ran.Some? then local
    else
      var global := PopGlobal(st);
      if global.ran.Some? then global
      else PopOther(st, caller)
  }

  /** `Submit`: the caller's own deque (at the front) when it is a worker, the global FIFO (at the back) otherwise. */
  function Submit(st: PoolState, caller: Option<nat>, task: FunctionWrapper): PoolState
    requires CallerOk(st, caller)
  {
    if caller.Some? then
      var i := caller.value;
      st.(locals := st.locals[i := [task] + st.locals[i]])
    else st.(global := st.global + [task])
  }

  // ----- Counting and naming the queues -----

  datatype QueueId = Global | Local(index: nat)

  predicate ValidId(st: PoolState, id: QueueId) {
    id.Local? ==> id.index < |st.locals|
  }

  function QueueOf(st: PoolState, id: QueueId): seq<FunctionWrapper>
    requires ValidId(st, id)
  {
    match id
    case Global => st.global
    case Local(i) => st.locals[i]
  }

  /** The pool has the same deques and only queue `id` may differ. */
  ghost predicate OnlyChanged(st: PoolState, st': PoolState, id: QueueId) {
    && |st'.locals| == |st.locals|
    && match id
       case Global => st'.locals == st.locals
       case Local(i) =>
         && st'.global == st.global
         && forall j :: 0 <= j < |st.locals| && j != i ==> st'.locals[j] == st.locals[j]
  }

  /**
   * `s` took one task from queue `id`: its front, or its back when
   * `fromFront` is false. That queue lost exactly that task, no other queue
   * changed, and the pool's tasks are the remaining ones plus the task taken.
   */
  ghost predicate TookOne(st: PoolState, s: Step, id: QueueId, fromFront: bool)
    requires ValidId(st, id)
  {
    var q := QueueOf(st, id);
    && q != [] && s.ran.Some?
    && OnlyChanged(st, s.after, id)
    && ValidId(s.after, id)
    && QueueOf(s.after, id) == (if fromFront then q[1..] else q[..|q| - 1])
    && s.ran.value == (if fromFront then q[0] else q[|q| - 1])
    && Tasks(st) == Tasks(s.after) + multiset{s.ran.value}
  }

  ghost predicate AllEmpty(st: PoolState) {
    st.global == [] && forall i :: 0 <= i < |st.locals| ==> st.locals[i] == []
  }

  /** No queued wrapper is empty: each one holds a callable. */
  ghost predicate AllInvocable(st: PoolState) {
    forall t :: t in Tasks(st) ==> t.Invocable()
  }

  function SumQueues(qs: seq<Deque>): multiset<FunctionWrapper>
  {
    if qs == [] then multiset{} else multiset(qs[0]) + SumQueues(qs[1..])
  }

  /** Every task queued anywhere in the pool, with its multiplicity. */
  function Tasks(st: PoolState): multiset<FunctionWrapper> {
    multiset(st.global) + SumQueues(st.locals)
  }

  /** Replacing one deque by one with `d` fewer tasks removes exactly `d` from the pool's deques. */
  lemma {:induction false} SumQueuesUpdate(qs: seq<Deque>, i: nat, q: Deque, d: multiset<FunctionWrapper>)
    requires i < |qs| && multiset(qs[i]) == multiset(q) + d
    ensures SumQueues(qs) == SumQueues(qs[i := q]) + d
  {
    var qs' := qs[i := q];
    if i > 0 {
      assert qs[1..][i - 1] == qs[i];
      assert qs'[1..] == qs[1..][i - 1 := q];
      assert qs'[0] == qs[0];
      SumQueuesUpdate(qs[1..], i - 1, q, d);
      calc {
        SumQueues(qs);
        multiset(qs[0]) + SumQueues(qs[1..]);
        multiset(qs[0]) + (SumQueues(qs[1..][i - 1 := q]) + d);
        multiset(qs'[0]) + SumQueues(qs'[1..]) + d;
      }
    } else {
      assert qs'[1..] == qs[1..];
    }
  }

  lemma {:induction false} SumQueuesAllEmpty(qs: seq<Deque>)
    requires forall i :: 0 <= i < |qs| ==> qs[i] == []
    ensures SumQueues(qs) == multiset{}
  {
    if qs != [] {
      SumQueuesAllEmpty(qs[1..]);
    }
  }

  lemma {:induction false} SumQueuesNonEmpty(qs: seq<Deque>, i: nat)
    requires i < |qs| && qs[i] != []
    ensures SumQueues(qs) != multiset{}
  {
    SumQueuesUpdate(qs, i, [], multiset(qs[i]));
    assert qs[i][0] in multiset(qs[i]);
  }

  lemma TasksEmptyIffAllEmpty(st: PoolState)
    ensures Tasks(st) == multiset{} <==> AllEmpty(st)
  {
    if AllEmpty(st) {
      SumQueuesAllEmpty(st.locals);
    } else if st.global != [] {
      assert st.global[0] in multiset(st.global);
      assert st.global[0] in Tasks(st);
    } else {
      var i :| 0 <= i < |st.locals| && st.locals[i] != [];
      SumQueuesNonEmpty(st.locals, i);
    }
  }

  // ----- What the rules promise -----

  /** A call comes back empty-handed exactly when the whole pool is empty, and then changes nothing. */
  lemma RunPendingIdleIffAllEmpty(st: PoolState, caller: Option<nat>)
    requires CallerOk(st, caller)
    ensures RunPending(st, caller).ran.None? <==> AllEmpty(st)
    ensures RunPending(st, caller).ran.None? ==> RunPending(st, caller).after == st
  {
    StealFailsIffAllEmpty(st.locals, MyIndex(caller));
  }

  /**
   * The queue `RunPendingTask` takes from: the caller's own deque if it has
   * a task, else the global FIFO if it has one, else the first non-empty
   * deque in scan order; none when the pool is empty.
   */
  function Source(st: PoolState, caller: Option<nat>): Option<QueueId>
    requires CallerOk(st, caller)
  {
    if caller.Some? && st.locals[caller.value] != [] then Some(Local(caller.value))
    else if st.global != [] then Some(Global)
    else match ScanFrom(st.locals, MyIndex(caller), 0)
      case None => None
      case Some(p) => Some(Local(ScanIndex(MyIndex(caller), p, |st.locals|)))
  }

  /**
   * Local first, then global, then stealing: a later source is used only
   * when every earlier one is empty, and a victim is the first non-empty
   * deque in scan order.
   */
  lemma RunPendingPriority(st: PoolState, caller: Option<nat>)
    requires CallerOk(st, caller)
    ensures Source(st, caller) == Some(Global) ==> caller.None? || st.locals[caller.value] == []
    ensures forall v: nat :: Source(st, caller) == Some(Local(v)) && caller != Some(v) ==>
              && st.global == []
              && (caller.None? || st.locals[caller.value] == [])
              && v < |st.locals| && st.locals[v] != []
              && exists p :: 0 <= p < |st.locals| && ScanIndex(MyIndex(caller), p, |st.locals|) == v
                             && forall k :: 0 <= k < p ==> st.locals[ScanIndex(MyIndex(caller), k, |st.locals|)] == []
  {
    forall v: nat | Source(st, caller) == Some(Local(v)) && caller != Some(v)
      ensures exists p :: 0 <= p < |st.locals| && ScanIndex(MyIndex(caller), p, |st.locals|) == v
                          && forall k :: 0 <= k < p ==> st.locals[ScanIndex(MyIndex(caller), k, |st.locals|)] == []
    {
      var p := ScanFrom(st.locals, MyIndex(caller), 0).value;
      assert ScanIndex(MyIndex(caller), p, |st.locals|) == v;
    }
  }

  lemma MultisetOfFront(q: Deque)
    requires q != []
    ensures multiset(q) == multiset{q[0]} + multiset(q[1..])
  {
    assert q == [q[0]] + q[1..];
  }

  lemma MultisetOfBack(q: Deque)
    requires q != []
    ensures multiset(q) == multiset(q[..|q| - 1]) + multiset{q[|q| - 1]}
  {
    assert q == q[..|q| - 1] + [q[|q| - 1]];
  }

  lemma PopLocalTakesOne(st: PoolState, i: nat)
    requires i < |st.locals| && st.locals[i] != []
    ensures TookOne(st, PopLocal(st, Some(i)), Local(i), true)
  {
    MultisetOfFront(st.locals[i]);
    SumQueuesUpdate(st.locals, i, st.locals[i][1..], multiset{st.locals[i][0]});
  }

  lemma PopGlobalTakesOne(st: PoolState)
    requires st.global != []
    ensures TookOne(st, PopGlobal(st), Global, true)
  {
    MultisetOfFront(st.global);
  }

  lemma PopOtherTakesOne(st: PoolState, caller: Option<nat>, p: nat)
    requires ScanFrom(st.locals, MyIndex(caller), 0) == Some(p)
    ensures TookOne(st, PopOther(st, caller), Local(ScanIndex(MyIndex(caller), p, |st.locals|)), false)
  {
    var v := ScanIndex(MyIndex(caller), p, |st.locals|);
    var q := st.locals[v];
    var s := PopOther(st, caller);
    assert s.ran == Some(q[|q| - 1]);
    assert s.after == st.(locals := st.locals[v := q[..|q| - 1]]);
    MultisetOfBack(q);
    SumQueuesUpdate(st.locals, v, q[..|q| - 1], multiset{q[|q| - 1]});
    assert OnlyChanged(st, s.after, Local(v));
  }

  /**
   * A call obtains a task exactly when it has a source; it takes one task
   * from that queue alone: the front of the caller's deque or of the global
   * FIFO, the back of a victim's deque.
   */
  lemma RunPendingTakesOne(st: PoolState, caller: Option<nat>)
    requires CallerOk(st, caller)
    ensures RunPending(st, caller).ran.Some? <==> Source(st, caller).Some?
    ensures Source(st, caller).Some? ==>
              var id := Source(st, caller).value;
              ValidId(st, id) && TookOne(st, RunPending(st, caller), id, id == Global || caller == Some(id.index))
  {
    if caller.Some? && st.locals[caller.value] != [] {
      PopLocalTakesOne(st, caller.value);
    } else if st.global != [] {
      PopGlobalTakesOne(st);
    } else if ScanFrom(st.locals, MyIndex(caller), 0).Some? {
      var p := ScanFrom(st.locals, MyIndex(caller), 0).value;
      PopOtherTakesOne(st, caller, p);
      if caller.Some? {
        assert Source(st, caller).value != Local(caller.value);
      }
    }
  }

  lemma TookOneKeepsInvocable(st: PoolState, s: Step, id: QueueId, fromFront: bool)
    requires ValidId(st, id) && TookOne(st, s, id, fromFront) && AllInvocable(st)
    ensures s.ran.value.Invocable() && AllInvocable(s.after)
  {
    assert s.ran.value in Tasks(st);
  }

  /** Each of the three sources hands out only wrappers that hold a callable, and keeps that so. */
  lemma PopLocalKeepsInvocable(st: PoolState, caller: Option<nat>)
    requires CallerOk(st, caller) && AllInvocable(st)
    ensures PopLocal(st, caller).ran.Some? ==> PopLocal(st, caller).ran.value.Invocable()
    ensures AllInvocable(PopLocal(st, caller).after)
  {
    if caller.Some? && st.locals[caller.value] != [] {
      PopLocalTakesOne(st, caller.value);
      TookOneKeepsInvocable(st, PopLocal(st, caller), Local(caller.value), true);
    }
  }

  lemma PopGlobalKeepsInvocable(st: PoolState)
    requires AllInvocable(st)
    ensures PopGlobal(st).ran.Some? ==> PopGlobal(st).ran.value.Invocable()
    ensures AllInvocable(PopGlobal(st).after)
  {
    if st.global != [] {
      PopGlobalTakesOne(st);
      TookOneKeepsInvocable(st, PopGlobal(st), Global, true);
    }
  }

  lemma PopOtherKeepsInvocable(st: PoolState, caller: Option<nat>)
    requires AllInvocable(st)
    ensures PopOther(st, caller).ran.Some? ==> PopOther(st, caller).ran.value.Invocable()
    ensures AllInvocable(PopOther(st, caller).after)
  {
    match ScanFrom(st.locals, MyIndex(caller), 0)
    case None =>
      assert PopOther(st, caller).after == st;
    case Some(p) =>
      PopOtherTakesOne(st, caller, p);
      TookOneKeepsInvocable(st, PopOther(st, caller), Local(ScanIndex(MyIndex(caller), p, |st.locals|)), false);
  }

  /** A default-constructed (empty) wrapper is never handed out to be invoked. */
  lemma RunPendingKeepsInvocable(st: PoolState, caller: Option<nat>)
    requires CallerOk(st, caller) && AllInvocable(st)
    ensures RunPending(st, caller).ran.Some? ==> RunPending(st, caller).ran.value.Invocable()
    ensures AllInvocable(RunPending(st, caller).after)
  {
    PopLocalKeepsInvocable(st, caller);
    PopGlobalKeepsInvocable(st);
    PopOtherKeepsInvocable(st, caller);
  }

  lemma SubmitKeepsInvocable(st: PoolState, caller: Option<nat>, task: FunctionWrapper)
    requires CallerOk(st, caller) && AllInvocable(st) && task.Invocable()
    ensures AllInvocable(Submit(st, caller, task))
  {
    SubmitAddsOne(st, caller, task);
  }

  /** Submitting grows exactly one queue by the one task: the caller's deque or the global FIFO. */
  lemma SubmitAddsOne(st: PoolState, caller: Option<nat>, task: FunctionWrapper)
    requires CallerOk(st, caller)
    ensures var st' := Submit(st, caller, task);
            var id := if caller.Some? then Local(caller.value) else Global;
            && Tasks(st') == Tasks(st) + multiset{task}
            && ValidId(st, id) && OnlyChanged(st, st', id)
            && |QueueOf(st', id)| == |QueueOf(st, id)| + 1
  {
    var st' := Submit(st, caller, task);
    if caller.Some? {
      var i := caller.value;
      assert multiset([task] + st.locals[i]) == multiset(st.locals[i]) + multiset{task};
      assert st'.locals[i := st.locals[i]] == st.locals;
      SumQueuesUpdate(st'.locals, i, st.locals[i], multiset{task});
      assert OnlyChanged(st, st', Local(i));
    } else {
      assert multiset(st.global + [task]) == multiset(st.global) + multiset{task};
      assert OnlyChanged(st, st', Global);
    }
  }

  /** A worker that submits and then looks for work gets its own task back first. */
  lemma SubmitThenRunOnSameWorker(st: PoolState, i: nat, task: FunctionWrapper)
    requires i < |st.locals|
    ensures RunPending(Submit(st, Some(i), task), Some(i)).ran == Some(task)
    ensures RunPending(Submit(st, Some(i), task), Some(i)).after == st
  {
    assert st.locals[i := [task] + st.locals[i]][i := st.locals[i]] == st.locals;
  }

  /** The tasks one caller obtains from `k` consecutive calls. */
  function RunRepeatedly(st: PoolState, caller: Option<nat>, k: nat): seq<FunctionWrapper>
    requires CallerOk(st, caller)
    decreases k
  {
    if k == 0 then []
    else
      var s := RunPending(st, caller);
      (if s.ran.Some? then [s.ran.value] else []) + RunRepeatedly(s.after, caller, k - 1)
  }

  /** While tasks are queued, a call runs one of them and the pool keeps the rest. */
  lemma RunPendingRunsOneOfThem(st: PoolState, caller: Option<nat>)
    requires CallerOk(st, caller)
    requires Tasks(st) != multiset{}
    ensures var s := RunPending(st, caller);
            && s.ran.Some? && |s.after.locals| == |st.locals|
            && Tasks(st) == Tasks(s.after) + multiset{s.ran.value}
  {
    TasksEmptyIffAllEmpty(st);
    RunPendingIdleIffAllEmpty(st, caller);
    RunPendingTakesOne(st, caller);
  }

  /**
   * Once no more tasks are submitted, a single worker calling
   * `RunPendingTask` as many times as there are queued tasks runs every one
   * of them exactly once.
   */
  lemma {:induction false} DrainRunsEachTaskOnce(st: PoolState, caller: Option<nat>)
    requires CallerOk(st, caller)
    ensures multiset(RunRepeatedly(st, caller, |Tasks(st)|)) == Tasks(st)
    decreases |Tasks(st)|
  {
    if |Tasks(st)| > 0 {
      var s := RunPending(st, caller);
      RunPendingRunsOneOfThem(st, caller);
      var t := s.ran.value;
      assert |Tasks(s.after)| == |Tasks(st)| - 1;
      DrainRunsEachTaskOnce(s.after, caller);
      RunRepeatedlyFirstCall(st, caller, |Tasks(st)|);
      assert multiset([t] + RunRepeatedly(s.after, caller, |Tasks(s.after)|))
          == multiset{t} + multiset(RunRepeatedly(s.after, caller, |Tasks(s.after)|));
    }
  }

  /** A first call that finds a task contributes that task ahead of the later calls' tasks. */
  lemma RunRepeatedlyFirstCall(st: PoolState, caller: Option<nat>, k: nat)
    requires CallerOk(st, caller) && k > 0 && RunPending(st, caller).ran.Some?
    ensures CallerOk(RunPending(st, caller).after, caller)
    ensures RunRepeatedly(st, caller, k)
         == [RunPending(st, caller).ran.value] + RunRepeatedly(RunPending(st, caller).after, caller, k - 1)
  {
  }
}
