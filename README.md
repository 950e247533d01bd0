# Thread-safe queues and a work-stealing thread pool, modelled in Dafny

This project models the concurrency toolkit of the `base` library. It covers four things:

- **Four FIFO queues.** Each one pushes at the back and pops at the front:
  - `SimpleLockedQueue1` and `SimpleLockedQueue` (one mutex around a `std::queue`);
  - `ThreadSafeQueue1` and `ThreadSafeQueue` (the same two designs in a second file);
  - the fine-grained `LockedQueue`, a singly linked list that always ends in an empty sentinel node, with separate head and tail locks.

  The `1` variants store plain values and allocate a `shared_ptr` when a pop has to return one. The others box the value at `Push`, so no pop allocates.
- **`WorkStealingQueue`**, the per-worker deque. Its owner pushes and pops at the front, so it works as a stack. Thieves steal from the back.
- **How `ThreadPool` selects tasks.**
  - `Submit` queues a wrapped task on the caller's own deque when the caller is a worker, and on the global `LockedQueue` otherwise.
  - `RunPendingTask` takes one task: from the caller's deque first, then from the global queue, then by stealing. Stealing scans the deques in the order `(my_index_ + 1 + i) % n`.
- **`FunctionWrapper`**, an opaque value. It is either empty or holds a callable.

Locks take no part in the model. Each operation is one atomic step on the object's state.

## Module map

- **`Pointers`**:
  - `Shared<T>` stands for a `std::shared_ptr<T>`: an object with an immutable value. Whether a pop allocates shows up as `fresh(r)` or `!fresh(r)`.
  - `Cell<T>` stands for a `T*` out-parameter. It is written only when a pop succeeds.
- **`LockedQueue`**: the linked queue as a `class` over `Node` objects. Its ghost view (`nodes`, `Contents`, `Repr`) is tied to the chain by `Valid()`.
- **`SimpleLockedQueue` and `SimpleThreadSafeQueue`**: the single-lock queues as classes over a `seq` field.
- **`Fifo`**: the FIFO contract these queues share.
  - An `Op` is one of the six interface calls (`Push`, `Empty`, the two `TryPop` and the two `WaitAndPop` forms), and an `Answer` is what that call returns.
  - `Run` gives the answers a FIFO holding `q` returns to a sequence of calls, as long as no blocking pop finds it empty (`Completes`).
  - It comes with its properties: for any interleaving, the values handed out followed by those still queued are the values queued and pushed, in order; a blocking pop of a non-empty FIFO answers like the non-blocking one; an empty queue answers "no value".
- **`QueueEquivalence`**: for each queue class, a method that makes any one call and one that runs any call sequence on a fresh queue. Both are proved to return exactly what `Fifo.Reply` and `Fifo.Run` predict.
- **`ThreadSafeQueueTest`**: the producer/consumer scenario of the repository's test, run sequentially.
- **`Scheduling`**: the pool's selection rules stated on values.
  - A `PoolState` is the deques plus the global FIFO. Its operations are `PopLocal`, `PopGlobal`, `PopOther`, `RunPending` and `Submit`.
  - The lemmas cover: the scan order, priority between sources, how many tasks each step takes, keeping every queued wrapper invocable, and draining the pool.
- **`ThreadPool`**: `WorkStealingQueue` and `ThreadPool` as classes. `Submit`, the three `PopTaskFrom…` methods and `RunPendingTask` are each proved to change the pool's `State()` exactly as their `Scheduling` counterpart does; the constructor and the per-deque helper `TryStealAt` state the new `State()` directly.

## Model

| member | source | states |
|---|---|---|
| Pointers.Values | base/simple_locked_queue.h:96 | the values behind a queue of boxes, one per box in the same order |
| LockedQueue.Node.constructor | base/locked_queue.h:44 | a new node (`new Node`) carries no payload and has no successor |
| LockedQueue.LockedQueue.Valid | base/locked_queue.h:57-61 | defines the well-formed chain: from `head`, the `next_` links walk distinct nodes ending at `tail`; each node before `tail` holds the payload at its position; `tail` is the sentinel, with no data and no successor; a valid queue is in its own footprint |
| LockedQueue.LockedQueue.constructor | base/locked_queue.h:16 | a new queue is one sentinel node that is both head and tail, holding nothing |
| LockedQueue.LockedQueue.HeadIsTailIffEmpty | base/locked_queue.h:20-23 | in a well-formed chain, head is the sentinel exactly when no payload is queued |
| LockedQueue.LockedQueue.Empty | base/locked_queue.h:20-23 | the head-equals-tail test answers true exactly when the queue holds nothing |
| LockedQueue.LockedQueue.Push | base/locked_queue.h:42-55 | the old sentinel takes a freshly boxed value and links a fresh sentinel, which becomes the tail; the contents gain the value at the back; head and the earlier nodes are untouched; the chain stays well formed |
| LockedQueue.LockedQueue.PopHead | base/locked_queue.h:68-72 | the head node is unlinked (its `next` is cleared) and returned with the oldest payload; its successor becomes head; the contents lose their front |
| LockedQueue.LockedQueue.TryPopHead | base/locked_queue.h:92-98 | returns null and changes nothing exactly when empty; otherwise unlinks and returns the old head, which carries the front payload |
| LockedQueue.LockedQueue.TryPopHeadInto | base/locked_queue.h:100-107 | when empty, leaves the out-parameter and the queue alone; otherwise moves the front payload into the out-parameter and unlinks the head |
| LockedQueue.LockedQueue.WaitPopHead | base/locked_queue.h:81-84 | on a non-empty queue, unlinks the head and returns it with the front payload |
| LockedQueue.LockedQueue.WaitPopHeadInto | base/locked_queue.h:86-90 | on a non-empty queue, moves the front payload into the out-parameter and unlinks the head |
| LockedQueue.LockedQueue.TryPop | base/locked_queue.h:25-28 | null exactly when empty; otherwise the very box the old head node carried, stored by the matching push (not a new allocation), holding the front value, which is removed |
| LockedQueue.LockedQueue.TryPopInto | base/locked_queue.h:30-33 | true exactly when the queue held something; then the out-parameter gets the front and the front is removed; otherwise nothing changes |
| LockedQueue.LockedQueue.WaitAndPop | base/locked_queue.h:35-38 | on a non-empty queue, returns the very box the old head node carried (the front value) and removes it |
| LockedQueue.LockedQueue.WaitAndPopInto | base/locked_queue.h:40 | on a non-empty queue, the out-parameter gets the front value, which is removed |
| SimpleLockedQueue.SimpleLockedQueue1.constructor | base/simple_locked_queue.h:23 | a new queue is empty |
| SimpleLockedQueue.SimpleLockedQueue1.Empty | base/simple_locked_queue.h:25-28 | true exactly when nothing is queued |
| SimpleLockedQueue.SimpleLockedQueue1.Push | base/simple_locked_queue.h:30-34 | appends the value at the back |
| SimpleLockedQueue.SimpleLockedQueue1.WaitAndPopInto | base/simple_locked_queue.h:36-41 | on a non-empty queue, the out-parameter gets the front value, which is removed |
| SimpleLockedQueue.SimpleLockedQueue1.WaitAndPop | base/simple_locked_queue.h:43-49 | on a non-empty queue, returns a freshly allocated box of the front value and removes it |
| SimpleLockedQueue.SimpleLockedQueue1.TryPopInto | base/simple_locked_queue.h:51-59 | false and no change exactly when empty; otherwise the out-parameter gets the front, which is removed |
| SimpleLockedQueue.SimpleLockedQueue1.TryPop | base/simple_locked_queue.h:61-69 | null and no change exactly when empty; otherwise a freshly allocated box of the front, which is removed |
| SimpleLockedQueue.SimpleLockedQueue.constructor | base/simple_locked_queue.h:80 | a new queue is empty |
| SimpleLockedQueue.SimpleLockedQueue.Empty | base/simple_locked_queue.cc:3-7 | true exactly when nothing is queued |
| SimpleLockedQueue.SimpleLockedQueue.Push | base/simple_locked_queue.cc:9-15 | boxes the value in a fresh object and appends that box at the back |
| SimpleLockedQueue.SimpleLockedQueue.WaitAndPopInto | base/simple_locked_queue.cc:17-23 | on a non-empty queue, the out-parameter gets the front box's value, and the box is removed |
| SimpleLockedQueue.SimpleLockedQueue.WaitAndPop | base/simple_locked_queue.cc:25-32 | on a non-empty queue, returns the stored front box itself (no allocation) and removes it |
| SimpleLockedQueue.SimpleLockedQueue.TryPopInto | base/simple_locked_queue.cc:34-43 | false and no change exactly when empty; otherwise the out-parameter gets the front value, which is removed |
| SimpleLockedQueue.SimpleLockedQueue.TryPop | base/simple_locked_queue.cc:45-54 | null and no change exactly when empty; otherwise the stored front box, which is removed |
| SimpleThreadSafeQueue.ThreadSafeQueue1.constructor | base/simple_thread_safe_queue.h:21 | a new queue is empty |
| SimpleThreadSafeQueue.ThreadSafeQueue1.Empty | base/simple_thread_safe_queue.h:23-26 | true exactly when nothing is queued |
| SimpleThreadSafeQueue.ThreadSafeQueue1.Push | base/simple_thread_safe_queue.h:28-32 | appends the value at the back |
| SimpleThreadSafeQueue.ThreadSafeQueue1.WaitAndPopInto | base/simple_thread_safe_queue.h:34-39 | on a non-empty queue, the out-parameter gets the front value, which is removed |
| SimpleThreadSafeQueue.ThreadSafeQueue1.WaitAndPop | base/simple_thread_safe_queue.h:41-47 | on a non-empty queue, a freshly allocated box of the front value, which is removed |
| SimpleThreadSafeQueue.ThreadSafeQueue1.TryPopInto | base/simple_thread_safe_queue.h:49-57 | false and no change exactly when empty; otherwise the out-parameter gets the front, which is removed |
| SimpleThreadSafeQueue.ThreadSafeQueue1.TryPop | base/simple_thread_safe_queue.h:59-67 | null and no change exactly when empty; otherwise a freshly allocated box of the front, which is removed |
| SimpleThreadSafeQueue.ThreadSafeQueue.constructor | base/simple_thread_safe_queue.h:78 | a new queue is empty |
| SimpleThreadSafeQueue.ThreadSafeQueue.Empty | base/simple_thread_safe_queue.h:80-83 | true exactly when nothing is queued |
| SimpleThreadSafeQueue.ThreadSafeQueue.Push | base/simple_thread_safe_queue.h:85-90 | boxes the value in a fresh object and appends that box at the back |
| SimpleThreadSafeQueue.ThreadSafeQueue.WaitAndPopInto | base/simple_thread_safe_queue.h:92-97 | on a non-empty queue, the out-parameter gets the front box's value, and the box is removed |
| SimpleThreadSafeQueue.ThreadSafeQueue.WaitAndPop | base/simple_thread_safe_queue.h:99-105 | on a non-empty queue, the stored front box itself, which is removed |
| SimpleThreadSafeQueue.ThreadSafeQueue.TryPopInto | base/simple_thread_safe_queue.h:107-115 | false and no change exactly when empty; otherwise the out-parameter gets the front value, which is removed |
| SimpleThreadSafeQueue.ThreadSafeQueue.TryPop | base/simple_thread_safe_queue.h:117-125 | null and no change exactly when empty; otherwise the stored front box, which is removed |
| Fifo.Blocks | base/locked_queue.h:74-79 | defines when a call would wait forever: a blocking pop while nothing is queued |
| Fifo.After | base/simple_locked_queue.h:25-69 | defines the FIFO after one call that does not wait forever: a push appends its value, `Empty` changes nothing, any pop removes the front if there is one |
| Fifo.Reply | base/simple_locked_queue.h:25-69 | defines what one such call answers: nothing for a push, whether the FIFO is empty for `Empty`, the front or null for a pointer pop, success and the caller's variable (the front, or its old value on failure) for an out-parameter pop |
| Fifo.Completes | base/locked_queue.h:74-79 | defines the call sequences in which no blocking pop meets an empty FIFO |
| Fifo.Run | base/thread_safe_queue.h:10-20 | defines the answers a FIFO holding `q` gives to a call sequence, one reply after another |
| Fifo.RunFirstCall | base/thread_safe_queue.h:10-20 | a run is the first call's reply followed by the run of the remaining calls from the FIFO it leaves |
| Fifo.Final | base/thread_safe_queue.h:10-20 | defines what the FIFO holds after a call sequence |
| Fifo.PushedValues | base/thread_safe_queue.h:12 | the values a call sequence pushes, in order; there are no more of them than calls |
| Fifo.PoppedValues | base/thread_safe_queue.h:14-20 | the values successful pops hand out, in order; there are no more of them than answers |
| Fifo.StepKeepsOrder | base/simple_locked_queue.h:30-69 | for any one call, what it hands out followed by what stays is what was queued followed by what it pushed |
| Fifo.PopOrderIsPushOrder | base/simple_locked_queue.h:30-69 | for any interleaving of the six calls, the values handed out followed by the values left are the values queued at the start followed by the values pushed |
| Fifo.PopsTakeAPrefix | base/locked_queue.h:25-55 | from an empty queue, the popped values are a prefix of the pushed values: no value is lost, duplicated or reordered |
| Fifo.WaitAndPopAnswersLikeTryPop | base/locked_queue.h:25-40 | on a non-empty FIFO, each blocking pop answers and leaves the FIFO exactly as its non-blocking counterpart does: the front value |
| Fifo.RunAfterPushes | base/simple_locked_queue.h:30-34 | a run of pushes only appends its values at the back, with no answers |
| Fifo.RunPopsAll | base/simple_locked_queue.h:43-69 | as many pops (blocking or not) as queued values hand out all of them, front first |
| Fifo.FifoOrder | test/thread_safe_queue_test.cc:7-26 | values pushed into an empty FIFO and then popped, with blocking or non-blocking pops, come out in the order pushed |
| Fifo.EmptyPopsAnswerNone | base/simple_locked_queue.h:63-65 | every non-blocking pop of an empty FIFO answers "no value" |
| QueueEquivalence.CallLockedQueue | base/locked_queue.h:20-55 | any one of the six calls on the linked queue, unless it would wait forever, leaves its contents and answers as `Fifo.After` and `Fifo.Reply` say |
| QueueEquivalence.CallSimpleLockedQueue1 | base/simple_locked_queue.h:25-69 | the same for the single-lock queue of values |
| QueueEquivalence.CallSimpleLockedQueue | base/simple_locked_queue.cc:3-54 | the same for the single-lock queue of boxes |
| QueueEquivalence.CallThreadSafeQueue1 | base/simple_thread_safe_queue.h:23-67 | the same for `ThreadSafeQueue1` |
| QueueEquivalence.CallThreadSafeQueue | base/simple_thread_safe_queue.h:80-125 | the same for `ThreadSafeQueue` |
| QueueEquivalence.ReplayLockedQueue | base/locked_queue.h:16-55 | for every sequence of the six calls in which no blocking pop finds the queue empty, a fresh linked queue answers exactly as `Fifo.Run` predicts |
| QueueEquivalence.ReplaySimpleLockedQueue1 | base/simple_locked_queue.h:23-69 | the same for the single-lock queue of values |
| QueueEquivalence.ReplaySimpleLockedQueue | base/simple_locked_queue.cc:3-54 | the same for the single-lock queue of boxes |
| QueueEquivalence.ReplayThreadSafeQueue1 | base/simple_thread_safe_queue.h:21-67 | the same for `ThreadSafeQueue1` |
| QueueEquivalence.ReplayThreadSafeQueue | base/simple_thread_safe_queue.h:78-125 | the same for `ThreadSafeQueue` |
| QueueEquivalence.LinkedMatchesBaseline | base/locked_queue.h:9-16 | for every sequence of the six calls in which no blocking pop finds the queue empty, the fine-grained linked queue and the baseline single-lock queue give identical answers, those of `Fifo.Run` |
| ThreadSafeQueueTest.LockedQueueTest | test/thread_safe_queue_test.cc:34-38 | pushing any values into a `LockedQueue` and then making as many blocking pops returns them in the order pushed |
| ThreadSafeQueueTest.SimpleLockedQueueTest | test/thread_safe_queue_test.cc:28-32 | the same for `SimpleLockedQueue` |
| ThreadSafeQueueTest.OneProduceOneConsumer | test/thread_safe_queue_test.cc:7-26 | with the test's values 0 to 19, both queues return exactly 0 to 19 |
| ThreadPool.WorkStealingQueue.constructor | base/thread_pool.h:66 | a new deque is empty |
| ThreadPool.WorkStealingQueue.Push | base/thread_pool.h:70-73 | the task goes in at the front |
| ThreadPool.WorkStealingQueue.TryPop | base/thread_pool.h:75-83 | false and no change exactly when empty; otherwise the front task (the newest) goes to the out-parameter and is removed |
| ThreadPool.WorkStealingQueue.TrySteal | base/thread_pool.h:85-93 | false and no change exactly when empty; otherwise the back task (the oldest) goes to the out-parameter and is removed |
| ThreadPool.WorkStealingQueue.Empty | base/thread_pool.h:95-98 | true exactly when the deque holds nothing |
| ThreadPool.Reversed | base/thread_pool.h:59-61 | the reverse of a sequence, element by element |
| ThreadPool.OwnerPopsInReverse | base/thread_pool.h:59-61 | after pushes only, the owner's pops return the tasks last in, first out |
| ThreadPool.ThiefStealsInOrder | base/thread_pool.h:62-63 | after pushes only, repeated steals return the tasks in the order pushed |
| ThreadPool.ThreadPool.constructor | base/thread_pool.h:108-113 | one empty deque per hardware thread and an empty global queue |
| ThreadPool.ThreadPool.Submit | base/thread_pool.h:126-139 | the pool's new state is `Scheduling.Submit`: the wrapped callable at the front of the caller's deque for a worker, at the back of the global queue otherwise; every queued wrapper stays invocable |
| ThreadPool.ThreadPool.PopTaskFromLocalQueue | base/thread_pool.h:162-164 | success, the task and the new state are those of `Scheduling.PopLocal`; the out-parameter is untouched on failure |
| ThreadPool.ThreadPool.PopTaskFromGlobalQueue | base/thread_pool.h:166-168 | success, the task and the new state are those of `Scheduling.PopGlobal` |
| ThreadPool.ThreadPool.TryStealAt | base/thread_pool.h:173 | one `TrySteal` on the deque at `index`, seen on the pool's state: it succeeds exactly when that deque held a task, then hands out its back task and removes it from that deque alone; otherwise nothing changes |
| ThreadPool.ThreadPool.PopTaskFromOtherThreadQueue | base/thread_pool.h:170-178 | the loop over `(my_index_ + 1 + i) % n` has the outcome of `Scheduling.PopOther`: it steals from the first non-empty deque in scan order, or fails with the pool unchanged |
| ThreadPool.ThreadPool.RunPendingTask | base/thread_pool.h:141-149 | the task it would invoke and the new state are those of `Scheduling.RunPending`; that task holds a callable |
| Scheduling.MyIndex | base/thread_pool.h:189 | defines `my_index_` of the calling thread: a worker's own index, the zero initial value for a thread that is no worker |
| Scheduling.ScanIndex | base/thread_pool.h:172 | defines the `i`-th deque index the steal loop computes, `(my_index_ + 1 + i) % n` |
| Scheduling.ScanOrder | base/thread_pool.h:171-172 | the `n` deque indices the steal loop computes, in order |
| Scheduling.ScanIndexClosedForm | base/thread_pool.h:172 | for `me < n` and `i < n`, `(me + 1 + i) % n` is `me + 1 + i` or `me + 1 + i - n` |
| Scheduling.ScanOrderVisitsEachOnce | base/thread_pool.h:171-172 | the scan visits every deque exactly once (indices in range, pairwise distinct, each deque at a known step), starting just after the caller's own deque and ending at it |
| Scheduling.ScanOrderOfNoDeques | base/thread_pool.h:171 | with no deques the loop computes no index |
| Scheduling.ScanFrom | base/thread_pool.h:171-176 | the first step at or after `i` whose deque is non-empty, with every deque passed over empty; or none, with every remaining deque empty |
| Scheduling.Steal | base/thread_pool.h:170-178 | defines stealing on the deques: the back task of the first non-empty deque in scan order, which loses it; nothing and no change when the scan finds none |
| Scheduling.PopLocal | base/thread_pool.h:162-164 | defines `PopTaskFromLocalQueue`: the front of the caller's own deque when it is a worker with a non-empty deque; otherwise nothing and no change |
| Scheduling.PopGlobal | base/thread_pool.h:166-168 | defines `PopTaskFromGlobalQueue`: the front of the global FIFO if it has one; otherwise nothing and no change |
| Scheduling.PopOther | base/thread_pool.h:170-178 | defines `PopTaskFromOtherThreadQueue`: `Steal` on the pool's deques from the caller's `my_index_`, the global queue untouched |
| Scheduling.RunPending | base/thread_pool.h:141-149 | defines the task `RunPendingTask` obtains: the local pop's, else the global pop's, else the steal's, each tried only when the earlier failed |
| Scheduling.Submit | base/thread_pool.h:132-136 | defines where `Submit` queues a task: at the front of a worker caller's own deque, at the back of the global FIFO for any other thread |
| Scheduling.Source | base/thread_pool.h:141-149 | defines which queue `RunPendingTask` draws on: the caller's deque, the global queue, or the first non-empty deque in scan order; none when all are empty |
| Scheduling.RunRepeatedly | base/thread_pool.h:154-160 | defines the tasks one worker's loop obtains over `k` calls of `RunPendingTask` |
| Scheduling.RunRepeatedlyFirstCall | base/thread_pool.h:157-158 | a first call that obtains a task contributes that task ahead of the tasks of the remaining calls, which start from the state it leaves |
| Scheduling.StealFailsIffAllEmpty | base/thread_pool.h:170-178 | stealing fails exactly when every deque is empty, and then changes nothing |
| Scheduling.RunPendingIdleIffAllEmpty | base/thread_pool.h:141-149 | `RunPendingTask` finds nothing (and yields) exactly when the whole pool is empty, and then leaves it unchanged |
| Scheduling.RunPendingPriority | base/thread_pool.h:143-144 | the global queue is used only when the caller's deque is empty; another worker's deque is used only when the caller's deque and the global queue are empty, and it is the first non-empty deque in scan order |
| Scheduling.PopLocalTakesOne | base/thread_pool.h:162-164 | a successful local pop takes the front of the caller's deque, changes no other queue, and keeps the pool's multiset of tasks minus that task |
| Scheduling.PopGlobalTakesOne | base/thread_pool.h:166-168 | a successful global pop takes the global front, changes no deque, and keeps the remaining tasks |
| Scheduling.PopOtherTakesOne | base/thread_pool.h:170-178 | a successful steal takes the back of the victim's deque, changes no other queue, and keeps the remaining tasks |
| Scheduling.RunPendingTakesOne | base/thread_pool.h:141-149 | a call obtains a task exactly when it has a source, and takes exactly one task from that source alone (the front of its own deque or of the global queue, the back of a victim's deque) |
| Scheduling.TookOneKeepsInvocable | base/thread_pool.h:141-145 | a task taken from a pool whose wrappers all hold callables holds one, and the rest still do |
| Scheduling.PopLocalKeepsInvocable | base/thread_pool.h:162-164 | the local pop hands out only invocable wrappers and keeps the pool so |
| Scheduling.PopGlobalKeepsInvocable | base/thread_pool.h:166-168 | the same for the global pop |
| Scheduling.PopOtherKeepsInvocable | base/thread_pool.h:170-178 | the same for stealing |
| Scheduling.RunPendingKeepsInvocable | base/thread_pool.h:141-149 | `RunPendingTask` never invokes an empty wrapper, and keeps every queued wrapper invocable |
| Scheduling.SubmitKeepsInvocable | base/thread_pool.h:126-139 | submitting a callable keeps every queued wrapper invocable |
| Scheduling.SubmitAddsOne | base/thread_pool.h:132-136 | submitting grows exactly one queue (the caller's deque or the global queue) by one task and adds that task to the pool |
| Scheduling.SubmitThenRunOnSameWorker | base/thread_pool.h:132-133 | a worker that submits and then runs a pending task gets its own task back, and the pool returns to its earlier state |
| Scheduling.SumQueuesUpdate | base/thread_pool.h:186 | replacing one deque by one with `d` fewer tasks removes exactly `d` from the tasks of all deques |
| Scheduling.SumQueuesAllEmpty | base/thread_pool.h:186 | deques that are all empty hold no tasks |
| Scheduling.SumQueuesNonEmpty | base/thread_pool.h:186 | a non-empty deque means the deques hold some task |
| Scheduling.TasksEmptyIffAllEmpty | base/thread_pool.h:185-186 | the pool has no tasks exactly when the global queue and every deque are empty |
| Scheduling.RunPendingRunsOneOfThem | base/thread_pool.h:141-149 | while tasks are queued, a call runs one of them and the pool keeps all the others |
| Scheduling.DrainRunsEachTaskOnce | base/thread_pool.h:154-160 | once nothing more is submitted, one worker that calls `RunPendingTask` as many times as there are queued tasks runs every queued task exactly once |

## Left out

- Mutexes, `lock_guard`, `unique_lock`, condition variables and `notify_one`. Each operation is modelled as one atomic step. Interleavings are not modelled, and neither is any claim about lock-freedom or contention.
- The blocking waits (`cv_.wait`, `WaitForData`) become the precondition that the queue is non-empty; in a call sequence, `Fifo.Completes` demands it of every blocking pop. A wait that never ends, and a wait that a later push from another thread ends, are not modelled.
- `LockedQueue::GetTail` is read directly as the `tail` field, because it only reads `tail_` under `tail_mu_`.
- `std::bad_alloc` and the notification-loss scenario it causes in the `1` variants. There are no exceptions in the model; allocation shows up only as `fresh` results.
- Thread plumbing is not modelled: `std::thread`, `Worker`'s loop on `done_`, `std::this_thread::yield` (it becomes a `None` result), `JoinThreads`, the destructor, and the constructor's `try`/`catch`.
- `std::thread::hardware_concurrency` becomes the constructor parameter `threadCount`.
- `thread_local` `local_task_queue_` and `my_index_` become the explicit `caller` argument: `Some(i)` for worker `i` of this pool, `None` for a thread that is a worker of no pool. For `None`, `my_index_` is its zero initial value.
- A worker of one `ThreadPool` that calls into another is not represented. Because `local_task_queue_` and `my_index_` are `static thread_local` (base/thread_pool.h:188-189), they are shared by every pool: such a thread's `Submit` to the second pool lands on its own pool's deque, and its `RunPendingTask` pops that deque first and starts the second pool's scan at its own index. `Submit`, `SubmitAddsOne` and the local pop and scan start of `RunPendingTask` are stated only for a worker of this pool or a thread that is a worker of no pool.
- `std::packaged_task` and `std::future`. `Submit` takes the callable as an opaque number and returns nothing; a result delivered through a future is not modelled.
- `FunctionWrapper` is a value that is either empty or holds a callable. Invoking it, and the moved-from state left behind by `std::move`, are not modelled. Moving a payload out is modelled as a copy of the value.
- The `ThreadSafeQueue<T>` abstract interface of base/thread_safe_queue.h, because Dafny traits are not used. Each queue class carries its own copy of the six operations, and `Fifo.Run` is the shared contract.
- The scan index is computed on unbounded integers. The unsigned wrap-around of `my_index_ + 1 + i` near `UINT_MAX` is not modelled, since indices never come close to it.
- base/simple_thread_safe_queue.cc defines `ThreadSafeQueue<T>`'s members out of line, although base/simple_thread_safe_queue.h already defines them inline with identical bodies. They are modelled once, from the header.
- Overloads are renamed:
  - `TryPop(T*)` becomes `TryPopInto`;
  - `WaitAndPop(T*)` becomes `WaitAndPopInto`;
  - `TryPopHead(T*)` becomes `TryPopHeadInto`;
  - `WaitPopHead(T*)` becomes `WaitPopHeadInto`.
- Node ownership through `unique_ptr` and the destruction of popped nodes are not modelled. A popped node is simply no longer reachable from `head`.
