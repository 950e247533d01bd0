/**
 * The scenario of test/thread_safe_queue_test.cc, run sequentially: a
 * producer pushes its values (the test uses 0 to 19), then a consumer makes
 * as many blocking pops and must see the values in the order pushed. Each
 * method's postcondition is that order, for any sequence of values.
 */
module ThreadSafeQueueTest {
  import LockedQueue
  import SimpleLockedQueue

  method LockedQueueTest<T>(produced: seq<T>) returns (consumed: seq<T>)
    ensures consumed == produced
  {
    var q := new LockedQueue.LockedQueue<T>();
    for i := 0 to |produced|
      invariant q.Valid() && fresh(q.Repr)
      invariant q.Contents == produced[..i]
    {
      q.Push(produced[i]);
      assert produced[..i + 1] == produced[..i] + [produced[i]];
    }
    consumed := [];
    for i := 0 to |produced|
      invariant q.Valid() && fresh(q.Repr)
      invariant consumed == produced[..i] && q.Contents == produced[i..]
    {
      var r := q.WaitAndPop();
      consumed := consumed + [r.value];
      assert produced[..i + 1] == produced[..i] + [produced[i]];
    }
  }

  method SimpleLockedQueueTest<T>(produced: seq<T>) returns (consumed: seq<T>)
    ensures consumed == produced
  {
    var q := new SimpleLockedQueue.SimpleLockedQueue<T>();
    for i := 0 to |produced|
      invariant fresh(q)
      invariant q.Contents() == produced[..i]
    {
      q.Push(produced[i]);
      assert produced[..i + 1] == produced[..i] + [produced[i]];
    }
    consumed := [];
    for i := 0 to |produced|
      invariant fresh(q)
      invariant consumed == produced[..i] && q.Contents() == produced[i..]
    {
      var r := q.WaitAndPop();
      consumed := consumed + [r.value];
      assert produced[..i + 1] == produced[..i] + [produced[i]];
    }
  }

  /** The test's own values: 0, 1, ..., 19 come out as 0, 1, ..., 19. */
  method OneProduceOneConsumer() returns (linked: seq<int>, simple: seq<int>)
    ensures linked == simple == seq(20, i => i)
  {
    var values := seq(20, i => i);
    linked := LockedQueueTest(values);
    simple := SimpleLockedQueueTest(values);
  }
}
