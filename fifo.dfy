/**
 * The external contract every queue in this model shares: the six
 * operations of the thread-safe queue interface on a FIFO that appends at
 * `Push` and hands out its front at every pop.
 */
module Fifo {
  import opened Wrappers

  /**
   * One call on a queue. `TryPopInto` and `WaitAndPopInto` carry the value
   * the caller's variable held before the call, which a failed pop leaves in
   * place.
   */
  datatype Op<T> =
    | Push(value: T)
    | IsEmpty
    | TryPop
    | TryPopInto(slot: T)
    | WaitAndPop
    | WaitAndPopInto(slot: T)
  {
    /** The pops that wait for data instead of failing. */
    predicate Waits() { WaitAndPop? || WaitAndPopInto? }
  }

  /**
   * What a call answers: `Empty`'s result, a pointer-returning pop (`None`
   * for the null pointer), or an out-parameter pop's result together with
   * the value the caller's variable holds afterwards.
   */
  datatype Answer<T> =
    | Emptiness(empty: bool)
    | Popped(value: Option<T>)
    | Stored(ok: bool, slot: T)

  /** A blocking pop on an empty queue waits forever. */
  predicate Blocks<T>(q: seq<T>, op: Op<T>) {
    op.Waits() && q == []
  }

  /** The FIFO after one call. */
  function After<T>(q: seq<T>, op: Op<T>): (q': seq<T>)
    requires !Blocks(q, op)
  {
    match op
    case Push(x) => q + [x]
    case IsEmpty => q
    case _ => if q == [] then q else q[1..]
  }

  /** What one call answers: nothing for a push, one answer otherwise. */
  function Reply<T>(q: seq<T>, op: Op<T>): (r: seq<Answer<T>>)
    requires !Blocks(q, op)
  {
    match op
    case Push(_) => []
    case IsEmpty => [Emptiness(q == [])]
    case TryPop => [Popped(if q == [] then None else Some(q[0]))]
    case WaitAndPop => [Popped(Some(q[0]))]
    case TryPopInto(s) => [if q == [] then Stored(false, s) else Stored(true, q[0])]
    case WaitAndPopInto(_) => [Stored(true, q[0])]
  }

  /** No blocking pop of `ops`, run from `q`, finds the FIFO empty. */
  predicate Completes<T>(q: seq<T>, ops: seq<Op<T>>)
    decreases ops
  {
    ops == [] || (!Blocks(q, ops[0]) && Completes(After(q, ops[0]), ops[1..]))
  }

  /** What a FIFO holding `q` answers to the calls of `ops`, in order. */
  function Run<T>(q: seq<T>, ops: seq<Op<T>>): seq<Answer<T>>
    requires Completes(q, ops)
    decreases ops
  {
    if ops == [] then [] else Reply(q, ops[0]) + Run(After(q, ops[0]), ops[1..])
  }

  /** A run is the first call's reply followed by the run of the rest from the FIFO it leaves. */
  lemma RunFirstCall<T>(q: seq<T>, ops: seq<Op<T>>)
    requires ops != [] && Completes(q, ops)
    ensures !Blocks(q, ops[0]) && Completes(After(q, ops[0]), ops[1..])
    ensures Run(q, ops) == Reply(q, ops[0]) + Run(After(q, ops[0]), ops[1..])
  {
  }

  /** What the FIFO holds once the calls of `ops` are done. */
  function Final<T>(q: seq<T>, ops: seq<Op<T>>): seq<T>
    requires Completes(q, ops)
    decreases ops
  {
    if ops == [] then q else Final(After(q, ops[0]), ops[1..])
  }

  /** The values the calls of `ops` push, in order. */
  function PushedValues<T>(ops: seq<Op<T>>): (vs: seq<T>)
    ensures |vs| <= |ops|
  {
    if ops == [] then []
    else (if ops[0].Push? then [ops[0].value] else []) + PushedValues(ops[1..])
  }

  /** The values that successful pops hand out, in order. */
  function PoppedValues<T>(answers: seq<Answer<T>>): (vs: seq<T>)
    ensures |vs| <= |answers|
  {
    if answers == [] then []
    else
      var a := answers[0];
      (if a.Popped? && a.value.Some? then [a.value.value]
       else if a.Stored? && a.ok then [a.slot]
       else []) + PoppedValues(answers[1..])
  }

  lemma {:induction false} PoppedValuesAppend<T>(a: seq<Answer<T>>, b: seq<Answer<T>>)
    ensures PoppedValues(a + b) == PoppedValues(a) + PoppedValues(b)
    decreases |a|
  {
    if a != [] {
      assert (a + b)[1..] == a[1..] + b;
      PoppedValuesAppend(a[1..], b);
    } else {
      assert a + b == b;
    }
  }

  /** The values pushed, the values the call hands out. */
  function Pushed<T>(op: Op<T>): seq<T> {
    if op.Push? then [op.value] else []
  }

  /** One call: what it hands out, followed by what stays, is what was there plus what it pushed. */
  lemma StepKeepsOrder<T>(q: seq<T>, op: Op<T>)
    requires !Blocks(q, op)
    ensures PoppedValues(Reply(q, op)) + After(q, op) == q + Pushed(op)
  {
    var r := Reply(q, op);
    if r != [] {
      assert r[1..] == [];
    }
    if !op.Push? && !op.IsEmpty? && q != [] {
      assert PoppedValues(r) == [q[0]];
      assert q == [q[0]] + q[1..];
    }
  }

  /**
   * FIFO order for any interleaving of calls: the values handed out, followed
   * by the values still queued, are exactly the values queued at the start
   * followed by the values pushed.
   */
  lemma {:induction false} PopOrderIsPushOrder<T>(q: seq<T>, ops: seq<Op<T>>)
    requires Completes(q, ops)
    ensures PoppedValues(Run(q, ops)) + Final(q, ops) == q + PushedValues(ops)
    decreases ops
  {
    if ops != [] {
      var op, rest := ops[0], ops[1..];
      var q' := After(q, op);
      var r := Reply(q, op);
      assert Run(q, ops) == r + Run(q', rest);
      assert Final(q, ops) == Final(q', rest);
      PopOrderIsPushOrder(q', rest);
      PoppedValuesAppend(r, Run(q', rest));
      StepKeepsOrder(q, op);
      assert PushedValues(ops) == Pushed(op) + PushedValues(rest);
      Regroup(PoppedValues(r), PoppedValues(Run(q', rest)), Final(q', rest), q', PushedValues(rest), q, Pushed(op));
    }
  }

  lemma Regroup<T>(a: seq<T>, b: seq<T>, c: seq<T>, q': seq<T>, d: seq<T>, q: seq<T>, p: seq<T>)
    requires b + c == q' + d && a + q' == q + p
    ensures a + b + c == q + (p + d)
  {
    calc {
      a + b + c;
      a + (b + c);
      a + (q' + d);
      (a + q') + d;
      (q + p) + d;
      q + (p + d);
    }
  }

  /** The values the pops hand out are a prefix of the values queued and pushed, in that order. */
  lemma PopsTakeAPrefix<T>(ops: seq<Op<T>>)
    requires Completes([], ops)
    ensures PoppedValues(Run([], ops)) <= PushedValues(ops)
  {
    PopOrderIsPushOrder([], ops);
    assert [] + PushedValues(ops) == PushedValues(ops);
  }

  /** A blocking pop of a non-empty FIFO answers what the non-blocking one does. */
  lemma WaitAndPopAnswersLikeTryPop<T>(q: seq<T>, slot: T)
    requires q != []
    ensures Reply(q, WaitAndPop) == Reply(q, TryPop) == [Popped(Some(q[0]))]
    ensures Reply(q, WaitAndPopInto(slot)) == Reply(q, TryPopInto(slot)) == [Stored(true, q[0])]
    ensures After(q, WaitAndPop) == After(q, TryPop) == q[1..]
  {
  }

  /** One push per value, in order. */
  function Pushes<T>(xs: seq<T>): seq<Op<T>>
  {
    seq(|xs|, i requires 0 <= i < |xs| => Push(xs[i]))
  }

  /** `n` pops, all blocking or all not. */
  function Pops<T>(n: nat, blocking: bool): seq<Op<T>>
  {
    seq(n, _ => if blocking then WaitAndPop else TryPop)
  }

  /** The answers of pointer-returning pops that receive `xs`, in order. */
  function Delivered<T>(xs: seq<T>): seq<Answer<T>>
  {
    seq(|xs|, i requires 0 <= i < |xs| => Popped(Some(xs[i])))
  }

  /** Pushes only move their values to the back; nothing is answered yet. */
  lemma {:induction false} RunAfterPushes<T>(q: seq<T>, xs: seq<T>, ops: seq<Op<T>>)
    requires Completes(q + xs, ops)
    ensures Completes(q, Pushes(xs) + ops)
    ensures Run(q, Pushes(xs) + ops) == Run(q + xs, ops)
    decreases |xs|
  {
    if xs == [] {
      assert Pushes(xs) + ops == ops && q + xs == q;
    } else {
      assert q + [xs[0]] + xs[1..] == q + xs;
      RunAfterPushes(q + [xs[0]], xs[1..], ops);
      assert (Pushes(xs) + ops)[1..] == Pushes(xs[1..]) + ops;
    }
  }

  /** As many pops as there are values hand them all out, front first. */
  lemma {:induction false} RunPopsAll<T>(q: seq<T>, blocking: bool)
    ensures Completes(q, Pops(|q|, blocking))
    ensures Run(q, Pops(|q|, blocking)) == Delivered(q)
    decreases |q|
  {
    if q != [] {
      assert Pops<T>(|q|, blocking)[1..] == Pops(|q[1..]|, blocking);
      RunPopsAll(q[1..], blocking);
      assert Delivered(q) == [Popped(Some(q[0]))] + Delivered(q[1..]);
    }
  }

  /**
   * Values pushed one after another come out in the same order, whether the
   * consumer uses the blocking or the non-blocking pop.
   */
  lemma FifoOrder<T>(xs: seq<T>, blocking: bool)
    ensures Completes([], Pushes(xs) + Pops(|xs|, blocking))
    ensures Run([], Pushes(xs) + Pops(|xs|, blocking)) == Delivered(xs)
  {
    assert [] + xs == xs;
    RunPopsAll(xs, blocking);
    RunAfterPushes([], xs, Pops(|xs|, blocking));
  }

  /** Popping an empty FIFO without waiting answers "no value" every time. */
  lemma {:induction false} EmptyPopsAnswerNone<T>(n: nat)
    ensures Completes([], Pops<T>(n, false))
    ensures Run([], Pops<T>(n, false)) == seq(n, _ => Popped(None))
  {
    if n > 0 {
      assert Pops<T>(n, false)[1..] == Pops(n - 1, false);
      EmptyPopsAnswerNone<T>(n - 1);
    }
  }
}
