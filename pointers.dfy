/**
 * The two kinds of indirection the queues use.
 *
 * A `Shared<T>` is a `std::shared_ptr<T>` to an immutable payload: a heap box
 * whose identity tells whether a pop handed out an existing box or allocated
 * a new one. A `Cell<T>` is the target of a `T*` out-parameter: the caller's
 * variable, written through the pointer only when an operation succeeds.
 */
module Pointers {

  class Shared<T> {
    const value: T

    constructor (value: T)
      ensures this.value == value
    {
      this.value := value;
    }
  }

  class Cell<T> {
    var value: T

    constructor (value: T)
      ensures this.value == value
    {
      this.value := value;
    }
  }

  /** The payloads of a sequence of boxes, in order. */
  function Values<T>(boxes: seq<Shared<T>>): (vs: seq<T>)
    ensures |vs| == |boxes|
    ensures forall i :: 0 <= i < |boxes| ==> vs[i] == boxes[i].value
  {
    if boxes == [] then [] else [boxes[0].value] + Values(boxes[1..])
  }
}
