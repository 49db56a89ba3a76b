/**
  The `SharedBuffer` of Assignment-2/Program2.java, taken one step at a time.
  Each `while (...) wait();` loop becomes the precondition under which the
  operation can proceed: a thread that finds it false waits, and waiting
  changes nothing. Locking, `notifyAll`, the sleeps and interruption are not
  modelled.
*/
module ProducerConsumer {

  /** `CAPACITY`: the most items the buffer holds. */
  const Capacity: nat := 5

  class SharedBuffer {

    /** The `LinkedList` contents, head first. */
    var buffer: seq<int>

    ghost predicate Valid()
      reads this
    {
      |buffer| <= Capacity
    }

    constructor ()
      ensures Valid() && buffer == []
    {
      buffer := [];
    }

    /** `produce`, once its wait loop has exited: `value` goes to the tail. */
    method Produce(value: int)
      requires Valid() && |buffer| < Capacity
      modifies this
      ensures Valid()
      ensures buffer == old(buffer) + [value]
      ensures |buffer| == |old(buffer)| + 1
    {
      buffer := buffer + [value];
    }

    /** `consume`, once its wait loop has exited: the head is removed and returned. */
    method Consume() returns (consumedValue: int)
      requires Valid() && |buffer| > 0
      modifies this
      ensures Valid()
      ensures consumedValue == old(buffer)[0]
      ensures buffer == old(buffer)[1..]
      ensures |buffer| == |old(buffer)| - 1
    {
      consumedValue := buffer[0];
      buffer := buffer[1..];
    }

    /** Whether `produce` would pass its wait loop now. */
    predicate CanProduce()
      reads this
    {
      |buffer| < Capacity
    }

    /** Whether `consume` would pass its wait loop now. */
    predicate CanConsume()
      reads this
    {
      |buffer| > 0
    }
  }

  /** One scheduling decision: the named thread tries its next call. */
  datatype Turn = ProducerTurn | ConsumerTurn

  /** One call on the buffer, with the value produced. */
  datatype Call = ProduceCall(value: int) | ConsumeCall

  /**
    Any sequence of calls on a fresh buffer, each taken when enabled; a
    call that is not enabled is skipped. What comes out is what went in, in
    the same order, and never more than `Capacity` items are inside.
  */
  method RunCalls(calls: seq<Call>) returns (produced: seq<int>, consumed: seq<int>)
    ensures |consumed| <= |produced| <= |consumed| + Capacity
    ensures consumed == produced[..|consumed|]
  {
    var b := new SharedBuffer();
    produced, consumed := [], [];
    for n := 0 to |calls|
      invariant b.Valid()
      invariant |consumed| <= |produced|
      invariant b.buffer == produced[|consumed|..]
      invariant consumed == produced[..|consumed|]
    {
      match calls[n]
      case ProduceCall(v) =>
        if b.CanProduce() {
          b.Produce(v);
          produced := produced + [v];
        }
      case ConsumeCall =>
        if b.CanConsume() {
          var v := b.Consume();
          consumed := consumed + [v];
        }
    }
  }

  /**
    `ProducerConsumerDemo`: the producer offers 1, 2, 3, ... in turn, and
    the consumer takes whatever is at the head. Under any schedule the
    consumed values are 1, 2, 3, ... up to some point.
  */
  method RunDemo(schedule: seq<Turn>) returns (consumed: seq<int>)
    ensures forall k :: 0 <= k < |consumed| ==> consumed[k] == k + 1
  {
    var b := new SharedBuffer();
    var value := 1;
    consumed := [];
    for n := 0 to |schedule|
      invariant b.Valid()
      invariant |consumed| < value
      invariant |b.buffer| == value - 1 - |consumed|
      invariant forall k :: 0 <= k < |b.buffer| ==> b.buffer[k] == |consumed| + 1 + k
      invariant forall k :: 0 <= k < |consumed| ==> consumed[k] == k + 1
    {
      if schedule[n] == ProducerTurn {
        if b.CanProduce() {
          b.Produce(value);
          value := value + 1;
        }
      } else {
        if b.CanConsume() {
          var v := b.Consume();
          consumed := consumed + [v];
        }
      }
    }
  }
}
