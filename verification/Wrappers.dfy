/** The outcome of a step that may be refused without a further distinction. */
module Wrappers {

  datatype Option<+T> = None | Some(value: T) {
    predicate IsFailure() { None? }
    function PropagateFailure<U>(): Option<U> requires None? { None }
    function Extract(): T requires Some? { value }
  }

  /** `raise` unless the condition holds. */
  function Require(condition: bool): Option<()> {
    if condition then Some(()) else None
  }

  /** A loop has `found` so far, and `rest` is the outcome of what it still has to do: together they are `all`. */
  ghost predicate GoesOn<T>(all: Option<seq<T>>, found: seq<T>, rest: Option<seq<T>>) {
    all == if rest.None? then None else Some(found + rest.value)
  }

  lemma LoopStarts<T>(all: Option<seq<T>>)
    ensures GoesOn(all, [], all)
  {
    if all.Some? {
      assert [] + all.value == all.value;
    }
  }

  lemma LoopSteps<T>(all: Option<seq<T>>, found: seq<T>, x: T, rest: Option<seq<T>>)
    requires GoesOn(all, found, if rest.None? then None else Some([x] + rest.value))
    ensures GoesOn(all, found + [x], rest)
  {
    if rest.Some? {
      assert found + ([x] + rest.value) == found + [x] + rest.value;
    }
  }

  lemma LoopEnds<T>(all: Option<seq<T>>, found: seq<T>)
    requires GoesOn(all, found, Some([]))
    ensures all == Some(found)
  {
    assert found + [] == found;
  }
}
