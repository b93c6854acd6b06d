/** Small shared vocabulary: optional values and refusable results. */
module Outcome {

  datatype Option<+T> = None | Some(value: T)

  /** What a checked operation answers: a value, or the named reason it refused.
      A refused operation leaves every table as it was, as its transaction rolls back. */
  datatype Outcome<+T> = Done(value: T) | Refused(reason: string) {
    predicate IsFailure() {
      Refused?
    }

    function PropagateFailure<U>(): Outcome<U>
      requires Refused?
    {
      Refused(reason)
    }

    function Extract(): T
      requires Done?
    {
      value
    }
  }

  /** The source's `require(condition, reason)`. */
  function Require(condition: bool, reason: string): (r: Outcome<()>)
    ensures r.Done? <==> condition
  {
    if condition then Done(()) else Refused(reason)
  }
}
