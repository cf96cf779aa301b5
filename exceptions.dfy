/** The part of Java's exception behaviour that the Response class relies on:
    a call either returns a value or throws, and a `catch` block reads the
    exception's message. */
module Exceptions {

  datatype Exception =
    | Exception(message: string)  // `new Exception(message)`, thrown by the validator itself
    | NullPointerException        // a method called on a DOM node that is null

  /** What `StringBuffer.append(e.getMessage())` appends: a null message
      (that of a NullPointerException) is written as "null". */
  function MessageText(e: Exception): string {
    match e
    case Exception(m) => m
    case NullPointerException => "null"
  }

  /** The outcome of a Java call: the value it returned or the exception it threw.
      Failure-compatible, so that `:-` reads like a throwing call. */
  datatype Outcome<+T> = Returned(value: T) | Threw(exception: Exception) {

    predicate IsFailure() {
      Threw?
    }

    function PropagateFailure<U>(): Outcome<U>
      requires Threw?
    {
      Threw(exception)
    }

    function Extract(): T
      requires Returned?
    {
      value
    }
  }

  /** `if (!condition) throw e;` */
  function ThrowUnless(condition: bool, e: Exception): (r: Outcome<()>)
    ensures r.Returned? <==> condition
    ensures r.Threw? ==> r.exception == e
  {
    if condition then Returned(()) else Threw(e)
  }
}
