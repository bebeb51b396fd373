/**
 * Optional values and the outcome of a Java call: either a value or one of
 * the unchecked exceptions that the parser lets escape to its caller.
 */
module Results {

  datatype Option<+T> = None | Some(value: T) {
    predicate IsFailure() {
      None?
    }

    function PropagateFailure<U>(): Option<U>
      requires None?
    {
      None
    }

    function Extract(): T
      requires Some?
    {
      value
    }
  }

  /** The Java exceptions that can leave DateTimeParser.parse. */
  datatype Exception =
    | NumberFormat        // Integer.parseInt / Long.parseLong on text that is not a number in range
    | IndexOutOfBounds    // String.substring past the end of the string
    | IllegalFieldValue   // Joda withHourOfDay / withMinuteOfHour with a value out of range

  datatype Outcome<+T> = Ok(value: T) | Thrown(error: Exception) {
    predicate IsFailure() {
      Thrown?
    }

    function PropagateFailure<U>(): Outcome<U>
      requires Thrown?
    {
      Thrown(error)
    }

    function Extract(): T
      requires Ok?
    {
      value
    }
  }
}
