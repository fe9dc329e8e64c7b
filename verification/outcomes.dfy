/** Absent values, results and the failure causes of the schedule-to-slides pipeline. */
module Outcomes {

  /** A value that may be absent; `None` stands for a Java `null`. */
  datatype Option<+T> = None | Some(value: T) {

    predicate IsFailure() {
      None?
    }

    function PropagateFailure<U>(): Option<U>
      requires None?
    {
      None
    }

    function Extract(): T
      requires Some?
    {
      value
    }
  }

  /** Why an operation failed: the exception the Java code would throw. */
  datatype Failure =
    | NullPointer                                  // Objects.requireNonNull on a null argument
    | DateTimeParse(text: string)                  // a cell that does not match the timestamp pattern
    | NoSlides(presentationId: Option<string>)     // the copied deck has no slide
    | ServiceFailure(cause: string)                // a Drive or Slides call that failed

  /** Either a value or the failure that prevented computing it. */
  datatype Result<+T> = Ok(value: T) | Err(failure: Failure) {

    predicate IsFailure() {
      Err?
    }

    function PropagateFailure<U>(): Result<U>
      requires Err?
    {
      Err(failure)
    }

    function Extract(): T
      requires Ok?
    {
      value
    }
  }
}
