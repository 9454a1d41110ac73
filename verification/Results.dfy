/** Results of the modelled operations.

A Rust `Result` error and a Rust panic are kept apart: an operation that the
source would abort (an index out of range, an arithmetic overflow, an `unwrap`
of an error) returns `Err(Panicked)`, and one that reports an error returns
`Err(Rejected)`. */
module Results {
  datatype Option<+T> = None | Some(value: T)

  datatype Error = Rejected | Panicked

  datatype Result<+T> = Ok(value: T) | Err(error: Error) {
    predicate IsFailure() {
      Err?
    }

    function PropagateFailure<U>(): Result<U>
      requires Err?
    {
      Err(error)
    }

    function Extract(): T
      requires Ok?
    {
      value
    }
  }

  /** What a parser read, and the text it left unread. */
  datatype Parsed<+T> = Parsed(value: T, rest: string)

  /** The result `r` of a reader that left `rest` unread. */
  function Located<T>(r: Result<T>, rest: string): Result<Parsed<T>> {
    match r
    case Ok(v) => Ok(Parsed(v, rest))
    case Err(e) => Err(e)
  }
}
