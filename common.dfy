/** Small value types shared by the template, SQL and lineage modules. */
module Common {

  /** An optional value (Rust's `Option`). */
  datatype Option<+T> = None | Some(value: T)

  /** A success value or an error (Rust's `Result`); usable with `:-`. */
  datatype Result<+T, +E> = Ok(value: T) | Err(error: E) {
    predicate IsFailure() {
      Err?
    }

    function PropagateFailure<U>(): Result<U, E>
      requires Err?
    {
      Err(error)
    }

    function Extract(): T
      requires Ok?
    {
      value
    }
  }

  /** A half-open range of byte offsets `[start, end)`; the text is ASCII, so bytes and characters agree. */
  datatype Span = Span(start: nat, end: nat)

  /** The concatenation of a sequence of strings, left to right. */
  function Concat(parts: seq<string>): (r: string)
  {
    if parts == [] then "" else Concat(parts[..|parts| - 1]) + parts[|parts| - 1]
  }
}
