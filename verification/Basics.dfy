/** Values shared by every component of the model. */
module Basics {

  /** The source's `X | None`. */
  datatype Option<+T> = None | Some(value: T)

  /** The source's "returns a value or raises": the error names the exception raised. */
  datatype Result<+T, +E> = Ok(value: T) | Err(error: E)

  function Max(a: int, b: int): int { if a < b then b else a }

  predicate IsDigit(c: char) { '0' <= c <= '9' }

  function Min(a: int, b: int): int { if a < b then a else b }

  lemma Assoc<T>(a: seq<T>, b: seq<T>, c: seq<T>)
    ensures a + b + c == a + (b + c)
  {
  }
}
