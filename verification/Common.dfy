/** Types of data, result shapes and one sequence law shared by the components. */
module Common {
  type Byte = x: int | 0 <= x < 256

  /** A UTF-16 code unit. */
  type CodeUnit = x: int | 0 <= x < 0x10000

  datatype Option<+T> = None | Some(value: T)

  datatype Result<+T, +E> = Ok(value: T) | Err(error: E)

  lemma Associative<T>(a: seq<T>, b: seq<T>, c: seq<T>)
    ensures a + (b + c) == (a + b) + c
  {
  }
}
