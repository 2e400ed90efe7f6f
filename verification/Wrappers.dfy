/** Failure-compatible datatypes shared by all modules. */
module Wrappers {

  datatype Option<+T> = None | Some(value: T)

  /** The result of an operation that can return an error in the source. */
  datatype Result<+T, +E> = Ok(value: T) | Err(error: E) {
    predicate IsFailure() {
      Err?
    }

    function PropagateFailure<U>(): Result<U, E>
      requires Err?
    {
      Err(error)
    }

    function Extract(): T
      requires Ok?
    {
      value
    }
  }

  /** The values of the wire type `uint32`. */
  type UInt32 = x: int | 0 <= x < 0x1_0000_0000

  /** Go's conversion of an `int` to `uint32`: the low 32 bits. */
  function ToUInt32(x: int): UInt32 {
    x % 0x1_0000_0000
  }
}
