/** Vocabulary shared by every part of the contact manager: Java's 32-bit
    `int`, the exceptions the code throws, and the result wrappers that
    carry them. */
module Common {

  /** A Java `int`. */
  type Int32 = x: int | -0x8000_0000 <= x <= 0x7fff_ffff

  const MIN_INT: Int32 := -0x8000_0000
  const MAX_INT: Int32 := 0x7fff_ffff

  predicate IsInt32(x: int) {
    MIN_INT <= x <= MAX_INT
  }

  /** Java's `x + 1` (and `x++`) on an `int`: two's-complement arithmetic,
      so the largest value steps to the smallest. */
  function Inc(x: Int32): (r: Int32)
    ensures x < MAX_INT ==> r == x + 1
    ensures x == MAX_INT ==> r == MIN_INT
  {
    (x + 1 + 0x8000_0000) % 0x1_0000_0000 - 0x8000_0000
  }

  /** The exceptions the modelled code throws, by kind. */
  datatype ErrorKind =
    | NullPointer        // NullPointerException
    | IllegalArgument    // IllegalArgumentException
    | IllegalState       // IllegalStateException
    | NumberFormat       // NumberFormatException from Integer.valueOf
    | ClassCast          // ClassCastException from a downcast of a JSON value
    | EmptyParticipants  // the checked Exception of the plain meeting constructor
    | Unmodelled         // an outcome that depends on something this model leaves out

  /** A Java reference that may be null. */
  datatype Option<T> = None | Some(value: T)

  /** A value, or the exception that was thrown instead. */
  datatype Result<T> = Ok(value: T) | Err(error: ErrorKind) {
    predicate IsFailure() {
      Err?
    }

    function PropagateFailure<U>(): Result<U>
      requires Err?
    {
      Err(error)
    }

    function Extract(): T
      requires Ok?
    {
      value
    }
  }

  /** The outcome of a `void` method: it returned, or it threw. */
  datatype Status = Done | Failed(error: ErrorKind)
}
