/** How the model carries the C code's missing values and refusals. A NULL pointer
    (a missing string, a rule line `parse_line` refused) becomes `None`, and
    `:-` lets the five scan conversions stop at the first one that fails.
    The loader's answer is a `Result`, because a refused description must say
    which rule line was at fault. */
module Optional {

  datatype Option<+T> = None | Some(value: T) {

    predicate IsFailure() {
      None?
    }

    function PropagateFailure<U>(): Option<U>
      requires None?
    {
      None
    }

    function Extract(): T
      requires Some?
    {
      value
    }
  }

  datatype Result<+T, +E> = Success(value: T) | Failure(error: E)
}
