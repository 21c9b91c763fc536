/** Outcomes of the arithmetic calculator: the errors it raises and the
    `(value, remainder)` pairs its parse functions return. */
module Results {

  /** The failures of the arithmetic parser. The first three are the
      `ValueError`s it raises ("number required", "')' required",
      "malformed expression"); the last is the `ZeroDivisionError` that
      Python's float division `val /= nv` raises on a zero divisor. */
  datatype CalcError =
    | NumberRequired
    | CloseParenRequired
    | MalformedExpression
    | DivisionByZero

  /** Either a value or the error the calculator raised. */
  datatype Result<+T> = Ok(value: T) | Err(error: CalcError) {
    predicate IsFailure() { Err? }

    function PropagateFailure<U>(): Result<U>
      requires Err?
    {
      Err(error)
    }

    function Extract(): T
      requires Ok?
    {
      value
    }
  }

  /** The exact product `a * b` that `val *= nv` computes without rounding
      (a named function, so that proofs treat the product as one term). */
  function Product(a: real, b: real): real {
    a * b
  }

  /** The exact sum that `val += nv` computes (named for the same reason). */
  function Sum(a: real, b: real): real {
    a + b
  }

  /** The exact difference that `val -= nv` computes. */
  function Difference(a: real, b: real): real {
    a - b
  }

  /** A parse function's successful answer: the value read and the
      unconsumed remainder of the input. */
  datatype Parsed = Parsed(value: real, rest: string)
}
