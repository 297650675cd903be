/** Types shared by both calculation services: Java's `int`, nullable
    values, and the `ArithmeticException`s that `BigDecimal` can throw. */
module Common {

  /** Java `int`. */
  type Int32 = x: int | -0x8000_0000 <= x < 0x8000_0000

  /** A Java reference that may be `null`. */
  datatype Option<+T> = None | Some(value: T)

  /** The two ways the `BigDecimal` operations used here can throw. */
  datatype ArithmeticError =
    | InvalidPowExponent   // BigDecimal.pow with an exponent outside 0..999999999
    | DivisionByZero       // BigDecimal.divide by zero

  /** A value, or the `ArithmeticException` the computation throws instead. */
  datatype Result<+T> = Ok(value: T) | Err(error: ArithmeticError)

  /** `BigDecimal.max`. */
  function Max(a: real, b: real): real {
    if a >= b then a else b
  }
}
