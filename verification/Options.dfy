/** The result shapes the modules of the model share, and the smaller of two numbers. */
module Options {

  /** A Python value that may be `None`. */
  datatype Option<+T> = None | Some(value: T)

  /** A call that may raise. */
  datatype Result<+T, +E> = Ok(value: T) | Err(error: E)

  function Min(a: int, b: int): int { if a < b then a else b }
}
