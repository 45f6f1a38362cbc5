/** The result shapes and the byte the models share. */
module Wrappers {

  datatype Option<+T> = None | Some(value: T)

  datatype Result<+T, +E> = Ok(value: T) | Err(error: E)

  type byte = b: int | 0 <= b < 256

  /** Subtraction that stops at zero, which is what every clock difference in
      the watch is taken with. */
  function Monus(a: nat, b: nat): nat {
    if a < b then 0 else a - b
  }
}
