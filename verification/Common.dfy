/** Types shared by every part of the model. */
module Common {

  datatype Option<+T> = None | Some(value: T)

  datatype Result<+T, +E> = Ok(value: T) | Err(error: E)

  /** A byte of a file or of a string of path characters. */
  type byte = x: int | 0 <= x < 256

  const TWO63 := 0x8000_0000_0000_0000

  /** int64 arithmetic drops what does not fit. */
  function Wrap64(x: int): int {
    (x + TWO63) % (2 * TWO63) - TWO63
  }
}
