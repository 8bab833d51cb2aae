/** Small vocabulary shared by every module: bytes, options and results. */
module Basics {

  type byte = x: int | 0 <= x < 256
  type Bytes = seq<byte>

  datatype Option<+T> = None | Some(value: T)

  /** Missing is the source's sql.ErrNoRows, which callers test for; every other error is Failed. */
  datatype Error = Missing | Failed

  datatype Result<+T> = Ok(value: T) | Err(error: Error)

  function Min(a: int, b: int): int {
    if a <= b then a else b
  }

  function Max(a: int, b: int): int {
    if a >= b then a else b
  }
}
