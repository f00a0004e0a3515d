/** Value types shared by the model: C#'s 32-bit `int` and nullable references. */
module Primitives {

  /** A C# `int`: a signed 32-bit integer. */
  newtype int32 = x: int | -0x8000_0000 <= x < 0x8000_0000

  /** `int.MaxValue`. */
  const INT32_MAX: int32 := 0x7fff_ffff

  /** A value that may be absent: a nullable reference or a missing claim. */
  datatype Option<+T> = None | Some(value: T)
}
