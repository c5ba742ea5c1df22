/** What several components share: optional values, error codes, absolute values. */
module Kernel {

  datatype Option<+T> = None | Some(value: T)

  type Int32 = x: int | -0x8000_0000 <= x <= 0x7FFF_FFFF

  const MINUS_ENOMEM: Int32 := -12
  const MINUS_ENODEV: Int32 := -19
  const MINUS_EINVAL: Int32 := -22

  function AbsoluteValue(x: int): int
  {
    if x < 0 then -x else x
  }
}
