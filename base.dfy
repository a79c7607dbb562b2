/** Go's fixed-width scalar types and the Option wrapper used for Go's
    `error` results (None is a nil error). */
module Base {

  /** Go's `byte`. */
  type byte = x: int | 0 <= x < 0x100

  /** 2^64, the modulus of Go's `uint64` arithmetic. */
  const TWO_TO_64: int := 0x1_0000_0000_0000_0000

  /** Go's `uint64`; arithmetic that can wrap is written out with `% TWO_TO_64`. */
  type uint64 = x: int | 0 <= x < 0x1_0000_0000_0000_0000

  datatype Option<+T> = None | Some(value: T)
}
