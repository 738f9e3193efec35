/** Bytes, and those with a part in the transfer encodings. */
module Bytes {
  type byte = x: int | 0 <= x < 256

  const NUL: byte := 0
  const LF: byte := 10
  const CR: byte := 13
  const SPC: byte := 32
  const EQ: byte := 61      // =
}
