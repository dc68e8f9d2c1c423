/** Bytes and the wrap-around arithmetic of uint64_t. */
module Words {

  type byte = x: int | 0 <= x < 0x100

  const U64_RANGE := 0x1_0000_0000_0000_0000
  const U64_MAX := U64_RANGE - 1

  type uint64 = x: int | 0 <= x < U64_RANGE

  function Add64(a: uint64, b: uint64): uint64 {
    (a + b) % U64_RANGE
  }

  function Sub64(a: uint64, b: uint64): uint64 {
    (a - b) % U64_RANGE
  }

  function Min(a: int, b: int): int {
    if a <= b then a else b
  }

  function Max(a: int, b: int): int {
    if a >= b then a else b
  }
}
