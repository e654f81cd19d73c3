/** Go's `uint32` and its wrap-around arithmetic. */
module Uint32 {

  const Modulus: int := 0x1_0000_0000

  type uint32 = x: int | 0 <= x < Modulus

  /** `a - b` in uint32: wraps below zero. */
  function Sub(a: uint32, b: uint32): uint32
  {
    (a - b) % Modulus
  }

  /** `a * b` in uint32: keeps the low 32 bits. */
  function Mul(a: uint32, b: uint32): uint32
  {
    (a * b) % Modulus
  }
}
