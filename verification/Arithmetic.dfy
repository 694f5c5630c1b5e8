/** Bounded counters and the smaller and larger of two numbers. */
module Arithmetic {

  const U32_MAX: nat := 0xFFFF_FFFF

  function SaturatingInc(n: nat): nat {
    if n < U32_MAX then n + 1 else n
  }

  function SaturatingDec(n: nat): nat {
    if n > 0 then n - 1 else 0
  }

  function Min(a: nat, b: nat): nat {
    if a < b then a else b
  }

  function Max(a: nat, b: nat): nat {
    if a < b then b else a
  }
}
