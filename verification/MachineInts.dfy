/** Rust's fixed-width integers as ranges of `int`, with the casts and wrapping operations written out. */
module MachineInts {

  const TWO_TO_THE_32: int := 0x1_0000_0000
  const TWO_TO_THE_63: int := 0x8000_0000_0000_0000
  const TWO_TO_THE_64: int := 0x1_0000_0000_0000_0000

  type u32 = n: int | 0 <= n < TWO_TO_THE_32
  type u64 = n: int | 0 <= n < TWO_TO_THE_64
  type i64 = n: int | -TWO_TO_THE_63 <= n < TWO_TO_THE_63

  /** `n as i64`: the same 64 bits, read as two's complement. */
  function AsI64(n: u64): (r: i64)
    ensures r == n <==> n < TWO_TO_THE_63
    ensures r < 0 <==> n >= TWO_TO_THE_63
  {
    if n < TWO_TO_THE_63 then n else n - TWO_TO_THE_64
  }

  /** `n as u64`. */
  function AsU64(n: i64): u64 {
    if 0 <= n then n else n + TWO_TO_THE_64
  }

  /** The low 32 bits of a whole number. */
  function LowBits(n: int): (r: u32)
    ensures 0 <= n < TWO_TO_THE_32 ==> r == n
  {
    n % TWO_TO_THE_32
  }

  /** `a - b` in a release build. */
  function WrappingSub(a: u32, b: u32): u32 {
    (a - b) % TWO_TO_THE_32
  }

  /** `a * b` in a release build. */
  function WrappingMul(a: u32, b: u32): u32 {
    (a * b) % TWO_TO_THE_32
  }

  function Min(a: int, b: int): int {
    if a <= b then a else b
  }
}
