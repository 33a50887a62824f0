/** Types shared by the component models. */
module Prelude {

  datatype Option<+T> = None | Some(value: T)

  /** Unsigned machine integers. Wrap-around is written out where it matters. */
  type u8 = x: int | 0 <= x < 0x100
  type u32 = x: int | 0 <= x < 0x1_0000_0000

  const U32_MODULUS: int := 0x1_0000_0000

  function Min(a: int, b: int): int {
    if a <= b then a else b
  }

  function Max(a: int, b: int): int {
    if a <= b then b else a
  }

  /** Unchecked addition of machine words. */
  function WrapAdd(x: u32, y: u32): u32 {
    if x + y < U32_MODULUS then x + y else x + y - U32_MODULUS
  }

  function Pow2(n: nat): nat {
    if n == 0 then 1 else 2 * Pow2(n - 1)
  }

  /** Wrapping an index once around a table of size `n`. */
  lemma WrapOnce(a: nat, n: nat)
    requires 0 < n && a < 2 * n
    ensures a % n == if a < n then a else a - n
  {
    if a >= n {
      assert a == n * 1 + (a - n);
    }
  }
}
