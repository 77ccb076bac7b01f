/** Small datatypes, machine words and powers of two, shared by the modules. */
module Basics {

  datatype Option<+T> = None | Some(value: T)

  datatype Result<+T, +E> = Success(value: T) | Failure(error: E)

  /** The kernel's u32. */
  type u32 = x: int | 0 <= x < 0x1_0000_0000

  /** The kernel's u64. */
  type u64 = x: int | 0 <= x < 0x1_0000_0000_0000_0000

  const TWO_32 := 0x1_0000_0000
  const TWO_64 := 0x1_0000_0000_0000_0000

  function Pow2(n: nat): nat { if n == 0 then 1 else 2 * Pow2(n - 1) }

  lemma {:induction false} Pow2Positive(n: nat)
    ensures Pow2(n) > 0
  {
    if n > 0 {
      Pow2Positive(n - 1);
    }
  }
}
