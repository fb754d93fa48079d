/** Arithmetic shared by the throttles, the push queue and the list. */
module Arithmetic {

  function Max(a: int, b: int): (m: int) {
    if a < b then b else a
  }

  function Pow2(n: nat): (p: nat) {
    if n == 0 then 1 else 2 * Pow2(n - 1)
  }
}
