/** C++ `unsigned int` arithmetic on a 32-bit target: every value lies in
    [0, 2^32) and addition and subtraction are reduced modulo 2^32. */
module UInt32 {

  const MODULUS: int := 0x1_0000_0000

  /** The values an `unsigned int` can hold. */
  type uint32 = x: int | 0 <= x < MODULUS

  /** Unsigned subtraction `a - b`: the difference when `b <= a`, and the
      difference wrapped around by 2^32 otherwise. */
  function Sub(a: uint32, b: uint32): (r: uint32)
    ensures b <= a ==> r == a - b
    ensures a < b ==> r == a - b + MODULUS
  {
    (a - b) % MODULUS
  }

  /** Unsigned addition `a + b`: the sum when it fits, and the sum less 2^32
      otherwise. */
  function Add(a: uint32, b: uint32): (r: uint32)
    ensures a + b < MODULUS ==> r == a + b
    ensures MODULUS <= a + b ==> r == a + b - MODULUS
  {
    (a + b) % MODULUS
  }

  /** Unsigned division by 2, which truncates: the largest `h` with
      `2 * h <= a`. */
  function Half(a: uint32): (h: uint32)
    ensures 2 * h <= a < 2 * h + 2
  {
    a / 2
  }

  /** Adding `b` back undoes subtracting it, whether or not the subtraction
      wrapped. */
  lemma {:induction false} AddUndoesSub(a: uint32, b: uint32)
    ensures Add(Sub(a, b), b) == a
  {
  }

  /** A subtraction wrapped exactly when its result exceeds the minuend
      (for a non-zero subtrahend). */
  lemma {:induction false} SubWrapsIff(a: uint32, b: uint32)
    requires 0 < b
    ensures a < b <==> a < Sub(a, b)
  {
  }
}
