/** The bits of machine words, counted from the lowest. Bit numbers are taken modulo the width of the word. */
module WordBits {
  function Bit8(w: bv8, i: bv3): bv8 {
    (w >> i) & 1
  }

  function Bit32(w: bv32, i: bv5): bv32 {
    (w >> i) & 1
  }

  /** Bit i of p is the sum modulo 2 of bits i, i - a and i - b of x; of bits i, i - a, i - b, i - c and i - d. */
  ghost predicate ThreeSum(p: bv32, x: bv32, i: bv5, a: bv5, b: bv5) {
    (p >> i) & 1 == ((x >> i) & 1) ^ ((x >> (i - a)) & 1) ^ ((x >> (i - b)) & 1)
  }

  ghost predicate FiveSum(p: bv32, x: bv32, i: bv5, a: bv5, b: bv5, c: bv5, d: bv5) {
    (p >> i) & 1 ==
      ((x >> i) & 1) ^ ((x >> (i - a)) & 1) ^ ((x >> (i - b)) & 1) ^ ((x >> (i - c)) & 1) ^ ((x >> (i - d)) & 1)
  }

  /** Bit i of p is the sum modulo 2 of bits i + a, i + b and i + c of x, */
  ghost predicate TurnsSum(p: bv64, x: bv64, i: bv6, a: bv6, b: bv6, c: bv6) {
    (p >> i) & 1 == ((x >> (i + a)) & 1) ^ ((x >> (i + b)) & 1) ^ ((x >> (i + c)) & 1)
  }

  /** of bits i + a, i + b and, where there is one, i + c. */
  ghost predicate ShiftSum(p: bv64, x: bv64, i: bv6, a: bv6, b: bv6, c: bv6) {
    (p >> i) & 1 == ((x >> (i + a)) & 1) ^ ((x >> (i + b)) & 1) ^ (if i < 0 - c then (x >> (i + c)) & 1 else 0)
  }
}
