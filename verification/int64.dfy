/** Go's `int` on a 64-bit platform: its range and two's-complement wrap-around. */
module Int64 {

  const MinInt: int := -0x8000_0000_0000_0000
  const MaxInt: int := 0x7fff_ffff_ffff_ffff
  const Modulus: int := 0x1_0000_0000_0000_0000

  predicate InRange(x: int)
  {
    MinInt <= x <= MaxInt
  }

  /** `a - b` computed in Go's `int`: the value in range that is congruent to
      the true difference modulo 2^64. The difference of two `int`s is off the
      range by less than 2^64, so one correction suffices. */
  function Sub(a: int, b: int): (r: int)
    requires InRange(a) && InRange(b)
    ensures InRange(r)
    ensures (a - b - r) % Modulus == 0
    ensures InRange(a - b) ==> r == a - b
  {
    var d := a - b;
    if d > MaxInt then d - Modulus
    else if d < MinInt then d + Modulus
    else d
  }
}
