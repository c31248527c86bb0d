/** JavaScript number arithmetic as the front-end metrics use it. A number is a finite real, or
    `None` standing for NaN and the infinities: dividing by zero yields one, and a sum,
    difference, product or quotient with one as an operand yields one again. Rounding to binary
    floating point is not modelled. */
module JsMath {
  import opened Common

  type Num = Option<real>

  function Add(a: Num, b: Num): Num
  {
    if a.Some? && b.Some? then Some(a.value + b.value) else None
  }

  function Sub(a: Num, b: Num): Num
  {
    if a.Some? && b.Some? then Some(a.value - b.value) else None
  }

  function Mul(a: Num, b: Num): Num
  {
    if a.Some? && b.Some? then Some(a.value * b.value) else None
  }

  /** `a / b`: NaN or an infinity when b is zero. */
  function Div(a: Num, b: Num): Num
  {
    if a.Some? && b.Some? && b.value != 0.0 then Some(a.value / b.value) else None
  }

  /** `Math.round`: the nearest integer, halves rounded up. */
  function Round(x: real): int
  {
    (x + 0.5).Floor
  }

  /** The rounded value is within one half of x, and x's upper half-point rounds up. */
  lemma RoundSpec(x: real)
    ensures x - 0.5 < Round(x) as real <= x + 0.5
  {
  }

  /** Rounding keeps the order of its arguments. */
  lemma RoundMonotone(x: real, y: real)
    requires x <= y
    ensures Round(x) <= Round(y)
  {
    RoundSpec(x);
    RoundSpec(y);
    assert Round(x) as real < Round(y) as real + 1.0;
  }

  /** `Math.round` leaves a whole number unchanged. */
  lemma RoundWhole(n: int)
    ensures Round(n as real) == n
  {
    RoundSpec(n as real);
  }

  function Abs(n: int): int
  {
    if n < 0 then -n else n
  }
}
