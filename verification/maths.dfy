/** The arithmetic both evaluators share. Values are exact reals. Sums,
    differences, products, quotients, `floor`, `ceil`, `abs`, `round` and the
    factorial are computed exactly; the transcendental functions, `powf`,
    the remainder `%` and the two constants are left open as the fields of
    a `MathLib`, so every statement proved here holds whatever their values. */
module Maths {

  /** The operations of Rust's `f64` whose values the model does not fix. */
  datatype MathLib = MathLib(
    sqrt: real -> real,
    sin: real -> real,
    cos: real -> real,
    tan: real -> real,
    ln: real -> real,
    powf: (real, real) -> real,
    rem: (real, real) -> real,
    log: (real, real) -> real,
    pi: real,
    e: real)

  /** Why an expression has no value. */
  datatype EvalError =
    | FactorialDomain
    | SquareRootDomain
    | LnDomain
    | DivisionByZero
    | ModuloByZero
    | LogDomain
    | NoLastResult

  /** `x.fract() == 0.0`: `x` is a whole number. */
  predicate IsWhole(x: real) {
    x == x.Floor as real
  }

  lemma WholeInt(k: int)
    ensures IsWhole(k as real)
  {
  }

  /** `n!`, defined by the recurrence. */
  function Fact(n: nat): (r: nat)
    ensures r >= 1 && r >= n
  {
    if n == 0 then 1 else n * Fact(n - 1)
  }

  /** `(1..=n).product()`: the running product of `1, 2, ..., n`. */
  method FactorialProduct(n: nat) returns (p: nat)
    ensures p == Fact(n)
  {
    p := 1;
    var i := 0;
    while i < n
      invariant 0 <= i <= n
      invariant p == Fact(i)
    {
      i := i + 1;
      p := p * i;
    }
  }

  /** The factorial a whole, non-negative operand is sent to. */
  function FactorialValue(x: real): (r: real)
    requires x >= 0.0 && IsWhole(x)
    ensures r >= 1.0 && r >= x
  {
    Fact(x.Floor) as real
  }

  /** `f64::floor`, read exactly: the greatest whole number not above `x`. */
  function Floor(x: real): (r: real)
    ensures IsWhole(r) && r <= x < r + 1.0
  {
    x.Floor as real
  }

  /** `f64::ceil`: the least whole number not below `x`. */
  function Ceil(x: real): (r: real)
    ensures IsWhole(r) && r - 1.0 < x <= r
  {
    var k := (-x).Floor;
    WholeInt(-k);
    (-k) as real
  }

  /** `f64::abs`. */
  function Abs(x: real): (r: real)
    ensures r >= 0.0 && (r == x || r == -x)
  {
    if x < 0.0 then -x else x
  }

  /** `f64::round`: the nearest whole number, halves rounded away from
      zero. */
  function Round(x: real): (r: real)
    ensures IsWhole(r)
    ensures -0.5 <= r - x <= 0.5
    ensures r - x == 0.5 ==> x > 0.0
    ensures r - x == -0.5 ==> x < 0.0
  {
    var k := if x >= 0.0 then (x + 0.5).Floor else -((-x + 0.5).Floor);
    WholeInt(k);
    k as real
  }

  /** The floor of a whole number plus a fraction is that number. */
  lemma FloorPlusFraction(k: int, f: real)
    requires 0.0 <= f < 1.0
    ensures (k as real + f).Floor == k
  {
  }

  /** Rounding treats both signs alike, and whole numbers stay put. */
  lemma RoundSymmetric(x: real)
    ensures Round(-x) == -Round(x)
    ensures IsWhole(x) ==> Round(x) == x
  {
    if x > 0.0 {
      assert Round(-x) == -((x + 0.5).Floor as real);
    } else if x < 0.0 {
      assert Round(-x) == (-x + 0.5).Floor as real;
    }
    if IsWhole(x) {
      var k := x.Floor;
      if x >= 0.0 {
        FloorPlusFraction(k, 0.5);
      } else {
        FloorPlusFraction(-k, 0.5);
      }
    }
  }
}
