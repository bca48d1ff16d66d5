/** What `solve` of `src/calc/calculator.rs` does with each operator and
    with the previous result. */
module CalculatorLaws {
  import opened Results
  import opened Maths
  import opened Parser
  import opened Calculator

  /** An operand's error is the node's error: the left operand is solved
      first, then the right one, then the operator. */
  lemma ErrorsPropagate(t: Token, last: Option<real>, m: MathLib)
    ensures t.Unary? && Solve(t.operand, last, m).Err? ==> Solve(t, last, m) == Solve(t.operand, last, m)
    ensures t.Binary? && Solve(t.left, last, m).Err? ==> Solve(t, last, m) == Solve(t.left, last, m)
    ensures t.Binary? && Solve(t.left, last, m).Ok? && Solve(t.right, last, m).Err? ==>
      Solve(t, last, m) == Solve(t.right, last, m)
  {
  }

  /** A number stands for itself. */
  lemma ValueRule(n: real, last: Option<real>, m: MathLib)
    ensures Solve(Value(n), last, m) == Ok(n)
  {
  }

  /** The previous result is available exactly when the slot holds one. */
  lemma LastResultRule(last: Option<real>, m: MathLib)
    ensures Solve(LastResult, last, m).Ok? <==> last.Some?
    ensures last.Some? ==> Solve(LastResult, last, m).value == last.value
    ensures last.None? ==> Solve(LastResult, last, m) == Err(NoLastResult)
  {
  }

  /** The factorial fails exactly on negative or fractional operands, and
      is otherwise the product `1 * 2 * ... * n`. */
  lemma FactorialRule(x: Token, last: Option<real>, m: MathLib)
    requires Solve(x, last, m).Ok?
    ensures var a := Solve(x, last, m).value;
      var r := Solve(Unary(Factorial, x), last, m);
      && (r.Ok? <==> a >= 0.0 && IsWhole(a))
      && (r.Ok? ==> r.value == Fact(a.Floor) as real)
      && (r.Err? ==> r.error == FactorialDomain)
  {
  }

  /** `0! = 1`, `3! = 6`, and `(3!)! = 720`. */
  lemma SmallFactorials(last: Option<real>, m: MathLib)
    ensures Solve(Unary(Factorial, Value(0.0)), last, m) == Ok(1.0)
    ensures Solve(Unary(Factorial, Value(3.0)), last, m) == Ok(6.0)
    ensures Solve(Unary(Factorial, Unary(Factorial, Value(3.0))), last, m) == Ok(720.0)
  {
    assert (3.0).Floor == 3 && (6.0).Floor == 6;
    assert Fact(3) == 6;
    assert Fact(6) == 720;
  }

  /** The square root fails exactly below zero; `ln` exactly at zero and
      below. */
  lemma RootAndLnRule(x: Token, last: Option<real>, m: MathLib)
    requires Solve(x, last, m).Ok?
    ensures var a := Solve(x, last, m).value;
      && (Solve(Unary(SquareRoot, x), last, m).Ok? <==> a >= 0.0)
      && (a >= 0.0 ==> Solve(Unary(SquareRoot, x), last, m) == Ok(m.sqrt(a)))
      && (Solve(Unary(Ln, x), last, m).Ok? <==> a > 0.0)
      && (a > 0.0 ==> Solve(Unary(Ln, x), last, m) == Ok(m.ln(a)))
  {
  }

  /** Sine, cosine and tangent never fail. */
  lemma TrigRule(f: UnaryOperator, x: Token, last: Option<real>, m: MathLib)
    requires Solve(x, last, m).Ok? && (f == Sin || f == Cos || f == Tan)
    ensures Solve(Unary(f, x), last, m) == Ok(
      if f == Sin then m.sin(Solve(x, last, m).value)
      else if f == Cos then m.cos(Solve(x, last, m).value)
      else m.tan(Solve(x, last, m).value))
  {
  }

  /** Division fails exactly on a zero divisor, and otherwise undoes a
      multiplication; sums, differences and products never fail. */
  lemma ArithmeticRule(l: Token, rt: Token, last: Option<real>, m: MathLib)
    requires Solve(l, last, m).Ok? && Solve(rt, last, m).Ok?
    ensures var a, b := Solve(l, last, m).value, Solve(rt, last, m).value;
      && Solve(Binary(l, Add, rt), last, m) == Ok(a + b)
      && Solve(Binary(l, Subtract, rt), last, m) == Ok(a - b)
      && Solve(Binary(l, Multiply, rt), last, m) == Ok(a * b)
      && (Solve(Binary(l, Divide, rt), last, m).Ok? <==> b != 0.0)
      && (Solve(Binary(l, Divide, rt), last, m).Err? ==> Solve(Binary(l, Divide, rt), last, m).error == DivisionByZero)
      && (b != 0.0 ==> Solve(Binary(l, Divide, rt), last, m).value * b == a)
  {
    var a, b := Solve(l, last, m).value, Solve(rt, last, m).value;
    assert Solve(Binary(l, Divide, rt), last, m) == ApplyBinary(Divide, a, b, m);
    if b != 0.0 {
      DivideBack(a, b);
    }
  }

  /** Multiplying a quotient by its divisor gives back the dividend. */
  lemma DivideBack(a: real, b: real)
    requires b != 0.0
    ensures (a / b) * b == a
  {
  }

  /** This version has no zero check on the remainder: `%` and `^` never
      fail once their operands have values. */
  lemma ModuloNeverFails(l: Token, rt: Token, last: Option<real>, m: MathLib)
    requires Solve(l, last, m).Ok? && Solve(rt, last, m).Ok?
    ensures var a, b := Solve(l, last, m).value, Solve(rt, last, m).value;
      && Solve(Binary(l, Modulo, rt), last, m) == Ok(m.rem(a, b))
      && Solve(Binary(l, Power, rt), last, m) == Ok(m.powf(a, b))
  {
  }

  /** `a log b` fails exactly when `a <= 0`, `b <= 0` or `b == 1`. */
  lemma LogRule(l: Token, rt: Token, last: Option<real>, m: MathLib)
    requires Solve(l, last, m).Ok? && Solve(rt, last, m).Ok?
    ensures var a, b := Solve(l, last, m).value, Solve(rt, last, m).value;
      && (Solve(Binary(l, Log, rt), last, m).Ok? <==> a > 0.0 && b > 0.0 && b != 1.0)
      && (Solve(Binary(l, Log, rt), last, m).Err? ==> Solve(Binary(l, Log, rt), last, m).error == LogDomain)
  {
  }

  /** The tree does not mention the previous result. */
  predicate Closed(t: Token) {
    match t
    case Unary(_, x) => Closed(x)
    case Binary(l, _, r) => Closed(l) && Closed(r)
    case Value(_) => true
    case LastResult => false
  }

  /** A tree that does not mention the previous result does not depend on
      the slot. */
  lemma {:induction false} ClosedIgnoresSlot(t: Token, last: Option<real>, last': Option<real>, m: MathLib)
    requires Closed(t)
    ensures Solve(t, last, m) == Solve(t, last', m)
  {
    match t
    case Unary(_, x) =>
      ClosedIgnoresSlot(x, last, last', m);
    case Binary(l, _, r) =>
      ClosedIgnoresSlot(l, last, last', m);
      ClosedIgnoresSlot(r, last, last', m);
    case Value(_) =>
  }
}
