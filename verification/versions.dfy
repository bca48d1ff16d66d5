/** The two evaluators side by side. A tree of `src/calc/parser.rs` is also
    a tree of `src/calc.rs`; on such a tree both `solve`s give the same
    value or the same error, except that only `src/calc.rs` rejects a
    remainder by zero. */
module Versions {
  import opened Results
  import opened Maths
  import P = Parser
  import Calculator
  import Calc

  function EmbedUnary(f: P.UnaryOperator): Calc.UnaryOperator {
    match f
    case Factorial => Calc.Factorial
    case SquareRoot => Calc.SquareRoot
    case Sin => Calc.Sin
    case Cos => Calc.Cos
    case Tan => Calc.Tan
    case Ln => Calc.Ln
  }

  function EmbedBinary(op: P.BinaryOperator): Calc.BinaryOperator {
    match op
    case Add => Calc.Add
    case Subtract => Calc.Subtract
    case Multiply => Calc.Multiply
    case Divide => Calc.Divide
    case Power => Calc.Power
    case Modulo => Calc.Modulo
    case Log => Calc.Log
  }

  /** The same tree in the richer syntax of `src/calc.rs`. */
  function Embed(t: P.Token): Calc.Expr {
    match t
    case Unary(f, x) => Calc.Operation(Calc.Unary(EmbedUnary(f), Embed(x)))
    case Binary(l, op, rt) => Calc.Operation(Calc.Binary(Embed(l), EmbedBinary(op), Embed(rt)))
    case Value(n) => Calc.Value(Calc.Number(n))
    case LastResult => Calc.Value(Calc.LastResult)
  }

  /** Some remainder in the tree has a right operand whose value is zero. */
  predicate ZeroRemainder(t: P.Token, last: Option<real>, m: MathLib) {
    match t
    case Unary(_, x) => ZeroRemainder(x, last, m)
    case Binary(l, op, rt) =>
      || ZeroRemainder(l, last, m)
      || ZeroRemainder(rt, last, m)
      || (op == P.Modulo && Calculator.Solve(rt, last, m) == Ok(0.0))
    case _ => false
  }

  /** Both evaluators agree wherever `src/calc.rs` does not report a
      remainder by zero; where it does, the tree has a remainder whose
      divisor is zero. */
  lemma {:induction false} SolveAgrees(t: P.Token, last: Option<real>, m: MathLib)
    ensures Calc.Solve(Embed(t), last, m) != Err(ModuloByZero) ==>
      Calc.Solve(Embed(t), last, m) == Calculator.Solve(t, last, m)
    ensures Calc.Solve(Embed(t), last, m) == Err(ModuloByZero) ==>
      ZeroRemainder(t, last, m)
  {
    match t
    case Unary(f, x) =>
      SolveAgrees(x, last, m);
    case Binary(l, op, rt) =>
      SolveAgrees(l, last, m);
      SolveAgrees(rt, last, m);
    case Value(_) =>
    case LastResult =>
  }
}
