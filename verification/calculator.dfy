/** The evaluator of `src/calc/calculator.rs`: a post-order walk over the
    syntax tree of `src/calc/parser.rs`, and `evaluate`, which parses a line,
    solves it and keeps the result for the next line. The process-wide
    `LAST_RESULT` slot is passed in and handed back. */
module Calculator {
  import opened Results
  import opened Maths
  import opened Parser

  /** A prefix or postfix function applied to an operand's value; the
      factorial, the square root and `ln` reject operands outside their
      domains. */
  function ApplyUnary(f: UnaryOperator, a: real, m: MathLib): (r: Result<real, EvalError>)
    ensures r.Err? ==>
      || (f == Factorial && r.error == FactorialDomain)
      || (f == SquareRoot && r.error == SquareRootDomain)
      || (f == Ln && r.error == LnDomain)
  {
    match f
    case Factorial =>
      if a < 0.0 || !IsWhole(a) then Err(FactorialDomain) else Ok(FactorialValue(a))
    case SquareRoot => if a < 0.0 then Err(SquareRootDomain) else Ok(m.sqrt(a))
    case Sin => Ok(m.sin(a))
    case Cos => Ok(m.cos(a))
    case Tan => Ok(m.tan(a))
    case Ln => if a <= 0.0 then Err(LnDomain) else Ok(m.ln(a))
  }

  /** An infix operator applied to its operands' values. Division checks for
      a zero divisor and the logarithm for its domain; the remainder has no
      check in this version. */
  function ApplyBinary(op: BinaryOperator, a: real, b: real, m: MathLib): (r: Result<real, EvalError>)
    ensures r.Err? ==> (op == Divide && r.error == DivisionByZero) || (op == Log && r.error == LogDomain)
  {
    match op
    case Add => Ok(a + b)
    case Subtract => Ok(a - b)
    case Multiply => Ok(a * b)
    case Divide => if b == 0.0 then Err(DivisionByZero) else Ok(a / b)
    case Power => Ok(m.powf(a, b))
    case Modulo => Ok(m.rem(a, b))
    case Log => if a <= 0.0 || b <= 0.0 || b == 1.0 then Err(LogDomain) else Ok(m.log(a, b))
  }

  /** `solve`: operands first (left before right), then the operator; the
      previous result is read from `last`. */
  function Solve(t: Token, last: Option<real>, m: MathLib): (r: Result<real, EvalError>)
    ensures r.Err? && r.error == NoLastResult ==> last.None?
    ensures r.Err? ==> r.error != ModuloByZero
  {
    match t
    case Unary(f, x) =>
      var a :- Solve(x, last, m);
      ApplyUnary(f, a, m)
    case Binary(l, op, rt) =>
      var a :- Solve(l, last, m);
      var b :- Solve(rt, last, m);
      ApplyBinary(op, a, b, m)
    case Value(n) => Ok(n)
    case LastResult => if last.Some? then Ok(last.value) else Err(NoLastResult)
  }

  /** The stage a line failed in. */
  datatype LineError = Parsing(parse: ParseError) | Evaluation(eval: EvalError)

  /** `evaluate`: parse, then solve; only a value reaches the slot, and an
      error leaves it as it was. */
  function Evaluate(line: string, last: Option<real>, m: MathLib): (r: (Result<real, LineError>, Option<real>))
    ensures r.0.Ok? ==> r.1 == Some(r.0.value)
    ensures r.0.Err? ==> r.1 == last
    ensures Parse(line).Err? ==> r.0 == Err(Parsing(Parse(line).error))
    ensures Parse(line).Ok? && Solve(Parse(line).value, last, m).Err? ==>
      r.0 == Err(Evaluation(Solve(Parse(line).value, last, m).error))
    ensures r.0.Ok? <==> Parse(line).Ok? && Solve(Parse(line).value, last, m).Ok?
  {
    match Parse(line)
    case Err(e) => (Err(Parsing(e)), last)
    case Ok(root) =>
      match Solve(root, last, m)
      case Err(e) => (Err(Evaluation(e)), last)
      case Ok(x) => (Ok(x), Some(x))
  }
}
