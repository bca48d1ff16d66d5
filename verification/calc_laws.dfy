/** What `solve`, `evaluate` and `evaluate_with_debug` of `src/calc.rs` do
    with each operator, with the constants and the previous result, and how
    the debug listing of `print_ast` describes the tree. */
module CalcLaws {
  import opened Results
  import opened Maths
  import opened Calc
  import Lexer

  /** The factorial fails exactly on negative or fractional operands, and
      is otherwise the product `1 * 2 * ... * n`. */
  lemma FactorialRule(x: Expr, last: Option<real>, m: MathLib)
    requires Solve(x, last, m).Ok?
    ensures var a := Solve(x, last, m).value;
      var r := Solve(Operation(Unary(Factorial, x)), last, m);
      && (r.Ok? <==> a >= 0.0 && IsWhole(a))
      && (r.Ok? ==> r.value == Fact(a.Floor) as real)
      && (r.Err? ==> r.error == FactorialDomain)
  {
  }

  /** `0! = 1` and `(3!)! = 720`. */
  lemma SmallFactorials(last: Option<real>, m: MathLib)
    ensures Solve(Operation(Unary(Factorial, Value(Number(0.0)))), last, m) == Ok(1.0)
    ensures Solve(Operation(Unary(Factorial, Operation(Unary(Factorial, Value(Number(3.0)))))), last, m) == Ok(720.0)
  {
    var three := Operation(Unary(Factorial, Value(Number(3.0))));
    assert (3.0).Floor == 3 && (6.0).Floor == 6;
    assert Fact(3) == 6;
    assert Solve(three, last, m) == Ok(6.0);
    assert Fact(6) == 720;
    assert Solve(Operation(Unary(Factorial, three)), last, m) == ApplyUnary(Factorial, 6.0, m);
  }

  /** The square root fails exactly below zero, `ln` exactly at zero and
      below; each has the one error of its own. */
  lemma RootAndLnRule(f: UnaryOperator, x: Expr, last: Option<real>, m: MathLib)
    requires Solve(x, last, m).Ok? && (f == SquareRoot || f == Ln)
    ensures var a := Solve(x, last, m).value;
      var r := Solve(Operation(Unary(f, x)), last, m);
      && (f == SquareRoot ==> (r.Ok? <==> a >= 0.0))
      && (f == Ln ==> (r.Ok? <==> a > 0.0))
      && (r.Ok? ==> r.value == if f == SquareRoot then m.sqrt(a) else m.ln(a))
      && (r.Err? ==> r.error == if f == SquareRoot then SquareRootDomain else LnDomain)
  {
  }

  /** Sine, cosine and tangent never fail. */
  lemma TrigRule(f: UnaryOperator, x: Expr, last: Option<real>, m: MathLib)
    requires Solve(x, last, m).Ok? && (f == Sin || f == Cos || f == Tan)
    ensures Solve(Operation(Unary(f, x)), last, m) == Ok(
      if f == Sin then m.sin(Solve(x, last, m).value)
      else if f == Cos then m.cos(Solve(x, last, m).value)
      else m.tan(Solve(x, last, m).value))
  {
  }

  /** `floor`, `ceil`, `round`, `abs` and negation never fail; the first
      three give whole numbers next to the operand, `abs` a non-negative
      number of the same size. */
  lemma RoundingRule(f: UnaryOperator, x: Expr, last: Option<real>, m: MathLib)
    requires Solve(x, last, m).Ok? && (f == Floor || f == Ceil || f == Round || f == Abs || f == Negate)
    ensures var a := Solve(x, last, m).value;
      var r := Solve(Operation(Unary(f, x)), last, m);
      && r.Ok?
      && (f == Floor ==> IsWhole(r.value) && r.value <= a < r.value + 1.0)
      && (f == Ceil ==> IsWhole(r.value) && r.value - 1.0 < a <= r.value)
      && (f == Round ==> IsWhole(r.value) && -0.5 <= r.value - a <= 0.5)
      && (f == Abs ==> r.value >= 0.0 && (r.value == a || r.value == -a))
      && (f == Negate ==> r.value == -a)
  {
    var a := Solve(x, last, m).value;
    assert Solve(Operation(Unary(f, x)), last, m) == ApplyUnary(f, a, m);
  }

  /** Negating twice gives back the operand's value, or its error. */
  lemma NegateTwice(x: Expr, last: Option<real>, m: MathLib)
    ensures Solve(Operation(Unary(Negate, Operation(Unary(Negate, x)))), last, m) == Solve(x, last, m)
  {
  }

  /** Sums, differences and products never fail. */
  lemma ArithmeticRule(op: BinaryOperator, l: Expr, rt: Expr, last: Option<real>, m: MathLib)
    requires Solve(l, last, m).Ok? && Solve(rt, last, m).Ok? && (op == Add || op == Subtract || op == Multiply)
    ensures var a, b := Solve(l, last, m).value, Solve(rt, last, m).value;
      Solve(Operation(Binary(l, op, rt)), last, m) == Ok(
        if op == Add then a + b else if op == Subtract then a - b else a * b)
  {
    var a, b := Solve(l, last, m).value, Solve(rt, last, m).value;
    assert Solve(Operation(Binary(l, op, rt)), last, m) == ApplyBinary(op, a, b, m);
  }

  /** Division fails exactly on a zero divisor. */
  lemma DivisionRule(l: Expr, rt: Expr, last: Option<real>, m: MathLib)
    requires Solve(l, last, m).Ok? && Solve(rt, last, m).Ok?
    ensures var a, b := Solve(l, last, m).value, Solve(rt, last, m).value;
      var r := Solve(Operation(Binary(l, Divide, rt)), last, m);
      && (r.Ok? <==> b != 0.0)
      && (r.Err? ==> r.error == DivisionByZero)
      && (r.Ok? ==> r.value == a / b)
  {
    var a, b := Solve(l, last, m).value, Solve(rt, last, m).value;
    assert Solve(Operation(Binary(l, Divide, rt)), last, m) == ApplyBinary(Divide, a, b, m);
  }

  /** The remainder fails exactly on a zero divisor; the power never fails. */
  lemma ModuloRule(l: Expr, rt: Expr, last: Option<real>, m: MathLib)
    requires Solve(l, last, m).Ok? && Solve(rt, last, m).Ok?
    ensures var a, b := Solve(l, last, m).value, Solve(rt, last, m).value;
      && (b == 0.0 ==> Solve(Operation(Binary(l, Modulo, rt)), last, m) == Err(ModuloByZero))
      && (b != 0.0 ==> Solve(Operation(Binary(l, Modulo, rt)), last, m) == Ok(m.rem(a, b)))
      && Solve(Operation(Binary(l, Power, rt)), last, m) == Ok(m.powf(a, b))
  {
    var a, b := Solve(l, last, m).value, Solve(rt, last, m).value;
    assert Solve(Operation(Binary(l, Modulo, rt)), last, m) == ApplyBinary(Modulo, a, b, m);
    assert Solve(Operation(Binary(l, Power, rt)), last, m) == ApplyBinary(Power, a, b, m);
  }

  /** `a log b` fails exactly when `a <= 0`, `b <= 0` or `b == 1`. */
  lemma LogRule(l: Expr, rt: Expr, last: Option<real>, m: MathLib)
    requires Solve(l, last, m).Ok? && Solve(rt, last, m).Ok?
    ensures var a, b := Solve(l, last, m).value, Solve(rt, last, m).value;
      var r := Solve(Operation(Binary(l, Log, rt)), last, m);
      && (r.Ok? <==> a > 0.0 && b > 0.0 && b != 1.0)
      && (r.Ok? ==> r.value == m.log(a, b))
      && (r.Err? ==> r.error == LogDomain)
  {
  }

  /** `pi` and `e` are the library's constants, whatever the slot holds. */
  lemma ConstantRule(c: Constant, last: Option<real>, m: MathLib)
    ensures Solve(Value(Constant(c)), last, m) == Ok(if c == Pi then m.pi else m.e)
  {
  }

  /** The previous result is available exactly when the slot holds one. */
  lemma LastResultRule(last: Option<real>, m: MathLib)
    ensures Solve(Value(LastResult), last, m).Ok? <==> last.Some?
    ensures last.Some? ==> Solve(Value(LastResult), last, m) == Ok(last.value)
    ensures last.None? ==> Solve(Value(LastResult), last, m) == Err(NoLastResult)
  {
  }

  /** The tree does not mention the previous result. */
  predicate Closed(t: Expr) {
    match t
    case Operation(Unary(_, x)) => Closed(x)
    case Operation(Binary(l, _, rt)) => Closed(l) && Closed(rt)
    case Value(v) => !v.LastResult?
  }

  /** A tree that does not mention the previous result does not depend on
      the slot. */
  lemma {:induction false} ClosedIgnoresSlot(t: Expr, last: Option<real>, last': Option<real>, m: MathLib)
    requires Closed(t)
    ensures Solve(t, last, m) == Solve(t, last', m)
  {
    match t
    case Operation(Unary(_, x)) =>
      ClosedIgnoresSlot(x, last, last', m);
    case Operation(Binary(l, _, rt)) =>
      ClosedIgnoresSlot(l, last, last', m);
      ClosedIgnoresSlot(rt, last, last', m);
    case Value(_) =>
  }

  /** The debug switch changes only what is printed: the result and the slot
      are those of `evaluate`, and the tree is listed exactly when `debug`
      is set and the line parsed. */
  lemma DebugAgrees(line: string, debug: bool, last: Option<real>, parse: TokenParser, m: MathLib)
    ensures var run := EvaluateWithDebug(line, debug, last, parse, m);
      && run.result == Evaluate(line, last, parse, m).0
      && run.slot == Evaluate(line, last, parse, m).1
      && (run.shown != [] <==> debug && Lexer.Tokenize(line).Ok? && parse(Lexer.Tokenize(line).value).Ok?)
      && (run.shown != [] ==> run.shown == PrintAst(parse(Lexer.Tokenize(line).value).value, 0))
  {
  }

  /** The number of children a listed node has. */
  function Arity(n: Label): nat {
    match n
    case UnaryLabel(_) => 1
    case BinaryLabel(_) => 2
    case _ => 0
  }

  /** Reads one tree back from a `print_ast` listing: the first line is the
      root, followed by the listings of its children. */
  function ReadAst(lines: seq<AstLine>): (r: Option<(Expr, seq<AstLine>)>)
    ensures r.Some? ==> |r.value.1| < |lines|
    decreases |lines|
  {
    if |lines| == 0 then None
    else
      var rest := lines[1..];
      match lines[0].node
      case UnaryLabel(f) =>
        (match ReadAst(rest)
         case None => None
         case Some((x, rest')) => Some((Operation(Unary(f, x)), rest')))
      case BinaryLabel(op) =>
        (match ReadAst(rest)
         case None => None
         case Some((l, rest')) =>
           match ReadAst(rest')
           case None => None
           case Some((rt, rest'')) => Some((Operation(Binary(l, op, rt)), rest'')))
      case NumberLabel(n) => Some((Value(Number(n)), rest))
      case ConstantLabel(c) => Some((Value(Constant(c)), rest))
      case LastResultLabel => Some((Value(LastResult), rest))
  }

  lemma Regroup(a: seq<AstLine>, b: seq<AstLine>, c: seq<AstLine>, d: seq<AstLine>)
    ensures a + b + c + d == a + (b + (c + d))
  {
  }

  /** The debug listing describes the tree completely: reading it back
      gives the tree, whatever follows it. */
  lemma {:induction false} ListingRoundTrip(t: Expr, depth: nat, rest: seq<AstLine>)
    ensures ReadAst(PrintAst(t, depth) + rest) == Some((t, rest))
  {
    var lines := PrintAst(t, depth) + rest;
    match t
    case Operation(Unary(f, x)) =>
      ListingRoundTrip(x, depth + 1, rest);
      assert lines[1..] == PrintAst(x, depth + 1) + rest;
    case Operation(Binary(l, op, rt)) =>
      var pl, pr := PrintAst(l, depth + 1), PrintAst(rt, depth + 1);
      ListingRoundTrip(l, depth + 1, pr + rest);
      ListingRoundTrip(rt, depth + 1, rest);
      Regroup([AstLine(depth, BinaryLabel(op))], pl, pr, rest);
      assert lines[1..] == pl + (pr + rest);
    case Value(_) =>
      assert lines[1..] == rest;
  }
}
