/** The evaluator of `src/calc.rs`: it lexes a line with the lexer of
    `src/calc/lexer.rs`, hands the tokens to a token parser, solves the tree
    it returns and keeps the value for the next line. Its tree has more
    functions (`floor`, `ceil`, `abs`, `round`, negation) and the named
    constants `pi` and `e`, and it checks the remainder for a zero divisor.
    The token parser is not part of this model: it is a parameter. */
module Calc {
  import opened Results
  import opened Maths
  import Lexer

  datatype UnaryOperator =
    | Factorial | SquareRoot | Sin | Cos | Tan | Ln
    | Floor | Ceil | Abs | Round | Negate

  datatype BinaryOperator = Add | Subtract | Multiply | Divide | Power | Modulo | Log

  datatype Constant = Pi | E

  /** A leaf of the tree. */
  datatype Value = Number(n: real) | Constant(c: Constant) | LastResult

  /** An inner node of the tree. */
  datatype Operation =
    | Unary(operator: UnaryOperator, operand: Expr)
    | Binary(left: Expr, infix: BinaryOperator, right: Expr)

  datatype Expr = Operation(op: Operation) | Value(v: Value)

  /** The token parser: a tree, or the message it failed with. */
  type TokenParser = seq<Lexer.Token> -> Result<Expr, string>

  /** A function applied to an operand's value. The factorial, the square
      root and `ln` reject operands outside their domains; the rounding
      functions and negation never fail. */
  function ApplyUnary(f: UnaryOperator, a: real, m: MathLib): (r: Result<real, EvalError>)
    ensures r.Err? ==>
      || (f == Factorial && r.error == FactorialDomain)
      || (f == SquareRoot && r.error == SquareRootDomain)
      || (f == Ln && r.error == LnDomain)
  {
    match f
    case Factorial =>
      if a < 0.0 || !IsWhole(a) then Err(FactorialDomain) else Ok(FactorialValue(a))
    case SquareRoot => if a < 0.0 then Err(SquareRootDomain) else Ok(m.sqrt(a))
    case Sin => Ok(m.sin(a))
    case Cos => Ok(m.cos(a))
    case Tan => Ok(m.tan(a))
    case Ln => if a <= 0.0 then Err(LnDomain) else Ok(m.ln(a))
    case Floor => Ok(Maths.Floor(a))
    case Ceil => Ok(Maths.Ceil(a))
    case Abs => Ok(Maths.Abs(a))
    case Round => Ok(Maths.Round(a))
    case Negate => Ok(-a)
  }

  /** An infix operator applied to its operands' values. Division and the
      remainder check for a zero divisor, the logarithm for its domain. */
  function ApplyBinary(op: BinaryOperator, a: real, b: real, m: MathLib): (r: Result<real, EvalError>)
    ensures r.Err? ==>
      || (op == Divide && r.error == DivisionByZero)
      || (op == Modulo && r.error == ModuloByZero)
      || (op == Log && r.error == LogDomain)
  {
    match op
    case Add => Ok(a + b)
    case Subtract => Ok(a - b)
    case Multiply => Ok(a * b)
    case Divide => if b == 0.0 then Err(DivisionByZero) else Ok(a / b)
    case Power => Ok(m.powf(a, b))
    case Modulo => if b == 0.0 then Err(ModuloByZero) else Ok(m.rem(a, b))
    case Log => if a <= 0.0 || b <= 0.0 || b == 1.0 then Err(LogDomain) else Ok(m.log(a, b))
  }

  /** `solve`: operands first (left before right), then the operator; the
      constants come from `m` and the previous result from `last`. */
  function Solve(t: Expr, last: Option<real>, m: MathLib): (r: Result<real, EvalError>)
    ensures r.Err? && r.error == NoLastResult ==> last.None?
  {
    match t
    case Operation(Unary(f, x)) =>
      var a :- Solve(x, last, m);
      ApplyUnary(f, a, m)
    case Operation(Binary(l, op, rt)) =>
      var a :- Solve(l, last, m);
      var b :- Solve(rt, last, m);
      ApplyBinary(op, a, b, m)
    case Value(Number(n)) => Ok(n)
    case Value(Constant(Pi)) => Ok(m.pi)
    case Value(Constant(E)) => Ok(m.e)
    case Value(LastResult) => if last.Some? then Ok(last.value) else Err(NoLastResult)
  }

  /** The stage a line failed in. */
  datatype LineError =
    | Lexing(lex: Lexer.LexError)
    | Parsing(message: string)
    | Evaluation(eval: EvalError)

  /** `evaluate`: lex, parse, solve, in that order, stopping at the first
      stage that fails; only a value reaches the slot. */
  function Evaluate(line: string, last: Option<real>, parse: TokenParser, m: MathLib): (r: (Result<real, LineError>, Option<real>))
    ensures r.0.Ok? ==> r.1 == Some(r.0.value)
    ensures r.0.Err? ==> r.1 == last
    ensures Lexer.Tokenize(line).Err? ==> r.0 == Err(Lexing(Lexer.Tokenize(line).error))
    ensures Lexer.Tokenize(line).Ok? && parse(Lexer.Tokenize(line).value).Err? ==>
      r.0 == Err(Parsing(parse(Lexer.Tokenize(line).value).error))
    ensures Lexer.Tokenize(line).Ok? && parse(Lexer.Tokenize(line).value).Ok? ==>
      match Solve(parse(Lexer.Tokenize(line).value).value, last, m)
      case Ok(x) => r.0 == Ok(x)
      case Err(e) => r.0 == Err(Evaluation(e))
  {
    match Lexer.Tokenize(line)
    case Err(e) => (Err(Lexing(e)), last)
    case Ok(tokens) =>
      match parse(tokens)
      case Err(msg) => (Err(Parsing(msg)), last)
      case Ok(root) =>
        match Solve(root, last, m)
        case Err(e) => (Err(Evaluation(e)), last)
        case Ok(x) => (Ok(x), Some(x))
  }

  /** What a line of `print_ast` shows: the node, without its children. */
  datatype Label =
    | UnaryLabel(unary: UnaryOperator)
    | BinaryLabel(binary: BinaryOperator)
    | NumberLabel(n: real)
    | ConstantLabel(c: Constant)
    | LastResultLabel

  /** A printed line: the node's label, indented by two spaces per level. */
  datatype AstLine = AstLine(depth: nat, node: Label)

  function LabelOf(t: Expr): Label {
    match t
    case Operation(Unary(f, _)) => UnaryLabel(f)
    case Operation(Binary(_, op, _)) => BinaryLabel(op)
    case Value(Number(n)) => NumberLabel(n)
    case Value(Constant(c)) => ConstantLabel(c)
    case Value(LastResult) => LastResultLabel
  }

  /** The number of nodes in a tree. */
  function Size(t: Expr): (n: nat)
    ensures n >= 1
  {
    match t
    case Operation(Unary(_, x)) => 1 + Size(x)
    case Operation(Binary(l, _, rt)) => 1 + Size(l) + Size(rt)
    case Value(_) => 1
  }

  /** `print_ast`: the nodes in pre-order, each one level deeper than its
      parent. */
  function PrintAst(t: Expr, depth: nat): (lines: seq<AstLine>)
    ensures |lines| == Size(t)
    ensures lines[0] == AstLine(depth, LabelOf(t))
    ensures forall i :: 0 <= i < |lines| ==> lines[i].depth >= depth
    ensures forall i :: 1 <= i < |lines| ==> lines[i].depth > depth
  {
    match t
    case Operation(Unary(f, x)) => [AstLine(depth, UnaryLabel(f))] + PrintAst(x, depth + 1)
    case Operation(Binary(l, op, rt)) =>
      [AstLine(depth, BinaryLabel(op))] + PrintAst(l, depth + 1) + PrintAst(rt, depth + 1)
    case Value(_) => [AstLine(depth, LabelOf(t))]
  }

  /** What `evaluate_with_debug` returns and what it printed. */
  datatype Run = Run(result: Result<real, LineError>, slot: Option<real>, shown: seq<AstLine>)

  /** `evaluate_with_debug`: `evaluate`, printing the tree between parsing
      and solving when `debug` is set. */
  function EvaluateWithDebug(line: string, debug: bool, last: Option<real>, parse: TokenParser, m: MathLib): (r: Run)
    ensures r.shown != [] ==> debug
    ensures r.result.Ok? ==> r.slot == Some(r.result.value)
    ensures r.result.Err? ==> r.slot == last
  {
    match Lexer.Tokenize(line)
    case Err(e) => Run(Err(Lexing(e)), last, [])
    case Ok(tokens) =>
      match parse(tokens)
      case Err(msg) => Run(Err(Parsing(msg)), last, [])
      case Ok(root) =>
        var shown := if debug then PrintAst(root, 0) else [];
        match Solve(root, last, m)
        case Err(e) => Run(Err(Evaluation(e)), last, shown)
        case Ok(x) => Run(Ok(x), Some(x), shown)
  }
}
