/** What `evaluate` of `src/calc/calculator.rs` does with whole lines: a
    line that starts with an operator or is a bare function name works on
    the previous result, and across a sequence of lines the slot holds the
    value of the last line that succeeded. */
module CalculatorLines {
  import opened Results
  import opened Maths
  import opened Parser
  import opened ParserLaws
  import opened ParserGrammar
  import opened Calculator

  /** A line that parses is evaluated by solving its tree. */
  lemma LineValue(line: string, tree: Token, last: Option<real>, m: MathLib)
    requires Parse(line) == Ok(tree)
    ensures Evaluate(line, last, m).0 ==
      if Solve(tree, last, m).Ok? then Ok(Solve(tree, last, m).value)
      else Err(Evaluation(Solve(tree, last, m).error))
  {
  }

  /** A line that opens with an operator combines the previous result with
      the operand after it: after `10 - 5`, the line `- 2` gives `3`. */
  lemma LeadingOperatorUsesLast(op: BinaryOperator, e: Token, x: real, m: MathLib)
    requires Printable(e) && Solve(e, Some(x), m).Ok?
    ensures var y := Solve(e, Some(x), m).value;
      var r := Evaluate(OperatorText(op) + Print(e), Some(x), m).0;
      && (ApplyBinary(op, x, y, m).Ok? ==> r == Ok(ApplyBinary(op, x, y, m).value))
      && (ApplyBinary(op, x, y, m).Err? ==> r == Err(Evaluation(ApplyBinary(op, x, y, m).error)))
  {
    var line := OperatorText(op) + Print(e);
    LeadingLine(op, e, Corrected);
    LineValue(line, Binary(LastResult, op, e), Some(x), m);
    var y := Solve(e, Some(x), m).value;
    assert Solve(Binary(LastResult, op, e), Some(x), m) == ApplyBinary(op, x, y, m);
  }

  /** With no previous result, such a line fails at evaluation. */
  lemma LeadingOperatorWithoutLast(op: BinaryOperator, e: Token, m: MathLib)
    requires Printable(e)
    ensures Evaluate(OperatorText(op) + Print(e), None, m) == (Err(Evaluation(NoLastResult)), None)
  {
    var line := OperatorText(op) + Print(e);
    LeadingLine(op, e, Corrected);
    LineValue(line, Binary(LastResult, op, e), None, m);
    assert Solve(Binary(LastResult, op, e), None, m) == Err(NoLastResult);
  }

  /** A function name alone applies to the previous result: after a line
      giving 3, `sqrt` gives the square root of 3. */
  lemma BareFunctionUsesLast(f: UnaryOperator, x: real, m: MathLib)
    requires f != Factorial
    ensures Evaluate(FunctionText(f) + "", Some(x), m).0 ==
      match ApplyUnary(f, x, m)
      case Ok(y) => Ok(y)
      case Err(err) => Err(Evaluation(err))
  {
    assert Blank("");
    BareFunction(f, "", Corrected);
    LineValue(FunctionText(f) + "", Unary(f, LastResult), Some(x), m);
    assert Solve(Unary(f, LastResult), Some(x), m) == ApplyUnary(f, x, m);
  }

  /** The slot after a run of lines, and the result of each. */
  function Session(lines: seq<string>, last: Option<real>, m: MathLib): (r: (seq<Result<real, LineError>>, Option<real>))
    ensures |r.0| == |lines|
  {
    if |lines| == 0 then ([], last)
    else
      var (results, slot) := Session(lines[..|lines| - 1], last, m);
      var (result, slot') := Evaluate(lines[|lines| - 1], slot, m);
      (results + [result], slot')
  }

  /** The value of the last line that succeeded, or `initial` if none did. */
  function LastSuccess(results: seq<Result<real, LineError>>, initial: Option<real>): Option<real> {
    if |results| == 0 then initial
    else if results[|results| - 1].Ok? then Some(results[|results| - 1].value)
    else LastSuccess(results[..|results| - 1], initial)
  }

  /** Across a session the slot always holds the value of the most recent
      line that succeeded, whatever failed after it. */
  lemma {:induction false} SessionKeepsLastSuccess(lines: seq<string>, last: Option<real>, m: MathLib)
    ensures Session(lines, last, m).1 == LastSuccess(Session(lines, last, m).0, last)
    decreases |lines|
  {
    if |lines| > 0 {
      var init := lines[..|lines| - 1];
      SessionKeepsLastSuccess(init, last, m);
      var (results, slot) := Session(init, last, m);
      var rs := Session(lines, last, m).0;
      assert rs[..|rs| - 1] == results;
    }
  }
}
