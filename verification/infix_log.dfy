/** The infix `log` operator of `src/calc/parser.rs`. `parse_binary_operator`
    consumes the three letters of `log` itself, and the infix loop and the
    leading-operator branch then call `chars.next()` once more, as they do
    for the one-character operators that `parse_binary_operator` only peeks
    at. So as written the character right after `log` is lost; the evidently
    intended reading consumes the operator once. */
module InfixLog {
  import opened Results
  import opened Chars
  import opened Numerals
  import opened Parser
  import opened ParserLaws
  import opened ParserGrammar

  /** How each reading consumes `log`. */
  lemma LogTaken(t: string)
    ensures TakeOperator("log" + t, AsWritten) == Some((Log, Advance(t)))
    ensures TakeOperator("log" + t, Corrected) == Some((Log, t))
  {
    var s := "log" + t;
    assert s[0] == 'l' && s[1] == 'o' && s[2] == 'g' && s[3..] == t;
  }

  /** One round of the infix loop at a `log`, when `log` binds more tightly
      than the loop's strength. */
  lemma LogStep(left: Token, t: string, p: Precedence, v: Variant)
    requires !AtMost(Exponentiation, p)
    ensures var x := ParseExpression(if v == AsWritten then Advance(t) else t, Exponentiation, v);
      && (x.Ok? ==> InfixLoop(left, "log" + t, p, v) == InfixLoop(Binary(left, Log, x.value.0), x.value.1, p, v))
      && (x.Err? ==> InfixLoop(left, "log" + t, p, v) == Err(x.error))
  {
    var s := "log" + t;
    LogTaken(t);
    assert s[0] == 'l';
    SkipNoWhitespace(s);
  }

  /** The input after `log` that the right operand is read from. */
  function AfterLog(t: string, v: Variant): string {
    if v == AsWritten then Advance(t) else t
  }

  /** A line whose first operand is followed by `log` and a right operand
      that reaches the end is that logarithm. */
  lemma LogAfterOperand(s: string, a: Token, ws: string, t: string, v: Variant, b: Token)
    requires |s| > 0 && !IsWhitespace(s[0]) && !IsBinaryOperator(s)
    requires Blank(ws) && ParsePrimary(s, v) == Ok((a, ws + ("log" + t)))
    requires ParseExpression(AfterLog(t, v), Exponentiation, v) == Ok((b, ""))
    ensures ParseWith(s, v) == Ok(Binary(a, Log, b))
  {
    var l := "log" + t;
    InfixBlank(ws, a, l, Lowest, v);
    LogStep(a, t, Lowest, v);
    InfixStop(Binary(a, Log, b), "", Lowest, v);
    LineSteps(s, v, a, ws + l, Binary(a, Log, b), "");
  }

  /** The same line fails as its right operand does. */
  lemma LogOperandFails(s: string, a: Token, ws: string, t: string, v: Variant)
    requires |s| > 0 && !IsWhitespace(s[0]) && !IsBinaryOperator(s)
    requires Blank(ws) && ParsePrimary(s, v) == Ok((a, ws + ("log" + t)))
    requires ParseExpression(AfterLog(t, v), Exponentiation, v).Err?
    ensures ParseExpression(s, Lowest, v) == Err(ParseExpression(AfterLog(t, v), Exponentiation, v).error)
    ensures ParseWith(s, v) == Err(ParseExpression(AfterLog(t, v), Exponentiation, v).error)
  {
    var l := "log" + t;
    InfixBlank(ws, a, l, Lowest, v);
    LogStep(a, t, Lowest, v);
    InfixFails(s, Lowest, v, a, ws + l);
  }

  /** Whitespace and then `log` never start a number. */
  lemma BlankThenLog(ws: string, t: string)
    requires Blank(ws)
    ensures var u := ws + ("log" + t); |u| > 0 && !IsNumeralChar(u[0])
  {
    var u := ws + ("log" + t);
    assert u[0] == if |ws| > 0 then ws[0] else 'l';
  }

  /** As written, the character after `log` is skipped whatever it is: the
      right operand is read from the input after it. */
  lemma AsWrittenSkipsOne(a: Token, ws: string, c: char, b: Token)
    requires Printable(a) && Printable(b) && LogFree(a) && LogFree(b) && Blank(ws)
    ensures ParseAsWritten(Print(a) + (ws + ("log" + ([c] + Print(b))))) == Ok(Binary(a, Log, b))
  {
    var t := [c] + Print(b);
    var u := ws + ("log" + t);
    assert t[1..] == Print(b);
    BlankThenLog(ws, t);
    Operand(a, u, AsWritten);
    Whole(b, Exponentiation, AsWritten);
    LogAfterOperand(Print(a) + u, a, ws, t, AsWritten, b);
  }

  /** Corrected, `log` is one operator between two operands. */
  lemma CorrectedLog(a: Token, ws: string, b: Token)
    requires Printable(a) && Printable(b) && Blank(ws)
    ensures Parse(Print(a) + (ws + ("log" + Print(b)))) == Ok(Binary(a, Log, b))
  {
    var u := ws + ("log" + Print(b));
    BlankThenLog(ws, Print(b));
    Operand(a, u, Corrected);
    Whole(b, Exponentiation, Corrected);
    LogAfterOperand(Print(a) + u, a, ws, Print(b), Corrected, b);
  }

  /** As written, a one-digit right operand written straight after `log` is
      the character that gets skipped, so nothing is left to read it from. */
  lemma AsWrittenLosesDigit(a: Token, ws: string, n: nat)
    requires Printable(a) && LogFree(a) && Blank(ws) && n < 10
    ensures ParseAsWritten(Print(a) + (ws + ("log" + Decimal(n)))) == Err(ExpectedPrimary)
  {
    var t := Decimal(n);
    var u := ws + ("log" + t);
    assert |t| == 1 && Advance(t) == "";
    BlankThenLog(ws, t);
    Operand(a, u, AsWritten);
    assert ParseExpression("", Exponentiation, AsWritten) == Err(ExpectedPrimary);
    LogOperandFails(Print(a) + u, a, ws, t, AsWritten);
  }

  /** `8 log9`: the logarithm of 8 to base 9 once corrected; an error as
      written, because the `9` is skipped. */
  lemma EightLogNine(s: string)
    requires s == "8 log9"
    ensures Parse(s) == Ok(Binary(Value(8.0), Log, Value(9.0)))
    ensures ParseAsWritten(s) == Err(ExpectedPrimary)
  {
    var a, b := Value(8.0), Value(9.0);
    assert Print(a) == "8" && Print(b) == "9" && Decimal(9) == "9";
    assert Blank(" ");
    assert s == Print(a) + (" " + ("log" + Print(b)));
    CorrectedLog(a, " ", b);
    AsWrittenLosesDigit(a, " ", 9);
  }

  /** `parse_primary` on a parenthesis whose inside cannot be read. */
  lemma ParenFails(s: string, v: Variant)
    requires |s| > 0 && s[0] == '('
    requires ParseExpression(s[1..], Lowest, v).Err?
    ensures ParsePrimary(s, v) == Err(ParseExpression(s[1..], Lowest, v).error)
  {
    SkipNoWhitespace(s);
  }

  /** A `)` cannot start an expression. */
  lemma CloseParenAlone(p: Precedence, v: Variant)
    ensures ParseExpression(")", p, v) == Err(ExpectedPrimary)
  {
    assert ")"[0] == ')';
    SkipNoWhitespace(")");
  }

  /** As written, a one-character operand after `log` followed by `)`
      leaves only the `)` to read the operand from. */
  lemma AsWrittenLogBeforeParen(a: Token, c: char)
    requires Printable(a) && LogFree(a)
    ensures ParseExpression(Print(a) + ("log" + ([c] + ")")), Lowest, AsWritten) == Err(ExpectedPrimary)
  {
    var t := [c] + ")";
    var u := "" + ("log" + t);
    assert t[1..] == ")";
    AppendEmpty("log" + t);
    assert Blank("");
    BlankThenLog("", t);
    Operand(a, u, AsWritten);
    CloseParenAlone(Exponentiation, AsWritten);
    LogOperandFails(Print(a) + u, a, "", t, AsWritten);
  }

  lemma Regroup5(a: string, b: string, c: string, d: string, f: string)
    ensures a + b + c + d + f == a + (b + (c + (d + f)))
  {
  }

  lemma PrintValue(n: nat)
    ensures Print(Value(n as real)) == Decimal(n)
  {
    assert (n as real).Floor == n;
  }

  /** How a logarithm to a one-digit base is printed. */
  lemma LogPrint(a: Token, n: nat)
    requires Printable(a) && n < 10
    ensures Print(Binary(a, Log, Value(n as real))) == "(" + (Print(a) + ("log" + (Decimal(n) + ")")))
  {
    var e := Binary(a, Log, Value(n as real));
    assert OperatorText(Log) == "log";
    PrintValue(n);
    assert Print(e) == "(" + Print(a) + OperatorText(Log) + Print(Value(n as real)) + ")";
    Regroup5("(", Print(a), "log", Decimal(n), ")");
  }

  /** A line that opens a parenthesis whose inside cannot be read. */
  lemma OpenParenFails(inner: string, v: Variant)
    requires ParseExpression(inner, Lowest, v).Err?
    ensures ParseWith("(" + inner, v) == Err(ParseExpression(inner, Lowest, v).error)
  {
    var s := "(" + inner;
    assert s[0] == '(' && s[1..] == inner;
    ParenFails(s, v);
    PrimaryFails(s, Lowest, v);
  }

  /** As written, printing a tree and reading it back fails once the tree
      takes the logarithm to a one-digit base: `(8log9)` is rejected. */
  lemma AsWrittenRoundTripFails(a: Token, n: nat)
    requires Printable(a) && LogFree(a) && n < 10
    ensures ParseAsWritten(Print(Binary(a, Log, Value(n as real)))) == Err(ExpectedPrimary)
  {
    var d := Decimal(n);
    LogPrint(a, n);
    assert d == [d[0]];
    AsWrittenLogBeforeParen(a, d[0]);
    OpenParenFails(Print(a) + ("log" + (d + ")")), AsWritten);
  }
}
