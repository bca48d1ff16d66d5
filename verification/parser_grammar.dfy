/** How `src/calc/parser.rs` reads whole lines: operator chains under
    precedence and left grouping, the previous result as a missing left
    operand, chains of `!`, whitespace, the lines it rejects, and the infix
    `log` as the source reads it. */
module ParserGrammar {
  import opened Results
  import opened Chars
  import opened Numerals
  import opened Parser
  import opened ParserLaws

  /** Every character is whitespace. */
  predicate Blank(ws: string) {
    forall i :: 0 <= i < |ws| ==> IsWhitespace(ws[i])
  }

  lemma {:induction false} SkipBlank(ws: string, s: string)
    requires Blank(ws)
    ensures SkipWhitespace(ws + s) == SkipWhitespace(s)
    decreases |ws|
  {
    if |ws| > 0 {
      assert (ws + s)[0] == ws[0];
      assert (ws + s)[1..] == ws[1..] + s;
      SkipBlank(ws[1..], s);
    } else {
      assert ws + s == s;
    }
  }

  /** Whitespace in front of an expression, a primary, an infix operator
      or a `!` is skipped before anything is read. */
  lemma ExpressionBlank(ws: string, s: string, p: Precedence, v: Variant)
    requires Blank(ws)
    ensures ParseExpression(ws + s, p, v) == ParseExpression(s, p, v)
  {
    SkipBlank(ws, s);
  }

  lemma PrimaryBlank(ws: string, s: string, v: Variant)
    requires Blank(ws)
    ensures ParsePrimary(ws + s, v) == ParsePrimary(s, v)
  {
    SkipBlank(ws, s);
  }

  lemma InfixBlank(ws: string, left: Token, s: string, p: Precedence, v: Variant)
    requires Blank(ws)
    ensures InfixLoop(left, ws + s, p, v) == InfixLoop(left, s, p, v)
  {
    SkipBlank(ws, s);
  }

  lemma FactorialBlank(ws: string, left: Token, s: string)
    requires Blank(ws)
    ensures FactorialLoop(left, ws + s) == FactorialLoop(left, s)
  {
    SkipBlank(ws, s);
  }

  /** Where an operator's text starts, and how strongly it binds. */
  lemma OperatorFront(op: BinaryOperator, t: string)
    ensures var s := OperatorText(op) + t;
      && |s| > 0 && !IsWhitespace(s[0]) && !IsNumeralChar(s[0]) && s[0] != '!'
      && GetPrecedence(s[0]) == OperatorPrecedence(op)
  {
    assert (OperatorText(op) + t)[0] == OperatorText(op)[0];
  }

  /** An operator's text stops an expression read at `p` when the operator
      binds no more strongly than `p`. */
  lemma OperatorStops(op: BinaryOperator, t: string, p: Precedence)
    requires AtMost(OperatorPrecedence(op), p)
    ensures var s := OperatorText(op) + t; Stops(s, p) && !IsNumeralChar(s[0])
  {
    OperatorFront(op, t);
  }

  /** Two operands and one operator. */
  lemma InfixPair(a: Token, op: BinaryOperator, b: Token, v: Variant)
    requires Printable(a) && Printable(b) && ReadsOnce(op, v)
    requires v == Corrected || (LogFree(a) && LogFree(b))
    ensures ParseWith(Print(a) + (OperatorText(op) + Print(b)), v) == Ok(Binary(a, op, b))
  {
    var t, pb := OperatorText(op), Print(b);
    OperatorFront(op, pb);
    PrimaryRoundTrip(a, t + pb, v);
    PrintStart(a, t + pb);
    ExpressionRoundTrip(b, "", OperatorPrecedence(op), v);
    AppendEmpty(pb);
    InfixOnce(Print(a) + (t + pb), a, op, pb, b, "", Lowest, v);
  }

  /** Three operands and two operators: the second operator joins the
      right operand of the first only when it binds strictly more tightly;
      otherwise the first pair is grouped first, so equal strengths group
      to the left. */
  lemma InfixChain(a: Token, o1: BinaryOperator, b: Token, o2: BinaryOperator, c: Token, v: Variant)
    requires Printable(a) && Printable(b) && Printable(c) && ReadsOnce(o1, v) && ReadsOnce(o2, v)
    requires v == Corrected || (LogFree(a) && LogFree(b) && LogFree(c))
    ensures ParseWith(Print(a) + (OperatorText(o1) + (Print(b) + (OperatorText(o2) + Print(c)))), v)
      == Ok(if AtMost(OperatorPrecedence(o2), OperatorPrecedence(o1))
            then Binary(Binary(a, o1, b), o2, c)
            else Binary(a, o1, Binary(b, o2, c)))
  {
    var p1, p2 := OperatorPrecedence(o1), OperatorPrecedence(o2);
    var t1, t2, pc := OperatorText(o1), OperatorText(o2), Print(c);
    var u2 := t2 + pc;
    var u1 := Print(b) + u2;
    var s := Print(a) + (t1 + u1);
    OperatorFront(o1, u1);
    OperatorFront(o2, pc);
    PrimaryRoundTrip(a, t1 + u1, v);
    PrintStart(a, t1 + u1);
    PrimaryRoundTrip(b, u2, v);
    PrintStart(b, u2);
    AppendEmpty(pc);
    ExpressionRoundTrip(c, "", p2, v);
    if AtMost(p2, p1) {
      OperatorStops(o2, pc, p1);
      ExpressionRoundTrip(b, u2, p1, v);
      var ab := Binary(a, o1, b);
      InfixStep(a, o1, u1, Lowest, v, b, u2);
      InfixStep(ab, o2, pc, Lowest, v, c, "");
      InfixStop(Binary(ab, o2, c), "", Lowest, v);
      FactorialStop(Binary(ab, o2, c), "");
      ExpressionSteps(s, Lowest, v, a, t1 + u1, Binary(ab, o2, c), "");
    } else {
      InfixOnce(u1, b, o2, pc, c, "", p1, v);
      InfixOnce(s, a, o1, u1, Binary(b, o2, c), "", Lowest, v);
    }
  }

  /** A line that opens with an operator takes the previous result as its
      left operand and one operand read at prefix strength as its right, at
      any strength it is read at. */
  lemma LeadingOperator(op: BinaryOperator, t: string, p: Precedence, v: Variant)
    requires ReadsOnce(op, v)
    ensures ParseExpression(OperatorText(op) + t, p, v) ==
      match ParseExpression(t, Prefix, v)
      case Ok((right, rest)) => Ok((Binary(LastResult, op, right), rest))
      case Err(err) => Err(err)
  {
    var s := OperatorText(op) + t;
    OperatorStep(op, t, v);
    SkipNoWhitespace(s);
  }

  /** An operator and a printed tree: the previous result combined with the
      tree. */
  lemma LeadingRoundTrip(op: BinaryOperator, e: Token, rest: string, p: Precedence, v: Variant)
    requires Printable(e) && ReadsOnce(op, v) && (v == Corrected || LogFree(e))
    requires Stops(rest, Prefix) && (|rest| == 0 || !IsNumeralChar(rest[0]))
    ensures ParseExpression(OperatorText(op) + (Print(e) + rest), p, v) == Ok((Binary(LastResult, op, e), rest))
  {
    ExpressionRoundTrip(e, rest, Prefix, v);
    LeadingOperator(op, Print(e) + rest, p, v);
  }

  /** `- 2` reads as the previous result minus two. */
  lemma LeadingLine(op: BinaryOperator, e: Token, v: Variant)
    requires Printable(e) && ReadsOnce(op, v) && (v == Corrected || LogFree(e))
    ensures ParseWith(OperatorText(op) + Print(e), v) == Ok(Binary(LastResult, op, e))
  {
    LeadingRoundTrip(op, e, "", Lowest, v);
    AppendEmpty(Print(e));
  }

  /** The right operand of a leading operator is read at prefix strength and
      the expression ends there, so any operator after it is left unread
      and the line is rejected: `- 2 + 3` does not parse. */
  lemma LeadingOperatorEndsLine(op: BinaryOperator, e: Token, op2: BinaryOperator, u: string, v: Variant)
    requires Printable(e) && ReadsOnce(op, v) && (v == Corrected || LogFree(e))
    ensures ParseWith(OperatorText(op) + (Print(e) + (OperatorText(op2) + u)), v) == Err(TrailingCharacters)
  {
    var rest := OperatorText(op2) + u;
    OperatorStops(op2, u, Prefix);
    LeadingRoundTrip(op, e, rest, Lowest, v);
  }

  /** An operator right after another one starts a nested expression that
      takes the previous result: `2*-3` is two times (previous result minus
      three). */
  lemma NestedLeading(a: Token, op: BinaryOperator, op2: BinaryOperator, e: Token, v: Variant)
    requires Printable(a) && Printable(e) && ReadsOnce(op, v) && ReadsOnce(op2, v)
    requires v == Corrected || (LogFree(a) && LogFree(e))
    ensures ParseWith(Print(a) + (OperatorText(op) + (OperatorText(op2) + Print(e))), v)
      == Ok(Binary(a, op, Binary(LastResult, op2, e)))
  {
    var t := OperatorText(op);
    var u := OperatorText(op2) + Print(e);
    OperatorFront(op, u);
    PrimaryRoundTrip(a, t + u, v);
    PrintStart(a, t + u);
    LeadingRoundTrip(op2, e, "", OperatorPrecedence(op), v);
    AppendEmpty(Print(e));
    InfixOnce(Print(a) + (t + u), a, op, u, Binary(LastResult, op2, e), "", Lowest, v);
  }

  /** `k` factorial marks. */
  function Bangs(k: nat): (s: string)
    ensures |s| == k && forall i :: 0 <= i < k ==> s[i] == '!'
  {
    if k == 0 then "" else "!" + Bangs(k - 1)
  }

  /** `e` under `k` factorials, the innermost applied first. */
  function Factorials(e: Token, k: nat): Token
    decreases k
  {
    if k == 0 then e else Factorials(Unary(Factorial, e), k - 1)
  }

  /** The postfix loop wraps once per `!`. */
  lemma {:induction false} FactorialLoopBangs(e: Token, k: nat)
    ensures FactorialLoop(e, Bangs(k)) == (Factorials(e, k), "")
    decreases k
  {
    if k > 0 {
      var s := Bangs(k);
      SkipNoWhitespace(s);
      assert s[1..] == Bangs(k - 1);
      FactorialLoopBangs(Unary(Factorial, e), k - 1);
    }
  }

  /** A tree followed by `k` factorial marks: `3!!` is `(3!)!`. */
  lemma FactorialChain(e: Token, k: nat, v: Variant)
    requires Printable(e) && (v == Corrected || LogFree(e))
    ensures ParseWith(Print(e) + Bangs(k), v) == Ok(Factorials(e, k))
  {
    var s := Print(e) + Bangs(k);
    PrimaryRoundTrip(e, Bangs(k), v);
    PrintStart(e, Bangs(k));
    InfixStop(e, Bangs(k), Lowest, v);
    FactorialLoopBangs(e, k);
    ExpressionSteps(s, Lowest, v, e, Bangs(k), e, Bangs(k));
  }

  /** After the postfix loop no operator is read: `3! + 2` is rejected. */
  lemma NoInfixAfterFactorial(e: Token, op: BinaryOperator, u: string, v: Variant)
    requires Printable(e) && (v == Corrected || LogFree(e))
    ensures ParseWith(Print(e) + ("!" + (OperatorText(op) + u)), v) == Err(TrailingCharacters)
  {
    var t := OperatorText(op) + u;
    var s := Print(e) + ("!" + t);
    OperatorFront(op, u);
    assert ("!" + t)[0] == '!';
    PrimaryRoundTrip(e, "!" + t, v);
    PrintStart(e, "!" + t);
    InfixStop(e, "!" + t, Lowest, v);
    FactorialOnce(e, t);
    ExpressionSteps(s, Lowest, v, e, "!" + t, e, "!" + t);
  }

  /** `parse_expression` on input that does not open with an operator,
      when the primary is read but the infix loop fails. */
  lemma InfixFails(s: string, p: Precedence, v: Variant, x: Token, s2: string)
    requires |s| > 0 && !IsWhitespace(s[0]) && !IsBinaryOperator(s)
    requires ParsePrimary(s, v) == Ok((x, s2))
    requires InfixLoop(x, s2, p, v).Err?
    ensures ParseExpression(s, p, v) == Err(InfixLoop(x, s2, p, v).error)
  {
    SkipNoWhitespace(s);
  }

  /** `parse_expression` on input that does not open with an operator,
      when no primary can be read. */
  lemma PrimaryFails(s: string, p: Precedence, v: Variant)
    requires |s| > 0 && !IsWhitespace(s[0]) && !IsBinaryOperator(s)
    requires ParsePrimary(s, v).Err?
    ensures ParseExpression(s, p, v) == Err(ParsePrimary(s, v).error)
  {
    SkipNoWhitespace(s);
  }

  /** An operator with nothing after it: `2 *` is rejected for want of an
      operand. */
  lemma TrailingOperator(e: Token, op: BinaryOperator, v: Variant)
    requires Printable(e) && ReadsOnce(op, v) && (v == Corrected || LogFree(e))
    ensures ParseWith(Print(e) + OperatorText(op), v) == Err(ExpectedPrimary)
  {
    var t := OperatorText(op);
    var s := Print(e) + t;
    OperatorStep(op, "", v);
    AppendEmpty(t);
    OperatorFront(op, "");
    PrimaryRoundTrip(e, t, v);
    PrintStart(e, t);
    SkipNoWhitespace(t);
    assert ParseExpression("", OperatorPrecedence(op), v) == Err(ExpectedPrimary);
    assert InfixLoop(e, t, Lowest, v) == Err(ExpectedPrimary);
    InfixFails(s, Lowest, v, e, t);
  }

  /** A parenthesis that is never closed. */
  lemma UnclosedParen(e: Token, v: Variant)
    requires Printable(e) && (v == Corrected || LogFree(e))
    ensures ParseWith("(" + Print(e), v) == Err(ExpectedCloseParen)
  {
    Whole(e, Lowest, v);
    OpenParenAtEnd(Print(e), e, v);
  }

  /** A line that opens a parenthesis and whose inside reaches the end. */
  lemma OpenParenAtEnd(inner: string, e: Token, v: Variant)
    requires ParseExpression(inner, Lowest, v) == Ok((e, ""))
    ensures ParseWith("(" + inner, v) == Err(ExpectedCloseParen)
  {
    var s := "(" + inner;
    assert s[0] == '(' && s[1..] == inner;
    SkipNoWhitespace(s);
    assert ParsePrimary(s, v) == Err(ExpectedCloseParen);
    PrimaryFails(s, Lowest, v);
  }

  /** A whole line that does not open with an operator, once its primary
      and its infix loop are read and the postfix loop has nothing to do:
      accepted exactly when the loops reach the end. */
  lemma LineSteps(s: string, v: Variant, x: Token, u: string, y: Token, rest: string)
    requires |s| > 0 && !IsWhitespace(s[0]) && !IsBinaryOperator(s)
    requires ParsePrimary(s, v) == Ok((x, u))
    requires InfixLoop(x, u, Lowest, v) == Ok((y, rest))
    requires |rest| == 0 || (!IsWhitespace(rest[0]) && rest[0] != '!')
    ensures ParseWith(s, v) == if |rest| == 0 then Ok(y) else Err(TrailingCharacters)
  {
    FactorialStop(y, rest);
    ExpressionSteps(s, Lowest, v, x, u, y, rest);
  }

  /** A word after an operand is not an operator, unless it is `log`: the
      loops stop in front of it and the line is rejected. */
  lemma WordAfterOperand(e: Token, w: string, v: Variant)
    requires Printable(e) && (v == Corrected || LogFree(e))
    requires |w| > 0 && IsLetter(w[0]) && !StartsWithLog(w)
    ensures ParseWith(Print(e) + w, v) == Err(TrailingCharacters)
  {
    Operand(e, w, v);
    InfixStop(e, w, Lowest, v);
    LineSteps(Print(e) + w, v, e, w, e, w);
  }

  /** A function name with nothing but whitespace after it applies to the
      previous result: the line `sqrt`. */
  lemma BareFunction(f: UnaryOperator, ws: string, v: Variant)
    requires f != Factorial && Blank(ws)
    ensures ParseWith(FunctionText(f) + ws, v) == Ok(Unary(f, LastResult))
  {
    var w := FunctionText(f);
    var s := w + ws;
    var e := Unary(f, LastResult);
    FunctionName(f);
    WordAtEnd(w, f, ws, v);
    assert s[0] == w[0];
    if w[0] == 'l' {
      assert s[1] == w[1] == 'n';
    }
    InfixStop(e, "", Lowest, v);
    FactorialStop(e, "");
    ExpressionSteps(s, Lowest, v, e, "", e, "");
  }
}
