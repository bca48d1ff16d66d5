/** What the parser of `src/calc/parser.rs` reads: a printer it inverts, how
    precedence and grouping come out, where the previous result is filled
    in, and the inputs it rejects. */
module ParserLaws {
  import opened Results
  import opened Chars
  import opened Numerals
  import opened Parser

  /** The strength `get_precedence` gives to an operator's first character. */
  function OperatorPrecedence(op: BinaryOperator): (p: Precedence)
    ensures p != Lowest && p != Prefix
  {
    match op
    case Add => Addition
    case Subtract => Addition
    case Multiply => Multiplication
    case Divide => Multiplication
    case Modulo => Multiplication
    case Power => Exponentiation
    case Log => Exponentiation
  }

  function OperatorText(op: BinaryOperator): string {
    match op
    case Add => "+"
    case Subtract => "-"
    case Multiply => "*"
    case Divide => "/"
    case Power => "^"
    case Modulo => "%"
    case Log => "log"
  }

  function FunctionText(f: UnaryOperator): string
    requires f != Factorial
  {
    match f
    case SquareRoot => "sqrt"
    case Sin => "sin"
    case Cos => "cos"
    case Tan => "tan"
    case Ln => "ln"
  }

  /** `log` is consumed as one operator, or the operator is a symbol. */
  predicate ReadsOnce(op: BinaryOperator, v: Variant) {
    v == Corrected || op != Log
  }

  /** A precedence no operator reaches, so the infix loop stops at `s`. */
  predicate Stops(s: string, p: Precedence) {
    |s| == 0 || (!IsWhitespace(s[0]) && s[0] != '!' && (AtMost(GetPrecedence(s[0]), p) || !IsBinaryOperator(s)))
  }

  /** An operator's text is read back as that operator, at its strength. */
  lemma OperatorStep(op: BinaryOperator, t: string, v: Variant)
    requires ReadsOnce(op, v)
    ensures var s := OperatorText(op) + t;
      && |s| > 0 && !IsWhitespace(s[0]) && !IsNumeralChar(s[0]) && s[0] != '!'
      && GetPrecedence(s[0]) == OperatorPrecedence(op)
      && TakeOperator(s, v) == Some((op, t))
  {
    var s := OperatorText(op) + t;
    assert s[0] == OperatorText(op)[0];
    if op == Log {
      assert s[1] == 'o' && s[2] == 'g';
      assert s[3..] == t;
    } else {
      assert s[1..] == t;
    }
  }

  /** The infix loop does nothing where the input stops it. */
  lemma InfixStop(left: Token, s: string, p: Precedence, v: Variant)
    requires |s| == 0 || (!IsWhitespace(s[0]) && (AtMost(GetPrecedence(s[0]), p) || !IsBinaryOperator(s)))
    ensures InfixLoop(left, s, p, v) == Ok((left, s))
  {
    SkipNoWhitespace(s);
  }

  /** The postfix loop does nothing unless a `!` comes next. */
  lemma FactorialStop(left: Token, s: string)
    requires |s| == 0 || (!IsWhitespace(s[0]) && s[0] != '!')
    ensures FactorialLoop(left, s) == (left, s)
  {
    SkipNoWhitespace(s);
  }

  /** One `!` and then input that stops the postfix loop. */
  lemma FactorialOnce(left: Token, rest: string)
    requires |rest| == 0 || (!IsWhitespace(rest[0]) && rest[0] != '!')
    ensures FactorialLoop(left, "!" + rest) == (Unary(Factorial, left), rest)
  {
    SkipNoWhitespace("!" + rest);
    assert ("!" + rest)[1..] == rest;
    FactorialStop(Unary(Factorial, left), rest);
  }

  /** One round of the infix loop: an operator stronger than `p`, then its
      right operand read at the operator's own strength. */
  lemma InfixStep(left: Token, op: BinaryOperator, t: string, p: Precedence, v: Variant, right: Token, t': string)
    requires ReadsOnce(op, v)
    requires !AtMost(OperatorPrecedence(op), p)
    requires ParseExpression(t, OperatorPrecedence(op), v) == Ok((right, t'))
    ensures InfixLoop(left, OperatorText(op) + t, p, v) == InfixLoop(Binary(left, op, right), t', p, v)
  {
    var s := OperatorText(op) + t;
    OperatorStep(op, t, v);
    SkipNoWhitespace(s);
  }

  /** `parse_expression` on input that does not open with an operator: a
      primary, then the infix loop, then the postfix loop. */
  lemma ExpressionSteps(s: string, p: Precedence, v: Variant, x: Token, s2: string, y: Token, s3: string)
    requires |s| > 0 && !IsWhitespace(s[0]) && !IsBinaryOperator(s)
    requires ParsePrimary(s, v) == Ok((x, s2))
    requires InfixLoop(x, s2, p, v) == Ok((y, s3))
    ensures ParseExpression(s, p, v) == Ok(FactorialLoop(y, s3))
  {
    SkipNoWhitespace(s);
  }

  /** A natural number in decimal is read as that number. */
  lemma NumberPrimary(n: nat, rest: string, v: Variant)
    requires |rest| == 0 || !IsNumeralChar(rest[0])
    ensures var s := Decimal(n) + rest;
      && |s| > 0 && IsDigit(s[0]) && !IsWhitespace(s[0]) && !IsBinaryOperator(s)
      && ParsePrimary(s, v) == Ok((Value(n as real), rest))
  {
    var d := Decimal(n);
    var s := d + rest;
    assert s[0] == d[0];
    SkipNoWhitespace(s);
    SpanOfConcat(d, rest, IsNumeralChar);
    assert s[..|d|] == d && s[|d|..] == rest;
    ReadDecimal(n);
  }

  /** Trees the printer below writes: natural-number values and no previous
      result. */
  predicate Printable(e: Token) {
    match e
    case Value(x) => x >= 0.0 && x == x.Floor as real
    case Unary(_, x) => Printable(x)
    case Binary(l, _, r) => Printable(l) && Printable(r)
    case LastResult => false
  }

  predicate LogFree(e: Token) {
    match e
    case Value(_) => true
    case Unary(_, x) => LogFree(x)
    case Binary(l, op, r) => op != Log && LogFree(l) && LogFree(r)
    case LastResult => true
  }

  /** A compact printer: every operator application in parentheses with no
      spaces, a prefix function followed by one space. */
  function Print(e: Token): string
    requires Printable(e)
  {
    match e
    case Value(x) => Decimal(x.Floor)
    case Unary(f, x) => if f == Factorial then "(" + Print(x) + "!)" else FunctionText(f) + " " + Print(x)
    case Binary(l, op, r) => "(" + Print(l) + OperatorText(op) + Print(r) + ")"
  }

  /** A printed tree starts with a digit, a parenthesis or a letter, and an
      `l` only as the `l` of `ln`. */
  lemma PrintHead(e: Token)
    requires Printable(e)
    ensures var p := Print(e);
      && |p| > 0 && (IsDigit(p[0]) || p[0] == '(' || IsLetter(p[0]))
      && (p[0] == 'l' ==> |p| > 1 && p[1] == 'n')
  {
    match e
    case Value(x) =>
    case Unary(f, x) =>
      if f != Factorial {
        assert Print(e) == FunctionText(f) + (" " + Print(x));
      }
    case Binary(_, _, _) =>
  }

  /** Input that starts like a printed tree is never read as whitespace, an
      operator or a `!`. */
  lemma HeadStart(p: string, rest: string)
    requires |p| > 0 && (IsDigit(p[0]) || p[0] == '(' || IsLetter(p[0]))
    requires p[0] == 'l' ==> |p| > 1 && p[1] == 'n'
    ensures var s := p + rest;
      && |s| > 0 && !IsWhitespace(s[0]) && s[0] != '!' && !IsBinaryOperator(s)
      && (IsDigit(s[0]) || s[0] == '(' || IsLetter(s[0]))
  {
    var s := p + rest;
    assert s[0] == p[0];
    if p[0] == 'l' {
      assert s[1] == p[1];
    }
  }

  /** So a printed tree is never read as whitespace, an operator or a `!`. */
  lemma PrintStart(e: Token, rest: string)
    requires Printable(e)
    ensures var s := Print(e) + rest;
      && |s| > 0 && !IsWhitespace(s[0]) && s[0] != '!' && !IsBinaryOperator(s)
      && (IsDigit(s[0]) || s[0] == '(' || IsLetter(s[0]))
  {
    PrintHead(e);
    HeadStart(Print(e), rest);
  }

  /** `parse_primary` on a parenthesis: the expression inside, then `)`. */
  lemma ParenSteps(s: string, inner: Token, u: string, v: Variant)
    requires |s| > 0 && s[0] == '('
    requires ParseExpression(s[1..], Lowest, v) == Ok((inner, u))
    requires |u| > 0 && u[0] == ')'
    ensures ParsePrimary(s, v) == Ok((inner, u[1..]))
  {
    SkipNoWhitespace(s);
    SkipNoWhitespace(u);
  }

  /** `(` followed by an expression and `)`. */
  lemma ParenPrimary(t: string, inner: Token, rest: string, v: Variant)
    requires ParseExpression(t, Lowest, v) == Ok((inner, ")" + rest))
    ensures ParsePrimary("(" + t, v) == Ok((inner, rest))
  {
    var s, u := "(" + t, ")" + rest;
    assert s[0] == '(' && s[1..] == t;
    assert u[0] == ')' && u[1..] == rest;
    ParenSteps(s, inner, u, v);
  }

  lemma SkipOneSpace(u: string)
    requires |u| == 0 || !IsWhitespace(u[0])
    ensures SkipWhitespace(" " + u) == u
  {
    assert (" " + u)[1..] == u;
    SkipNoWhitespace(u);
  }

  /** Each function name is a word of letters that `parse_unary_operator`
      recognises. */
  lemma FunctionName(f: UnaryOperator)
    requires f != Factorial
    ensures var w := FunctionText(f);
      && |w| > 0 && (forall i :: 0 <= i < |w| ==> IsLetter(w[i]))
      && UnaryKeyword(w) == Some(f)
  {
  }

  /** `parse_primary` hands a word to `parse_unary_operator`. */
  lemma LetterPrimary(s: string, v: Variant)
    requires |s| > 0 && IsLetter(s[0])
    ensures ParsePrimary(s, v) == ParseUnaryOperator(s, v)
  {
    SkipNoWhitespace(s);
  }

  /** `parse_unary_operator` once the word and the whitespace after it are
      known. */
  lemma UnarySteps(s: string, n: nat, f: UnaryOperator, s2: string, x: Token, rest: string, v: Variant)
    requires |s| > 0 && IsLetter(s[0])
    requires Span(s, IsLetter) == n && UnaryKeyword(s[..n]) == Some(f)
    requires SkipWhitespace(s[n..]) == s2 && |s2| > 0
    requires ParsePrimary(s2, v) == Ok((x, rest))
    ensures ParseUnaryOperator(s, v) == Ok((Unary(f, x), rest))
  {
  }

  /** A word naming a prefix function, one space, and the primary it
      applies to. */
  lemma WordPrimary(w: string, f: UnaryOperator, t: string, x: Token, rest: string, v: Variant)
    requires |w| > 0 && (forall i :: 0 <= i < |w| ==> IsLetter(w[i])) && UnaryKeyword(w) == Some(f)
    requires |t| > 0 && !IsWhitespace(t[0])
    requires ParsePrimary(t, v) == Ok((x, rest))
    ensures ParsePrimary(w + (" " + t), v) == Ok((Unary(f, x), rest))
  {
    var s := w + (" " + t);
    assert s[0] == w[0];
    assert (" " + t)[0] == ' ';
    SpanOfConcat(w, " " + t, IsLetter);
    assert s[..|w|] == w && s[|w|..] == " " + t;
    SkipOneSpace(t);
    UnarySteps(s, |w|, f, t, x, rest, v);
    LetterPrimary(s, v);
  }

  /** A word naming a prefix function with nothing but whitespace after it
      applies to the previous result. */
  lemma WordAtEnd(w: string, f: UnaryOperator, ws: string, v: Variant)
    requires |w| > 0 && (forall i :: 0 <= i < |w| ==> IsLetter(w[i])) && UnaryKeyword(w) == Some(f)
    requires forall i :: 0 <= i < |ws| ==> IsWhitespace(ws[i])
    ensures ParsePrimary(w + ws, v) == Ok((Unary(f, LastResult), ""))
  {
    var s := w + ws;
    assert s[0] == w[0];
    SkipNoWhitespace(s);
    SpanOfConcat(w, ws, IsLetter);
    assert s[..|w|] == w && s[|w|..] == ws;
    SkipAllWhitespace(ws);
  }

  lemma Regroup(a: string, b: string, c: string, d: string, f: string, g: string)
    ensures a + b + c + d + f + g == a + (b + (c + (d + (f + g))))
  {
  }

  lemma Regroup4(a: string, b: string, c: string, d: string)
    ensures a + b + c + d == a + (b + (c + d))
  {
  }

  /** An operand, one operator stronger than `p`, and a right operand
      after which the input stops the loops: one binary node. */
  lemma InfixOnce(s: string, l: Token, op: BinaryOperator, u: string, r: Token, rest: string, p: Precedence, v: Variant)
    requires ReadsOnce(op, v) && !AtMost(OperatorPrecedence(op), p)
    requires |s| > 0 && !IsWhitespace(s[0]) && !IsBinaryOperator(s)
    requires ParsePrimary(s, v) == Ok((l, OperatorText(op) + u))
    requires ParseExpression(u, OperatorPrecedence(op), v) == Ok((r, rest))
    requires Stops(rest, p)
    ensures ParseExpression(s, p, v) == Ok((Binary(l, op, r), rest))
  {
    InfixStep(l, op, u, p, v, r, rest);
    InfixStop(Binary(l, op, r), rest, p, v);
    FactorialStop(Binary(l, op, r), rest);
    ExpressionSteps(s, p, v, l, OperatorText(op) + u, Binary(l, op, r), rest);
  }

  /** Case `Binary` of the round trip, given what the operands' texts
      `pl` and `pr` read as. */
  lemma BinaryCase(pl: string, l: Token, op: BinaryOperator, pr: string, r: Token, rest: string, v: Variant)
    requires ReadsOnce(op, v)
    requires var t := OperatorText(op) + (pr + (")" + rest));
      && |pl + t| > 0 && !IsWhitespace((pl + t)[0]) && !IsBinaryOperator(pl + t)
      && ParsePrimary(pl + t, v) == Ok((l, t))
    requires ParseExpression(pr + (")" + rest), OperatorPrecedence(op), v) == Ok((r, ")" + rest))
    ensures ParsePrimary("(" + pl + OperatorText(op) + pr + ")" + rest, v) == Ok((Binary(l, op, r), rest))
  {
    var u := pr + (")" + rest);
    var s := pl + (OperatorText(op) + u);
    Regroup("(", pl, OperatorText(op), pr, ")", rest);
    CloseStops(rest, Lowest);
    InfixOnce(s, l, op, u, r, ")" + rest, Lowest, v);
    ParenPrimary(s, Binary(l, op, r), rest, v);
  }

  /** Case postfix `!` of the round trip, given what the operand's text
      `px` reads as. */
  lemma FactorialCase(px: string, x: Token, rest: string, v: Variant)
    requires var t := "!" + (")" + rest);
      && |px + t| > 0 && !IsWhitespace((px + t)[0]) && !IsBinaryOperator(px + t)
      && ParsePrimary(px + t, v) == Ok((x, t))
    ensures ParsePrimary("(" + px + "!)" + rest, v) == Ok((Unary(Factorial, x), rest))
  {
    var e := Unary(Factorial, x);
    var t := "!" + (")" + rest);
    var s := px + t;
    assert "(" + px + "!)" + rest == "(" + s;
    InfixStop(x, t, Lowest, v);
    FactorialOnce(x, ")" + rest);
    ExpressionSteps(s, Lowest, v, x, t, x, t);
    ParenPrimary(s, e, rest, v);
  }

  /** Input that opens with `)` stops both loops at any strength. */
  lemma CloseStops(rest: string, p: Precedence)
    ensures var u := ")" + rest; Stops(u, p) && !IsNumeralChar(u[0])
  {
    assert (")" + rest)[0] == ')';
  }

  /** An operator's text never opens with a digit or a dot. */
  lemma OperatorHead(op: BinaryOperator, t: string)
    ensures !IsNumeralChar((OperatorText(op) + t)[0])
  {
    assert (OperatorText(op) + t)[0] == OperatorText(op)[0];
  }

  /** Round trip of a prefix function, given that of its operand. */
  lemma FunctionArm(f: UnaryOperator, x: Token, rest: string, v: Variant)
    requires f != Factorial && Printable(x)
    requires ParsePrimary(Print(x) + rest, v) == Ok((x, rest))
    ensures ParsePrimary(Print(Unary(f, x)) + rest, v) == Ok((Unary(f, x), rest))
  {
    var w, px := FunctionText(f), Print(x);
    assert Print(Unary(f, x)) == w + " " + px;
    Regroup4(w, " ", px, rest);
    PrintStart(x, rest);
    FunctionName(f);
    WordPrimary(w, f, px + rest, x, rest, v);
  }

  /** Round trip of a postfix `!`, given that of its operand. */
  lemma FactorialArm(x: Token, rest: string, v: Variant)
    requires Printable(x)
    requires var t := "!" + (")" + rest); ParsePrimary(Print(x) + t, v) == Ok((x, t))
    ensures ParsePrimary(Print(Unary(Factorial, x)) + rest, v) == Ok((Unary(Factorial, x), rest))
  {
    PrintStart(x, "!" + (")" + rest));
    FactorialCase(Print(x), x, rest, v);
  }

  /** Round trip of an operator application, given those of its operands. */
  lemma BinaryArm(l: Token, op: BinaryOperator, r: Token, rest: string, v: Variant)
    requires Printable(l) && Printable(r) && ReadsOnce(op, v)
    requires var t := OperatorText(op) + (Print(r) + (")" + rest)); ParsePrimary(Print(l) + t, v) == Ok((l, t))
    requires ParseExpression(Print(r) + (")" + rest), OperatorPrecedence(op), v) == Ok((r, ")" + rest))
    ensures ParsePrimary(Print(Binary(l, op, r)) + rest, v) == Ok((Binary(l, op, r), rest))
  {
    PrintStart(l, OperatorText(op) + (Print(r) + (")" + rest)));
    BinaryCase(Print(l), l, op, Print(r), r, rest, v);
  }

  /** Round trip at the level of `parse_primary`. */
  lemma {:induction false} PrimaryRoundTrip(e: Token, rest: string, v: Variant)
    requires Printable(e) && (v == Corrected || LogFree(e))
    requires |rest| == 0 || !IsNumeralChar(rest[0])
    ensures ParsePrimary(Print(e) + rest, v) == Ok((e, rest))
    decreases e, 0
  {
    match e
    case Value(x) =>
      NumberPrimary(x.Floor, rest, v);
    case Unary(f, x) =>
      if f == Factorial {
        assert ("!" + (")" + rest))[0] == '!';
        PrimaryRoundTrip(x, "!" + (")" + rest), v);
        FactorialArm(x, rest, v);
      } else {
        PrimaryRoundTrip(x, rest, v);
        FunctionArm(f, x, rest, v);
      }
    case Binary(l, op, r) =>
      var t := OperatorText(op) + (Print(r) + (")" + rest));
      OperatorHead(op, Print(r) + (")" + rest));
      PrimaryRoundTrip(l, t, v);
      CloseStops(rest, OperatorPrecedence(op));
      ExpressionRoundTrip(r, ")" + rest, OperatorPrecedence(op), v);
      BinaryArm(l, op, r, rest, v);
  }

  /** Round trip at the level of `parse_expression`, for any strength the
      input after the tree stops. */
  lemma {:induction false} ExpressionRoundTrip(e: Token, rest: string, p: Precedence, v: Variant)
    requires Printable(e) && (v == Corrected || LogFree(e))
    requires Stops(rest, p) && (|rest| == 0 || !IsNumeralChar(rest[0]))
    ensures ParseExpression(Print(e) + rest, p, v) == Ok((e, rest))
    decreases e, 1
  {
    PrimaryRoundTrip(e, rest, v);
    PrintStart(e, rest);
    InfixStop(e, rest, p, v);
    FactorialStop(e, rest);
    ExpressionSteps(Print(e) + rest, p, v, e, rest, e, rest);
  }

  /** A printed tree as the first operand of a line: read back as a
      primary, and not mistaken for an operator. */
  lemma Operand(e: Token, rest: string, v: Variant)
    requires Printable(e) && (v == Corrected || LogFree(e))
    requires |rest| == 0 || !IsNumeralChar(rest[0])
    ensures var s := Print(e) + rest;
      && |s| > 0 && !IsWhitespace(s[0]) && !IsBinaryOperator(s)
      && ParsePrimary(s, v) == Ok((e, rest))
  {
    PrimaryRoundTrip(e, rest, v);
    PrintStart(e, rest);
  }

  /** A printed tree with nothing after it, read at any strength. */
  lemma Whole(e: Token, p: Precedence, v: Variant)
    requires Printable(e) && (v == Corrected || LogFree(e))
    ensures ParseExpression(Print(e), p, v) == Ok((e, ""))
  {
    ExpressionRoundTrip(e, "", p, v);
    AppendEmpty(Print(e));
  }

  /** The parser inverts the printer. As written, this holds only for trees
      without `log`; see `AsWrittenRoundTripFails`. */
  lemma RoundTrip(e: Token, v: Variant)
    requires Printable(e) && (v == Corrected || LogFree(e))
    ensures ParseWith(Print(e), v) == Ok(e)
  {
    ExpressionRoundTrip(e, "", Lowest, v);
    AppendEmpty(Print(e));
  }
}
