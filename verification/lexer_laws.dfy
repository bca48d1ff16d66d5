/** Properties of the scanner in `src/calc/lexer.rs`, stated over `Lexer.Tokenize`. */
module LexerLaws {
  import opened Results
  import opened Chars
  import opened Numerals
  import opened Lexer

  /** Each operator or parenthesis character is one token on its own. */
  lemma OperatorCharacter(c: char, rest: string)
    requires c in "+-*/^%!()"
    ensures OperatorToken(c).Some?
    ensures NextToken([c] + rest) == Ok(Some((OperatorToken(c).value, rest)))
  {
    assert ([c] + rest)[1..] == rest;
  }

  /** A space yields no token. */
  lemma SpaceSkipped(rest: string)
    ensures Tokenize([' '] + rest) == Tokenize(rest)
  {
    assert ([' '] + rest)[1..] == rest;
  }

  /** Whitespace other than a space is not skipped: it stops the scan. */
  lemma OtherWhitespaceRejected(c: char, rest: string)
    requires IsWhitespace(c) && c != ' '
    ensures Tokenize([c] + rest) == Err(UnexpectedCharacter(c))
  {
    var s := [c] + rest;
    assert s[0] == c;
    assert OperatorToken(c).None?;
    assert ScanToken(s) == Err(UnexpectedCharacter(c));
    assert NextToken(s) == Err(UnexpectedCharacter(c));
  }

  /** A maximal run of digits and dots is read as a single number token, or
      fails as an invalid number when it does not parse. */
  lemma NumberToken(d: string, rest: string)
    requires |d| > 0 && AllNumeralChars(d)
    requires |rest| == 0 || !IsNumeralChar(rest[0])
    ensures ScanToken(d + rest) ==
      match ParseNumeral(d)
      case None => Err(InvalidNumber(d))
      case Some(v) => Ok((Number(v), rest))
  {
    SpanOfConcat(d, rest, IsNumeralChar);
    assert (d + rest)[..|d|] == d && (d + rest)[|d|..] == rest;
  }

  /** The character after a number token is never a digit or a dot. */
  lemma NumberIsMaximal(s: string, v: real, rest: string)
    requires |s| > 0 && IsNumeralChar(s[0])
    requires ScanNumber(s) == Ok((Number(v), rest))
    ensures |rest| == 0 || !IsNumeralChar(rest[0])
  {
  }

  /** A letter is neither an operator nor part of a number, so it starts an
      identifier. */
  lemma LetterStartsIdentifier(s: string)
    requires |s| > 0 && IsLetter(s[0])
    ensures ScanToken(s) == ScanIdentifier(s)
  {
    assert OperatorToken(s[0]).None? && !IsNumeralChar(s[0]);
  }

  /** The identifier read from `w + rest` is all of `w` when `w` is letters and
      digits and `rest` does not continue it. */
  lemma IdentifierExtent(w: string, rest: string)
    requires |w| > 0 && IsLetter(w[0])
    requires forall i :: 0 <= i < |w| ==> IsAlphanumeric(w[i])
    requires |rest| == 0 || !IsAlphanumeric(rest[0])
    ensures ScanIdentifier(w + rest) == Classify(w, rest)
  {
    assert (w + rest)[1..] == w[1..] + rest;
    SpanOfConcat(w[1..], rest, IsAlphanumeric);
    assert (w + rest)[..|w|] == w && (w + rest)[|w|..] == rest;
  }

  /** An identifier is a letter followed by the longest run of letters and
      digits; it is a token exactly when it is one of the twelve keywords. */
  lemma IdentifierToken(w: string, rest: string)
    requires |w| > 0 && IsLetter(w[0])
    requires forall i :: 0 <= i < |w| ==> IsAlphanumeric(w[i])
    requires |rest| == 0 || !IsAlphanumeric(rest[0])
    ensures ScanToken(w + rest) == Classify(w, rest)
  {
    LetterStartsIdentifier(w + rest);
    IdentifierExtent(w, rest);
  }

  /** A keyword followed by a digit is a longer, unknown identifier. */
  lemma KeywordWithDigitRejected()
    ensures Tokenize("pi2") == Err(UnknownIdentifier("pi2"))
  {
    IdentifierToken("pi2", "");
    assert "pi2" + "" == "pi2";
    assert NextToken("pi2") == Err(UnknownIdentifier("pi2"));
  }

  lemma MalformedNumberRejected()
    ensures Tokenize("1.2.3") == Err(InvalidNumber("1.2.3"))
  {
    var s := "1.2.3";
    assert Span(s, IsDigit) == 1;
    assert s[2..][1] == '.';
    NumberToken(s, "");
    assert s + "" == s;
    assert NextToken(s) == Err(InvalidNumber(s));
  }

  // ---------------------------------------------------------------------------
  // Splitting the input at a space

  /** Appending to `p` does not change a run that already stops inside `p`,
      or that reaches the end of `p` and finds a non-qualifying character. */
  lemma SpanExtend(p: string, t: string, q: char -> bool)
    requires Span(p, q) < |p| || |t| == 0 || !q(t[0])
    ensures Span(p + t, q) == Span(p, q)
  {
    assert forall i :: 0 <= i < |p| ==> (p + t)[i] == p[i];
    assert |t| > 0 ==> (p + t)[|p|] == t[0];
  }

  lemma ScanNumberSplit(p: string, q: string)
    requires |p| > 0 && IsNumeralChar(p[0])
    ensures ScanNumber(p + [' '] + q) ==
      match ScanNumber(p)
      case Err(e) => Err(e)
      case Ok((t, r)) => Ok((t, r + [' '] + q))
  {
    var s := p + [' '] + q;
    assert s == p + ([' '] + q);
    SpanExtend(p, [' '] + q, IsNumeralChar);
    var n := Span(p, IsNumeralChar);
    assert s[..n] == p[..n];
    assert s[n..] == p[n..] + [' '] + q;
  }

  lemma ScanIdentifierSplit(p: string, q: string)
    requires |p| > 0 && IsLetter(p[0])
    ensures ScanIdentifier(p + [' '] + q) ==
      match ScanIdentifier(p)
      case Err(e) => Err(e)
      case Ok((t, r)) => Ok((t, r + [' '] + q))
  {
    var s := p + [' '] + q;
    assert s[1..] == p[1..] + ([' '] + q);
    SpanExtend(p[1..], [' '] + q, IsAlphanumeric);
    var n := 1 + Span(p[1..], IsAlphanumeric);
    assert s[..n] == p[..n];
    assert s[n..] == p[n..] + [' '] + q;
    ClassifyRest(p[..n], p[n..], s[n..]);
  }

  /** What `Classify` decides depends on the word alone. */
  lemma ClassifyRest(word: string, rest: string, rest': string)
    ensures Classify(word, rest') ==
      match Classify(word, rest)
      case Err(e) => Err(e)
      case Ok((t, _)) => Ok((t, rest'))
  {
  }

  /** A token that starts `p` is read the same way from `p + " " + q`: its
      run ends at the space at the latest. */
  lemma ScanTokenSplit(p: string, q: string)
    requires |p| > 0 && p[0] != ' '
    ensures ScanToken(p + [' '] + q) ==
      match ScanToken(p)
      case Err(e) => Err(e)
      case Ok((t, r)) => Ok((t, r + [' '] + q))
  {
    var s := p + [' '] + q;
    assert s[0] == p[0];
    var ch := p[0];
    if OperatorToken(ch).Some? {
      assert s[1..] == p[1..] + [' '] + q;
    } else if IsNumeralChar(ch) {
      assert ScanToken(s) == ScanNumber(s);
      assert ScanToken(p) == ScanNumber(p);
      ScanNumberSplit(p, q);
    } else if IsLetter(ch) {
      assert ScanToken(s) == ScanIdentifier(s);
      assert ScanToken(p) == ScanIdentifier(p);
      ScanIdentifierSplit(p, q);
    }
  }

  /** One scanning step over `p + " " + q` is the step over `p` alone, except
      that a `p` holding only spaces hands over to `q`. */
  lemma {:induction false} NextTokenSplit(p: string, q: string)
    ensures NextToken(p + [' '] + q) ==
      match NextToken(p)
      case Err(e) => Err(e)
      case Ok(None) => NextToken(q)
      case Ok(Some((t, r))) => Ok(Some((t, r + [' '] + q)))
    decreases |p|
  {
    var s := p + [' '] + q;
    if |p| == 0 {
      assert s[1..] == q;
    } else if p[0] == ' ' {
      assert s[1..] == p[1..] + [' '] + q;
      NextTokenSplit(p[1..], q);
    } else {
      ScanTokenSplit(p, q);
    }
  }

  /** Combines the scans of two pieces: the first error wins. */
  function Then(a: Result<seq<Token>, LexError>, b: Result<seq<Token>, LexError>): Result<seq<Token>, LexError> {
    if a.Err? then a else if b.Err? then b else Ok(a.value + b.value)
  }

  /** `Tokenize` in terms of its first step. */
  lemma TokenizeStep(s: string)
    ensures Tokenize(s) ==
      match NextToken(s)
      case Err(e) => Err(e)
      case Ok(None) => Ok([])
      case Ok(Some((t, r))) => Then(Ok([t]), Tokenize(r))
  {
  }

  lemma ThenAssociative(a: seq<Token>, x: Result<seq<Token>, LexError>, y: Result<seq<Token>, LexError>)
    ensures Then(Ok(a), Then(x, y)) == Then(Then(Ok(a), x), y)
  {
    if x.Ok? && y.Ok? {
      assert a + (x.value + y.value) == (a + x.value) + y.value;
    }
  }

  /** The scan depends on the input only through its steps. */
  lemma SameFirstStep(s: string, s': string)
    requires NextToken(s) == NextToken(s')
    ensures Tokenize(s) == Tokenize(s')
  {
    TokenizeStep(s);
    TokenizeStep(s');
  }

  /** Scanning `p + " " + q` is scanning `p` and then `q`: no token spans
      the space, and an error in `p` is reported even when `q` has one too. */
  lemma {:induction false} TokenizeSplit(p: string, q: string)
    ensures Tokenize(p + [' '] + q) == Then(Tokenize(p), Tokenize(q))
    decreases |p|
  {
    var s := p + [' '] + q;
    NextTokenSplit(p, q);
    var step := NextToken(p);
    if step.Err? {
      assert NextToken(s) == step;
      TokenizeStep(s);
      TokenizeStep(p);
    } else if step.value.None? {
      assert NextToken(s) == NextToken(q);
      TokenizeStep(p);
      assert Tokenize(p) == Ok([]);
      SameFirstStep(s, q);
      if Tokenize(q).Ok? {
        assert [] + Tokenize(q).value == Tokenize(q).value;
      }
    } else {
      var t, r := step.value.value.0, step.value.value.1;
      assert NextToken(s) == Ok(Some((t, r + [' '] + q)));
      TokenizeStep(s);
      TokenizeStep(p);
      assert Tokenize(s) == Then(Ok([t]), Tokenize(r + [' '] + q));
      assert Tokenize(p) == Then(Ok([t]), Tokenize(r));
      TokenizeSplit(r, q);
      ThenAssociative([t], Tokenize(r), Tokenize(q));
    }
  }

  // ---------------------------------------------------------------------------
  // Writing tokens back as text

  /** Tokens that have a spelling: every number is a natural number. */
  predicate Spellable(t: Token) {
    t.Number? ==> t.value >= 0.0 && t.value == t.value.Floor as real
  }

  function KeywordText(t: Token): string
    requires t.Function? || t.Constant?
  {
    match t
    case Function(Sqrt) => "sqrt"
    case Function(Sin) => "sin"
    case Function(Cos) => "cos"
    case Function(Tan) => "tan"
    case Function(Ln) => "ln"
    case Function(Floor) => "floor"
    case Function(Ceil) => "ceil"
    case Function(Abs) => "abs"
    case Function(Round) => "round"
    case Function(Log) => "log"
    case Constant(Pi) => "pi"
    case Constant(E) => "e"
  }

  function OperatorText(t: Token): string
    requires !t.Number? && !t.Function? && !t.Constant?
  {
    match t
    case Plus => "+"
    case Minus => "-"
    case Multiply => "*"
    case Divide => "/"
    case Power => "^"
    case Modulo => "%"
    case Factorial => "!"
    case LParen => "("
    case RParen => ")"
  }

  function Spell(t: Token): string
    requires Spellable(t)
  {
    if t.Number? then Decimal(t.value.Floor)
    else if t.Function? || t.Constant? then KeywordText(t)
    else OperatorText(t)
  }

  /** The tokens' spellings separated by single spaces. */
  function Render(ts: seq<Token>): string
    requires forall i :: 0 <= i < |ts| ==> Spellable(ts[i])
  {
    if |ts| == 0 then ""
    else if |ts| == 1 then Spell(ts[0])
    else Spell(ts[0]) + [' '] + Render(ts[1..])
  }

  lemma KeywordSpelling(t: Token)
    requires t.Function? || t.Constant?
    ensures |KeywordText(t)| > 0
    ensures forall i :: 0 <= i < |KeywordText(t)| ==> IsLetter(KeywordText(t)[i])
    ensures KeywordToken(KeywordText(t)) == Some(t)
  {
  }

  /** An input that is exactly one token scans to that token alone. */
  lemma SingleToken(s: string, t: Token)
    requires |s| > 0 && s[0] != ' '
    requires ScanToken(s) == Ok((t, ""))
    ensures Tokenize(s) == Ok([t])
  {
    NextOfScan(s, t, "");
    TokenizeStep(s);
    assert Tokenize("") == Ok([]);
    assert [t] + [] == [t];
  }

  /** With no leading space, `NextToken` is one `ScanToken`. */
  lemma NextOfScan(s: string, t: Token, rest: string)
    requires |s| > 0 && s[0] != ' '
    requires ScanToken(s) == Ok((t, rest))
    ensures NextToken(s) == Ok(Some((t, rest)))
  {
  }

  lemma DecimalScans(n: nat)
    ensures ScanToken(Decimal(n)) == Ok((Number(n as real), ""))
  {
    var s := Decimal(n);
    assert s + "" == s;
    ReadDecimal(n);
    assert AllNumeralChars(s);
    NumberToken(s, "");
  }

  lemma SpellKeywordScans(t: Token)
    requires t.Function? || t.Constant?
    ensures |Spell(t)| > 0 && Spell(t)[0] != ' '
    ensures ScanToken(Spell(t)) == Ok((t, ""))
  {
    var s := Spell(t);
    assert s + "" == s;
    KeywordSpelling(t);
    IdentifierToken(s, "");
  }

  /** A single spelled token scans back to itself. */
  lemma SpellLexes(t: Token)
    requires Spellable(t)
    ensures Tokenize(Spell(t)) == Ok([t])
  {
    var s := Spell(t);
    if t.Number? {
      DecimalScans(t.value.Floor);
      assert t == Number(t.value.Floor as real);
    } else if t.Function? || t.Constant? {
      SpellKeywordScans(t);
    } else {
      assert |s| == 1 && OperatorToken(s[0]) == Some(t);
    }
    SingleToken(s, t);
  }

  /** Round trip: scanning the rendering of spellable tokens gives them back. */
  lemma {:induction false} RenderThenTokenize(ts: seq<Token>)
    requires forall i :: 0 <= i < |ts| ==> Spellable(ts[i])
    ensures Tokenize(Render(ts)) == Ok(ts)
  {
    if |ts| == 1 {
      SpellLexes(ts[0]);
      assert ts == [ts[0]];
    } else if |ts| > 1 {
      var head, tail := Spell(ts[0]), Render(ts[1..]);
      assert Render(ts) == head + [' '] + tail;
      SpellLexes(ts[0]);
      RenderThenTokenize(ts[1..]);
      TokenizeSplit(head, tail);
      assert Then(Ok([ts[0]]), Ok(ts[1..])) == Ok([ts[0]] + ts[1..]);
      assert [ts[0]] + ts[1..] == ts;
    }
  }

  /** The constant line of the scanner's own tests. */
  lemma ConstantLine(s: string)
    requires s == "pi e"
    ensures Tokenize(s) == Ok([Constant(Pi), Constant(E)])
  {
    var ts := [Constant(Pi), Constant(E)];
    ConstantLineText();
    RenderThenTokenize(ts);
  }

  lemma ConstantLineText()
    ensures Render([Constant(Pi), Constant(E)]) == "pi e"
  {
  }
}
