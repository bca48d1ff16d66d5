/** The character-level precedence-climbing parser of `src/calc/parser.rs`.
    Every parsing function takes the input that is still unread and returns
    the syntax tree it built together with the input after it, so the
    `Peekable<Chars>` cursor of the source becomes the suffix that is left. */
module Parser {
  import opened Results
  import opened Chars
  import opened Numerals

  datatype UnaryOperator = Factorial | SquareRoot | Sin | Cos | Tan | Ln

  datatype BinaryOperator = Add | Subtract | Multiply | Divide | Power | Modulo | Log

  /** The syntax tree; `LastResult` stands for the value of the previous line. */
  datatype Token =
    | Unary(operator: UnaryOperator, operand: Token)
    | Binary(left: Token, operation: BinaryOperator, right: Token)
    | Value(value: real)
    | LastResult

  /** Binding strength, weakest first. `Prefix` is the source's `Unary` level. */
  datatype Precedence = Lowest | Addition | Multiplication | Exponentiation | Prefix

  /** The five strengths, weakest first, in the order the source declares
      them. */
  const Ladder: seq<Precedence> := [Lowest, Addition, Multiplication, Exponentiation, Prefix]

  /** Position in declaration order, which is what the derived `PartialOrd`
      compares. */
  function Rank(p: Precedence): (r: nat)
    ensures r < |Ladder| && Ladder[r] == p
    ensures r == 0 <==> p == Lowest
  {
    match p
    case Lowest => 0
    case Addition => 1
    case Multiplication => 2
    case Exponentiation => 3
    case Prefix => 4
  }

  /** `a <= b` on precedences. */
  predicate AtMost(a: Precedence, b: Precedence) {
    Rank(a) <= Rank(b)
  }

  /** The strengths are strictly ordered along the ladder: one is at most
      another exactly when it comes no later. */
  lemma StrengthOrder(i: nat, j: nat)
    requires i < |Ladder| && j < |Ladder|
    ensures AtMost(Ladder[i], Ladder[j]) <==> i <= j
  {
    assert Rank(Ladder[i]) == i && Rank(Ladder[j]) == j;
  }

  datatype ParseError =
    | TrailingCharacters
    | ExpectedCloseParen
    | ExpectedPrimary
    | InvalidNumber(text: string)
    | UnknownUnaryOperator(name: string)

  /** Which reading of an infix `log` to follow: the source's, which skips one
      more character after the three letters of `log`, or the evidently
      intended one, which consumes the operator exactly once. */
  datatype Variant = AsWritten | Corrected

  /** The input begins with the three letters `log`. */
  predicate StartsWithLog(s: string) {
    |s| >= 3 && s[0] == 'l' && s[1] == 'o' && s[2] == 'g'
  }

  /** The six one-character operators. */
  predicate IsOperatorSymbol(c: char) {
    c == '+' || c == '-' || c == '*' || c == '/' || c == '^' || c == '%'
  }

  /** `is_binary_operator`, applied to the unread input. */
  predicate IsBinaryOperator(s: string)
    requires |s| > 0
  {
    IsOperatorSymbol(s[0]) || (s[0] == 'l' && StartsWithLog(s))
  }

  /** `get_precedence`: a one-character look-ahead, so every `l` (of `log`, of
      `ln`, or of anything else) ranks as exponentiation. */
  function GetPrecedence(c: char): Precedence {
    match c
    case '+' => Addition
    case '-' => Addition
    case '*' => Multiplication
    case '/' => Multiplication
    case '%' => Multiplication
    case '^' => Exponentiation
    case 'l' => Exponentiation
    case _ => Lowest
  }

  /** `parse_binary_operator`: a symbol is recognised without being consumed;
      `log` is recognised and its three letters consumed. */
  function ParseBinaryOperator(s: string): (r: Option<(BinaryOperator, string)>)
    requires |s| > 0
    ensures r.Some? <==> IsBinaryOperator(s)
    ensures r.Some? && r.value.0 != Log ==> r.value.1 == s
    ensures r.Some? && r.value.0 == Log ==> StartsWithLog(s) && r.value.1 == s[3..]
  {
    match s[0]
    case '+' => Some((Add, s))
    case '-' => Some((Subtract, s))
    case '*' => Some((Multiply, s))
    case '/' => Some((Divide, s))
    case '^' => Some((Power, s))
    case '%' => Some((Modulo, s))
    case _ => if s[0] == 'l' && StartsWithLog(s) then Some((Log, s[3..])) else None
  }

  /** `chars.next()` for its effect: drop one character if there is one. */
  function Advance(s: string): string {
    if |s| == 0 then s else s[1..]
  }

  /** A call of `parse_binary_operator` followed by the caller's own
      `chars.next()`. As written, a `log` operator loses the character after
      it; corrected, exactly the operator is consumed. */
  function TakeOperator(s: string, v: Variant): (r: Option<(BinaryOperator, string)>)
    requires |s| > 0
    ensures r.Some? <==> IsBinaryOperator(s)
    ensures r.Some? ==> |r.value.1| < |s| && IsSuffix(r.value.1, s)
    ensures r.Some? && r.value.0 != Log ==> r.value.1 == s[1..]
    ensures r.Some? && r.value.0 == Log ==> StartsWithLog(s)
    ensures r.Some? && r.value.0 == Log && v == Corrected ==> r.value.1 == s[3..]
    ensures r.Some? && r.value.0 == Log && v == AsWritten ==> r.value.1 == Advance(s[3..])
  {
    match ParseBinaryOperator(s)
    case None => None
    case Some((op, rest)) =>
      DropSuffix(s, 1);
      if op != Log then Some((op, Advance(rest)))
      else
        DropSuffix(s, 3);
        if v == Corrected then Some((op, rest))
        else if |s| > 3 then
          DropSuffix(s[3..], 1);
          SuffixOfSuffix(s, s[3..], s[3..][1..]);
          Some((op, Advance(rest)))
        else Some((op, Advance(rest)))
  }

  /** The letters-only words `parse_unary_operator` accepts. */
  function UnaryKeyword(word: string): Option<UnaryOperator> {
    if word == "sqrt" then Some(SquareRoot)
    else if word == "sin" then Some(Sin)
    else if word == "cos" then Some(Cos)
    else if word == "tan" then Some(Tan)
    else if word == "ln" then Some(Ln)
    else None
  }

  /** `parse_number`: the longest run of digits and dots, read as a number. */
  function ParseNumber(s: string): (r: Result<(Token, string), ParseError>)
    requires |s| > 0 && IsNumeralChar(s[0])
    ensures r.Ok? ==> r.value.0.Value? && r.value.0.value >= 0.0
    ensures r.Ok? ==> |r.value.1| < |s|
    ensures r.Ok? ==> |r.value.1| == 0 || !IsNumeralChar(r.value.1[0])
    ensures r.Err? ==> r.error.InvalidNumber?
    ensures var n := Span(s, IsNumeralChar);
      && (r.Ok? <==> ParseNumeral(s[..n]).Some?)
      && (r.Ok? ==> r.value == (Value(ParseNumeral(s[..n]).value), s[n..]))
      && (r.Err? ==> r.error == InvalidNumber(s[..n]))
  {
    var n := Span(s, IsNumeralChar);
    match ParseNumeral(s[..n])
    case None => Err(InvalidNumber(s[..n]))
    case Some(x) => Ok((Value(x), s[n..]))
  }

  /** `parse_expression` at the given binding strength. An expression that
      starts with a binary operator takes the previous result as its left
      operand and one prefix-strength operand on its right, and ends there. */
  function ParseExpression(s: string, precedence: Precedence, v: Variant): (r: Result<(Token, string), ParseError>)
    ensures r.Ok? ==> |r.value.1| < |s| && IsSuffix(r.value.1, s)
    ensures r.Ok? ==> |r.value.1| == 0 || (!IsWhitespace(r.value.1[0]) && r.value.1[0] != '!')
    decreases |s|, 2
  {
    var s1 := SkipWhitespace(s);
    if |s1| > 0 && IsBinaryOperator(s1) then
      var (op, s2) := TakeOperator(s1, v).value;
      var (right, s3) :- ParseExpression(s2, Prefix, v);
      SuffixOfSuffix(s, s1, s2);
      SuffixOfSuffix(s, s2, s3);
      Ok((Binary(LastResult, op, right), s3))
    else
      var (left, s2) :- ParsePrimary(s1, v);
      var (left', s3) :- InfixLoop(left, s2, precedence, v);
      SuffixOfSuffix(s, s1, s2);
      SuffixOfSuffix(s, s2, s3);
      SuffixOfSuffix(s, s3, FactorialLoop(left', s3).1);
      Ok(FactorialLoop(left', s3))
  }

  /** The infix loop of `parse_expression`: keep taking operators that bind
      more tightly than `precedence`, each with its right operand parsed at
      the operator's own strength, so equal strengths group to the left. */
  function InfixLoop(left: Token, s: string, precedence: Precedence, v: Variant): (r: Result<(Token, string), ParseError>)
    ensures r.Ok? ==> |r.value.1| <= |s| && IsSuffix(r.value.1, s)
    ensures r.Ok? ==> |r.value.1| == 0 || !IsWhitespace(r.value.1[0])
    ensures r.Ok? && |r.value.1| > 0 ==>
      AtMost(GetPrecedence(r.value.1[0]), precedence) || !IsBinaryOperator(r.value.1)
    decreases |s|, 3
  {
    var s1 := SkipWhitespace(s);
    if |s1| == 0 then Ok((left, s1))
    else
      var p := GetPrecedence(s1[0]);
      if AtMost(p, precedence) then Ok((left, s1))
      else match TakeOperator(s1, v)
        case None => Ok((left, s1))
        case Some((op, s2)) =>
          var (right, s3) :- ParseExpression(s2, p, v);
          var r' := InfixLoop(Binary(left, op, right), s3, precedence, v);
          SuffixOfSuffix(s, s1, s2);
          SuffixOfSuffix(s, s2, s3);
          if r'.Ok? then SuffixOfSuffix(s, s3, r'.value.1); r' else r'
  }

  /** The postfix loop of `parse_expression`: every `!` wraps what was
      parsed so far. */
  function FactorialLoop(left: Token, s: string): (r: (Token, string))
    ensures |r.1| <= |s| && IsSuffix(r.1, s)
    ensures |r.1| == 0 || (!IsWhitespace(r.1[0]) && r.1[0] != '!')
    decreases |s|
  {
    var s1 := SkipWhitespace(s);
    if |s1| > 0 && s1[0] == '!' then
      var r' := FactorialLoop(Unary(Factorial, left), s1[1..]);
      DropSuffix(s1, 1);
      SuffixOfSuffix(s, s1, s1[1..]);
      SuffixOfSuffix(s, s1[1..], r'.1);
      r'
    else (left, s1)
  }

  /** `parse_primary`: a number, a prefix function, or a parenthesised
      expression. */
  function ParsePrimary(s: string, v: Variant): (r: Result<(Token, string), ParseError>)
    ensures r.Ok? ==> |r.value.1| < |s| && IsSuffix(r.value.1, s)
    decreases |s|, 1
  {
    var s1 := SkipWhitespace(s);
    if |s1| == 0 then Err(ExpectedPrimary)
    else if IsNumeralChar(s1[0]) then
      var r' := ParseNumber(s1);
      if r'.Ok? then
        DropSuffix(s1, Span(s1, IsNumeralChar));
        SuffixOfSuffix(s, s1, r'.value.1);
        r'
      else r'
    else if IsLetter(s1[0]) then
      var r' := ParseUnaryOperator(s1, v);
      if r'.Ok? then SuffixOfSuffix(s, s1, r'.value.1); r' else r'
    else if s1[0] == '(' then
      var (inner, s2) :- ParseExpression(s1[1..], Lowest, v);
      var s3 := SkipWhitespace(s2);
      if |s3| > 0 && s3[0] == ')' then
        DropSuffix(s1, 1);
        DropSuffix(s3, 1);
        SuffixOfSuffix(s, s1, s1[1..]);
        SuffixOfSuffix(s, s1[1..], s2);
        SuffixOfSuffix(s, s2, s3);
        SuffixOfSuffix(s, s3, s3[1..]);
        Ok((inner, s3[1..]))
      else Err(ExpectedCloseParen)
    else Err(ExpectedPrimary)
  }

  /** `parse_unary_operator`: a word of letters naming a prefix function,
      applied to the primary after it, or to the previous result when
      nothing but whitespace follows. */
  function ParseUnaryOperator(s: string, v: Variant): (r: Result<(Token, string), ParseError>)
    requires |s| > 0 && IsLetter(s[0])
    ensures r.Ok? ==> r.value.0.Unary? && r.value.0.operator != Factorial
    ensures r.Ok? ==> |r.value.1| < |s| && IsSuffix(r.value.1, s)
    decreases |s|, 0
  {
    var n := Span(s, IsLetter);
    match UnaryKeyword(s[..n])
    case None => Err(UnknownUnaryOperator(s[..n]))
    case Some(op) =>
      var s2 := SkipWhitespace(s[n..]);
      DropSuffix(s, n);
      SuffixOfSuffix(s, s[n..], s2);
      if |s2| == 0 then Ok((Unary(op, LastResult), s2))
      else
        var (operand, s3) :- ParsePrimary(s2, v);
        SuffixOfSuffix(s, s2, s3);
        Ok((Unary(op, operand), s3))
  }

  /** `parse`: one expression at the weakest strength, then nothing but
      whitespace. Since the expression already stops only before input that
      is not whitespace, the line is accepted exactly when the expression
      reaches its end. */
  function ParseWith(s: string, v: Variant): (r: Result<Token, ParseError>)
    ensures var x := ParseExpression(s, Lowest, v);
      && (x.Err? ==> r == Err(x.error))
      && (x.Ok? && |x.value.1| == 0 ==> r == Ok(x.value.0))
      && (x.Ok? && |x.value.1| > 0 ==> r == Err(TrailingCharacters))
  {
    var (e, rest) :- ParseExpression(s, Lowest, v);
    SkipNoWhitespace(rest);
    if |SkipWhitespace(rest)| > 0 then Err(TrailingCharacters) else Ok(e)
  }

  /** The parser with `log` consumed once, which the rest of the model uses. */
  function Parse(s: string): Result<Token, ParseError> {
    ParseWith(s, Corrected)
  }

  /** The parser exactly as the source reads an infix `log`. */
  function ParseAsWritten(s: string): Result<Token, ParseError> {
    ParseWith(s, AsWritten)
  }
}
