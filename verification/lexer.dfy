/** The token scanner of `src/calc/lexer.rs`: one left-to-right pass that turns
    an input line into tokens, or stops at the first character it cannot use. */
module Lexer {
  import opened Results
  import opened Chars
  import opened Numerals

  datatype FunctionType = Sqrt | Sin | Cos | Tan | Ln | Floor | Ceil | Abs | Round | Log

  datatype ConstantType = Pi | E

  datatype Token =
    | Number(value: real)
    | Plus
    | Minus
    | Multiply
    | Divide
    | Power
    | Modulo
    | Factorial
    | LParen
    | RParen
    | Function(kind: FunctionType)
    | Constant(constant: ConstantType)

  /** The three ways a scan can fail; each carries the offending text. */
  datatype LexError =
    | UnexpectedCharacter(ch: char)
    | InvalidNumber(text: string)
    | UnknownIdentifier(name: string)

  /** The fixed token of a one-character operator or parenthesis. */
  function OperatorToken(c: char): Option<Token> {
    match c
    case '+' => Some(Plus)
    case '-' => Some(Minus)
    case '*' => Some(Multiply)
    case '/' => Some(Divide)
    case '^' => Some(Power)
    case '%' => Some(Modulo)
    case '!' => Some(Factorial)
    case '(' => Some(LParen)
    case ')' => Some(RParen)
    case _ => None
  }

  /** The token a complete identifier stands for, if it is one of the twelve
      keywords. */
  function KeywordToken(word: string): Option<Token> {
    if word == "sqrt" then Some(Function(Sqrt))
    else if word == "sin" then Some(Function(Sin))
    else if word == "cos" then Some(Function(Cos))
    else if word == "tan" then Some(Function(Tan))
    else if word == "ln" then Some(Function(Ln))
    else if word == "floor" then Some(Function(Floor))
    else if word == "ceil" then Some(Function(Ceil))
    else if word == "abs" then Some(Function(Abs))
    else if word == "round" then Some(Function(Round))
    else if word == "log" then Some(Function(Log))
    else if word == "pi" then Some(Constant(Pi))
    else if word == "e" then Some(Constant(E))
    else None
  }

  /** Characters some token (or the skipped space) can be made of. */
  predicate InAlphabet(c: char) {
    c == ' ' || OperatorToken(c).Some? || IsNumeralChar(c) || IsAlphanumeric(c)
  }

  /** Reads the number literal `s` starts with: the longest run of digits
      and dots, which must parse as a number. */
  function ScanNumber(s: string): (r: Result<(Token, string), LexError>)
    requires |s| > 0 && IsNumeralChar(s[0])
    ensures r.Ok? ==> r.value.0.Number? && |r.value.1| < |s| && r.value.1 == s[|s| - |r.value.1|..]
    ensures r.Ok? ==> forall i :: 0 <= i < |s| - |r.value.1| ==> IsNumeralChar(s[i])
  {
    var n := Span(s, IsNumeralChar);
    var text := s[..n];
    match ParseNumeral(text)
    case None => Err(InvalidNumber(text))
    case Some(v) => Ok((Number(v), s[n..]))
  }

  /** Reads the identifier `s` starts with: a letter and the longest run of
      letters and digits after it, which must be a keyword. */
  function ScanIdentifier(s: string): (r: Result<(Token, string), LexError>)
    requires |s| > 0 && IsLetter(s[0])
    ensures r.Ok? ==> (r.value.0.Function? || r.value.0.Constant?)
    ensures r.Ok? ==> |r.value.1| < |s| && r.value.1 == s[|s| - |r.value.1|..]
    ensures r.Ok? ==> forall i :: 0 <= i < |s| - |r.value.1| ==> IsAlphanumeric(s[i])
  {
    var n := 1 + Span(s[1..], IsAlphanumeric);
    Classify(s[..n], s[n..])
  }

  /** The twelve words an identifier may be: ten functions and two
      constants. */
  const Keywords: set<string> :=
    {"sqrt", "sin", "cos", "tan", "ln", "floor", "ceil", "abs", "round", "log", "pi", "e"}

  /** The keyword token of a complete identifier, paired with the input after
      it, or the unknown-identifier error. */
  function Classify(word: string, rest: string): (r: Result<(Token, string), LexError>)
    ensures r.Ok? <==> word in Keywords
    ensures r.Ok? ==> r.value.1 == rest && (r.value.0.Function? || r.value.0.Constant?)
    ensures r.Ok? ==> (r.value.0.Constant? <==> word == "pi" || word == "e")
    ensures r.Ok? <==> KeywordToken(word).Some?
    ensures r.Ok? ==> r.value == (KeywordToken(word).value, rest)
    ensures r.Err? ==> r.error == UnknownIdentifier(word)
  {
    match KeywordToken(word)
    case None => Err(UnknownIdentifier(word))
    case Some(tok) => Ok((tok, rest))
  }

  /** Reads the token starting at the first character of `s`, which is not a
      space. */
  function ScanToken(s: string): (r: Result<(Token, string), LexError>)
    requires |s| > 0
    ensures r.Ok? ==>
      var rest := r.value.1;
      && |rest| < |s|
      && rest == s[|s| - |rest|..]
      && forall i :: 0 <= i < |s| - |rest| ==> InAlphabet(s[i])
  {
    var ch := s[0];
    if OperatorToken(ch).Some? then Ok((OperatorToken(ch).value, s[1..]))
    else if IsNumeralChar(ch) then ScanNumber(s)
    else if IsLetter(ch) then ScanIdentifier(s)
    else Err(UnexpectedCharacter(ch))
  }

  /** One call of `next_token`: skip spaces, then read one token and return it
      with the input after it; `None` once the input is used up. */
  function NextToken(s: string): (r: Result<Option<(Token, string)>, LexError>)
    ensures r.Ok? && r.value.Some? ==>
      var rest := r.value.value.1;
      && |rest| < |s|
      && rest == s[|s| - |rest|..]
      && forall i :: 0 <= i < |s| - |rest| ==> InAlphabet(s[i])
    ensures r.Ok? && r.value.None? <==> forall i :: 0 <= i < |s| ==> s[i] == ' '
    decreases |s|
  {
    if |s| == 0 then Ok(None)
    else if s[0] == ' ' then NextToken(s[1..])
    else
      var p :- ScanToken(s);
      Ok(Some(p))
  }

  /** `tokenize`: repeat `NextToken` until the input is used up; the first
      error ends the scan and no tokens are returned with it. */
  function Tokenize(s: string): (r: Result<seq<Token>, LexError>)
    ensures r.Ok? ==> |r.value| <= |s|
    ensures r == Ok([]) <==> forall i :: 0 <= i < |s| ==> s[i] == ' '
    ensures (exists i :: 0 <= i < |s| && !InAlphabet(s[i])) ==> r.Err?
    decreases |s|
  {
    var next :- NextToken(s);
    match next
    case None => Ok([])
    case Some((tok, rest)) =>
      var tail :- Tokenize(rest);
      Ok([tok] + tail)
  }
}
