# calc in Dafny

A model of the core of `calc`, a command-line calculator written in Rust.
The calculator reads one line at a time, evaluates it, and remembers the last
value so that the next line can use it. Two evaluators exist side by side,
and both are modelled:

- `src/calc/calculator.rs` with `src/calc/parser.rs` works on characters.
  Its `Parser` reads the line straight into a tree. Precedence climbing
  handles `+ - * / % ^` and the infix `log`; `!` is a postfix; `sqrt`,
  `sin`, `cos`, `tan` and `ln` are prefix words. A line that starts with an
  operator takes the previous result as its left operand, and a function
  word at the end of the line applies to the previous result.
  `solve` evaluates the tree and `evaluate` stores the value.
- `src/calc.rs` with `src/calc/lexer.rs` lexes a line into tokens, hands
  them to a token parser, and solves a richer tree. That tree adds `floor`,
  `ceil`, `abs`, `round`, negation and the constants `pi` and `e`, and this
  evaluator rejects a remainder by zero. `evaluate_with_debug` also prints
  the tree.

Modules, one per concern:

| file | module | contents |
|---|---|---|
| results.dfy | Results | `Result`/`Option` with `:-` propagation |
| chars.dfy | Chars | character classes, `Span`, whitespace skipping |
| numerals.dfy | Numerals | decimal literals as `str::parse::<f64>` reads them (exactly) |
| lexer.dfy | Lexer | `next_token`/`tokenize` on the remaining input |
| lexer_laws.dfy | LexerLaws | token rules, splitting at a space, render-then-lex round trip |
| maths.dfy | Maths | the uninterpreted floating-point library, factorial, rounding |
| parser.dfy | Parser | `parse`, `parse_expression`, `parse_primary` and the rest, on the remaining input |
| parser_laws.dfy | ParserLaws | one step of each loop; print-then-parse round trip |
| parser_grammar.dfy | ParserGrammar | precedence, leading operators, `!` chains, error lines |
| infix_log.dfy | InfixLog | the doubly consumed infix `log` |
| calculator.dfy | Calculator | `solve` and `evaluate` of `src/calc/calculator.rs` |
| calculator_laws.dfy | CalculatorLaws | per-operator rules of that `solve` |
| calculator_lines.dfy | CalculatorLines | whole lines and sessions of that `evaluate` |
| calc.dfy | Calc | `solve`, `evaluate`, `evaluate_with_debug`, `print_ast` of `src/calc.rs` |
| calc_laws.dfy | CalcLaws | per-operator rules, debug agreement, tree listing round trip |
| versions.dfy | Versions | the two `solve`s agree except on a remainder by zero |

State is passed explicitly. The `LAST_RESULT` slot is an `Option<real>`
argument, and each `Evaluate` returns the new slot next to the result.
Floating-point functions and constants come from a `MathLib` record of
functions. Parsing functions take the remaining input and return what they
leave unread; that is the iterator of the source.

## Model

| member | source | states |
|---|---|---|
| Chars.SkipWhitespace | src/calc/parser.rs:265-273 | drops exactly a whitespace prefix: what is left is a suffix of the input (`IsSuffix`), no longer than it, and is empty or starts with a non-whitespace character |
| Chars.SuffixSlice | src/calc/parser.rs:265-273 | `IsSuffix(t, s)` holds exactly when `t` is no longer than `s` and equals the end of `s` of its own length |
| Chars.SuffixOfSuffix | src/calc/parser.rs:265-273 | a suffix of a suffix of `s` is a suffix of `s`, so skipped and consumed input is never given back |
| Chars.SkipNoWhitespace | src/calc/parser.rs:265-273 | input that does not start with whitespace is left as it is |
| Chars.SkipAllWhitespace | src/calc/parser.rs:265-273 | all-whitespace input is consumed completely |
| Numerals.ParseNumeral | src/calc/lexer.rs:104-106 | a literal of digits and dots reads as a non-negative number when it is accepted |
| Numerals.NoDotsMeansDigits | src/calc/lexer.rs:91-102 | a run of digits and dots has no dot exactly when it is all digits |
| Numerals.ParseNumeralAccepts | src/calc/lexer.rs:104-106 | a run of digits and dots is accepted exactly when it holds at most one dot and at least one digit |
| Numerals.ReadDecimal | src/calc/lexer.rs:104-108 | writing a natural number in decimal and reading it back gives the same number |
| Lexer.ScanNumber | src/calc/lexer.rs:91-109 | a number token consumes a non-empty prefix made only of digits and dots |
| Lexer.ScanIdentifier | src/calc/lexer.rs:112-143 | an identifier consumes an alphanumeric prefix and yields a function or constant token |
| Lexer.Classify | src/calc/lexer.rs:122-140 | a word is accepted exactly when it is in `Keywords`, the set of the twelve words; the token is then a function or a constant (a constant exactly for `pi` and `e`) and the input after the word is passed on unchanged; otherwise the error names the word |
| Lexer.ScanToken | src/calc/lexer.rs:74-148 | an accepted token consumes a non-empty prefix of characters from the lexer's alphabet |
| Lexer.NextToken | src/calc/lexer.rs:73-151 | the end of input is reported exactly when only spaces remain; otherwise a token consumes part of the alphabet |
| Lexer.Tokenize | src/calc/lexer.rs:63-71 | at most one token per character; an empty token list exactly for an all-space line; any character outside the alphabet makes the line fail |
| LexerLaws.OperatorCharacter | src/calc/lexer.rs:79-88 | each of `+-*/^%!()` is a token on its own and consumes one character |
| LexerLaws.SpaceSkipped | src/calc/lexer.rs:77 | a leading space does not change the token list |
| LexerLaws.OtherWhitespaceRejected | src/calc/lexer.rs:145-147 | a tab, newline or other whitespace that is not a space is an unexpected character |
| LexerLaws.NumberToken | src/calc/lexer.rs:91-109 | a maximal run of digits and dots is one number token with its value, or an invalid-number error naming the run |
| LexerLaws.NumberIsMaximal | src/calc/lexer.rs:94-102 | after a number token the next character is not a digit or a dot |
| LexerLaws.LetterStartsIdentifier | src/calc/lexer.rs:112 | a letter always starts an identifier |
| LexerLaws.IdentifierExtent | src/calc/lexer.rs:115-120 | an identifier extends over the whole maximal alphanumeric run |
| LexerLaws.IdentifierToken | src/calc/lexer.rs:112-143 | a maximal alphanumeric run that starts with a letter is classified as a whole word |
| LexerLaws.KeywordWithDigitRejected | src/calc/lexer.rs:115-139 | `pi2` is one unknown identifier, not `pi` followed by `2` |
| LexerLaws.MalformedNumberRejected | src/calc/lexer.rs:104-106 | `1.2.3` is a single invalid number |
| LexerLaws.NextTokenSplit | src/calc/lexer.rs:73-151 | a space ends every token: the token before a space depends only on the text before it |
| LexerLaws.TokenizeStep | src/calc/lexer.rs:63-71 | lexing a line is its first token followed by the lexing of the rest, with the first error ending the line |
| LexerLaws.SameFirstStep | src/calc/lexer.rs:63-71 | two lines with the same first step lex to the same result |
| LexerLaws.TokenizeSplit | src/calc/lexer.rs:63-151 | lexing `p + " " + q` is lexing `p` then lexing `q`, with the first error winning |
| LexerLaws.KeywordSpelling | src/calc/lexer.rs:122-134 | every function and constant token has a letters-only spelling that the keyword table maps back to it |
| LexerLaws.SingleToken | src/calc/lexer.rs:63-71 | a line that one token consumes entirely lexes to that token alone |
| LexerLaws.DecimalScans | src/calc/lexer.rs:91-109 | a natural number written in decimal scans to the number token with that value |
| LexerLaws.SpellKeywordScans | src/calc/lexer.rs:112-143 | each keyword's spelling scans back to its token |
| LexerLaws.SpellLexes | src/calc/lexer.rs:73-151 | every printable token's spelling lexes to exactly that token |
| LexerLaws.RenderThenTokenize | src/calc/lexer.rs:63-151 | any list of printable tokens, written out with spaces between them, lexes back to the same list |
| LexerLaws.ConstantLine | src/calc/lexer.rs:211-221 | `pi e` lexes to the two constants |
| Maths.Fact | src/calc/calculator.rs:43 | the product `1 * ... * n` is at least 1 and at least `n` |
| Maths.FactorialProduct | src/calc/calculator.rs:43 | the loop over `1..=n` computes the product |
| Maths.FactorialValue | src/calc/calculator.rs:40-43 | the factorial of a non-negative whole number is at least 1 and at least the number |
| Maths.Floor | src/calc.rs:116 | the greatest whole number not above the operand |
| Maths.Ceil | src/calc.rs:117 | the least whole number not below the operand |
| Maths.Abs | src/calc.rs:118 | non-negative, and equal to the operand or its negation |
| Maths.Round | src/calc.rs:119 | the nearest whole number, with halves rounded away from zero |
| Maths.RoundSymmetric | src/calc.rs:119 | rounding commutes with negation and fixes whole numbers |
| Parser.Rank | src/calc/parser.rs:38-45 | each strength's rank is its place on the ladder `Lowest`, `Addition`, `Multiplication`, `Exponentiation`, `Prefix`, with `Lowest` the only rank 0 |
| Parser.StrengthOrder | src/calc/parser.rs:38-45 | one strength is at most another exactly when it comes no later on that ladder, so `Lowest < Addition < Multiplication < Exponentiation < Prefix` |
| Parser.ParseBinaryOperator | src/calc/parser.rs:209-238 | an operator is recognised exactly where `is_binary_operator` says so; only `log` consumes its three letters |
| Parser.TakeOperator | src/calc/parser.rs:102-103 | the operator is read and consumed: one character for a symbol, three for `log` once corrected, four for `log` as written |
| Parser.ParseNumber | src/calc/parser.rs:151-165 | a number reads the whole run `s[..n]` of digits and dots; it succeeds exactly when that run is a numeral, with that numeral's value and the rest `s[n..]`, and otherwise fails with `InvalidNumber` of the run |
| Parser.ParseExpression | src/calc/parser.rs:67-130 | an expression consumes input, leaves a proper suffix of it, and stops only at the end or before a character that is neither whitespace nor `!` |
| Parser.InfixLoop | src/calc/parser.rs:90-113 | the infix loop leaves a suffix of its input and stops at the end or before a non-whitespace character that is weaker than the threshold or is no operator |
| Parser.FactorialLoop | src/calc/parser.rs:115-127 | the postfix loop consumes every `!` and whitespace in front and leaves a suffix of its input |
| Parser.ParsePrimary | src/calc/parser.rs:132-149 | a primary always consumes input and leaves a proper suffix of it |
| Parser.ParseUnaryOperator | src/calc/parser.rs:167-207 | a function word yields a unary node other than the factorial and leaves a proper suffix of the input |
| Parser.ParseWith | src/calc/parser.rs:58-65 | a line is accepted exactly when the expression reaches the end of input; any leftover is a trailing-characters error |
| ParserLaws.OperatorStep | src/calc/parser.rs:209-238 | each operator's text is recognised as that operator and consumed |
| ParserLaws.InfixStop | src/calc/parser.rs:97-100 | the infix loop leaves a weaker or non-operator continuation unread |
| ParserLaws.FactorialStop | src/calc/parser.rs:116-126 | the postfix loop leaves input that does not start with `!` unchanged |
| ParserLaws.FactorialOnce | src/calc/parser.rs:116-127 | one `!` wraps the expression in a factorial |
| ParserLaws.InfixStep | src/calc/parser.rs:102-109 | a stronger operator takes the right operand at its own strength and continues the loop |
| ParserLaws.ExpressionSteps | src/calc/parser.rs:88-129 | an expression is a primary, then the infix loop, then the postfix loop |
| ParserLaws.NumberPrimary | src/calc/parser.rs:136 | a decimal numeral is read as a primary with its value |
| ParserLaws.ParenSteps | src/calc/parser.rs:138-146 | `(`, an expression, `)` is a primary with the inner tree |
| ParserLaws.ParenPrimary | src/calc/parser.rs:138-146 | a parenthesised expression is a primary |
| ParserLaws.FunctionName | src/calc/parser.rs:179-184 | each function word is recognised as its function |
| ParserLaws.LetterPrimary | src/calc/parser.rs:137 | a letter starts a function application |
| ParserLaws.UnarySteps | src/calc/parser.rs:167-207 | a function word followed by an operand applies the function to that primary |
| ParserLaws.WordPrimary | src/calc/parser.rs:200-206 | a function word, a space and a primary is the application |
| ParserLaws.WordAtEnd | src/calc/parser.rs:188-198 | a function word at the end of the line applies to the previous result |
| ParserLaws.InfixOnce | src/calc/parser.rs:88-113 | an operand, one stronger operator and its right operand give one binary node |
| ParserLaws.BinaryCase | src/calc/parser.rs:138-146 | a bracketed binary expression reads back as the binary node |
| ParserLaws.FactorialCase | src/calc/parser.rs:115-127 | a bracketed operand followed by `!` reads back as the factorial node |
| ParserLaws.FunctionArm | src/calc/parser.rs:167-207 | printing a function application and reading it back gives the node |
| ParserLaws.FactorialArm | src/calc/parser.rs:115-127 | printing a factorial and reading it back gives the node |
| ParserLaws.BinaryArm | src/calc/parser.rs:90-113 | printing a binary node and reading it back gives the node |
| ParserLaws.PrimaryRoundTrip | src/calc/parser.rs:132-149 | every printed tree, followed by text that is not a numeral, reads back as one primary with that text left over |
| ParserLaws.ExpressionRoundTrip | src/calc/parser.rs:67-130 | every printed tree reads back as an expression at any strength the continuation does not extend |
| ParserLaws.Operand | src/calc/parser.rs:88 | a printed tree is a primary and does not look like a leading operator |
| ParserLaws.Whole | src/calc/parser.rs:67-130 | a printed tree alone reads back completely |
| ParserLaws.RoundTrip | src/calc/parser.rs:58-65 | every printed tree without the previous result parses back to itself |
| ParserGrammar.SkipBlank | src/calc/parser.rs:265-273 | skipping whitespace ignores any whitespace prefix |
| ParserGrammar.ExpressionBlank | src/calc/parser.rs:72 | whitespace before an expression does not change it |
| ParserGrammar.PrimaryBlank | src/calc/parser.rs:133 | whitespace before a primary does not change it |
| ParserGrammar.InfixBlank | src/calc/parser.rs:91 | whitespace before an operator does not change the infix loop |
| ParserGrammar.FactorialBlank | src/calc/parser.rs:117 | whitespace before `!` does not change the postfix loop |
| ParserGrammar.OperatorFront | src/calc/parser.rs:256-262 | an operator's text starts with a character that is not whitespace, a numeral or `!`, and that character has the operator's strength |
| ParserGrammar.OperatorStops | src/calc/parser.rs:97-100 | an operator no stronger than the threshold stops the loop |
| ParserGrammar.InfixPair | src/calc/parser.rs:88-113 | `a op b` parses to the binary node |
| ParserGrammar.InfixChain | src/calc/parser.rs:97-113 | `a o1 b o2 c` groups to the right exactly when `o2` is stronger than `o1`, so equal strengths associate to the left |
| ParserGrammar.LeadingOperator | src/calc/parser.rs:71-85 | an operator at the start takes the previous result as left operand and reads the right operand at prefix strength |
| ParserGrammar.LeadingRoundTrip | src/calc/parser.rs:71-85 | `op e` reads as the previous result combined with `e` |
| ParserGrammar.LeadingLine | src/calc/parser.rs:58-85 | a line `op e` parses to the previous result combined with `e` |
| ParserGrammar.LeadingOperatorEndsLine | src/calc/parser.rs:78-84 | after a leading operator's right operand no further operator is read, so the line fails with trailing characters |
| ParserGrammar.NestedLeading | src/calc/parser.rs:71-113 | `a op op2 e` parses with `op2 e` taking the previous result, inside the right operand |
| ParserGrammar.FactorialLoopBangs | src/calc/parser.rs:115-127 | `k` exclamation marks wrap the tree in `k` factorials |
| ParserGrammar.FactorialChain | src/calc/parser.rs:115-127 | a tree followed by `k` `!`s parses to the `k`-fold factorial |
| ParserGrammar.NoInfixAfterFactorial | src/calc/parser.rs:115-129 | an operator after a postfix `!` is not read, so the line fails with trailing characters |
| ParserGrammar.InfixFails | src/calc/parser.rs:102-104 | an error in a right operand is the expression's error |
| ParserGrammar.PrimaryFails | src/calc/parser.rs:88 | an error in the first primary is the expression's error |
| ParserGrammar.TrailingOperator | src/calc/parser.rs:147 | `e op` at the end of the line fails as a missing primary |
| ParserGrammar.UnclosedParen | src/calc/parser.rs:142-144 | `(` and a complete expression without `)` fails as a missing close parenthesis |
| ParserGrammar.OpenParenAtEnd | src/calc/parser.rs:142-144 | an inner expression that reaches the end of the line after `(` fails as a missing close parenthesis |
| ParserGrammar.LineSteps | src/calc/parser.rs:58-65 | a line is accepted when the infix loop ends the input, and fails with trailing characters otherwise |
| ParserGrammar.WordAfterOperand | src/calc/parser.rs:256-262 | a word other than `log` after an operand stops the loop and the line fails with trailing characters |
| ParserGrammar.BareFunction | src/calc/parser.rs:188-198 | a function word followed only by whitespace applies to the previous result |
| InfixLog.LogTaken | src/calc/parser.rs:102-103 | `log` as written consumes one character beyond its three letters; corrected, exactly three |
| InfixLog.LogStep | src/calc/parser.rs:102-109 | the right operand of `log` is read from what the operator left |
| InfixLog.LogAfterOperand | src/calc/parser.rs:97-109 | an operand, `log` and a complete right operand parse to the logarithm node |
| InfixLog.LogOperandFails | src/calc/parser.rs:104 | when the right operand of `log` fails, the line fails with the same error |
| InfixLog.AsWrittenSkipsOne | src/calc/parser.rs:102-103 | as written, the character right after `log` is dropped and the rest is the base |
| InfixLog.CorrectedLog | src/calc/parser.rs:229-231 | once corrected, `a log b` parses to the logarithm node |
| InfixLog.AsWrittenLosesDigit | src/calc/parser.rs:102-103 | as written, `a log d` with one digit `d` fails as a missing primary |
| InfixLog.EightLogNine | src/calc/parser.rs:102-103 | `8 log9` parses once corrected and fails as written |
| InfixLog.ParenFails | src/calc/parser.rs:138-140 | an error inside parentheses is the primary's error |
| InfixLog.CloseParenAlone | src/calc/parser.rs:147 | a `)` where an operand belongs is a missing primary |
| InfixLog.AsWrittenLogBeforeParen | src/calc/parser.rs:102-103 | as written, `a log d)` loses the digit and meets `)` |
| InfixLog.OpenParenFails | src/calc/parser.rs:138-140 | an error after `(` is the line's error |
| InfixLog.AsWrittenRoundTripFails | src/calc/parser.rs:102-103 | as written, a printed logarithm with a one-digit base does not parse back |
| Calculator.ApplyUnary | src/calc/calculator.rs:37-62 | each function fails only with its own domain error |
| Calculator.ApplyBinary | src/calc/calculator.rs:72-91 | only division and the logarithm fail, each with its own error |
| Calculator.Solve | src/calc/calculator.rs:30-105 | the previous-result error only arises with an empty slot, and a remainder never fails |
| Calculator.Evaluate | src/calc/calculator.rs:15-27 | parse errors come first, then evaluation errors; the slot takes the value exactly when the line succeeds and is unchanged otherwise |
| CalculatorLaws.ErrorsPropagate | src/calc/calculator.rs:32-69 | an operand's error is the node's error, the left operand before the right |
| CalculatorLaws.ValueRule | src/calc/calculator.rs:95 | a number evaluates to itself |
| CalculatorLaws.LastResultRule | src/calc/calculator.rs:96-103 | the previous result is available exactly when the slot holds one |
| CalculatorLaws.FactorialRule | src/calc/calculator.rs:38-44 | the factorial fails exactly on negative or fractional operands and otherwise is the product `1 * ... * n` |
| CalculatorLaws.SmallFactorials | src/calc/tests.rs:97-101 | `0! = 1`, `3! = 6`, `(3!)! = 720` |
| CalculatorLaws.RootAndLnRule | src/calc/calculator.rs:45-61 | the square root fails exactly below zero and `ln` exactly at zero and below |
| CalculatorLaws.TrigRule | src/calc/calculator.rs:52-54 | sine, cosine and tangent never fail |
| CalculatorLaws.ArithmeticRule | src/calc/calculator.rs:73-79 | sums, differences and products never fail; division fails exactly on a zero divisor and otherwise undoes the multiplication |
| CalculatorLaws.ModuloNeverFails | src/calc/calculator.rs:80-81 | the remainder and the power never fail, even with a zero divisor |
| CalculatorLaws.LogRule | src/calc/calculator.rs:82-90 | `a log b` fails exactly when `a <= 0`, `b <= 0` or `b == 1` |
| CalculatorLaws.ClosedIgnoresSlot | src/calc/calculator.rs:96-103 | a tree without the previous result does not depend on the slot |
| CalculatorLines.LineValue | src/calc/calculator.rs:15-27 | a parsed line's result is its tree's value or its evaluation error |
| CalculatorLines.LeadingOperatorUsesLast | src/calc/tests.rs:82-84 | `op e` combines the stored value with `e` |
| CalculatorLines.LeadingOperatorWithoutLast | src/calc/calculator.rs:96-103 | `op e` with an empty slot fails for want of a previous result and leaves the slot empty |
| CalculatorLines.BareFunctionUsesLast | src/calc/tests.rs:85 | a bare function word applies to the stored value |
| CalculatorLines.Session | src/calc/calculator.rs:9-27 | a run of lines yields one result per line |
| CalculatorLines.SessionKeepsLastSuccess | src/calc/calculator.rs:20-26 | after a run of lines the slot holds the value of the last line that succeeded, or its initial content if none did |
| Calc.ApplyUnary | src/calc.rs:87-121 | only the factorial, the square root and `ln` fail, each with its own domain error |
| Calc.ApplyBinary | src/calc.rs:131-158 | only division, the remainder and the logarithm fail, each with its own error |
| Calc.Solve | src/calc.rs:79-177 | the previous-result error only arises with an empty slot |
| Calc.Evaluate | src/calc.rs:50-60 | lex errors come first, then parse errors, then evaluation errors; the slot takes the value exactly when the line succeeds |
| Calc.PrintAst | src/calc.rs:19-43 | one line per node, the root first at the given depth and every other line deeper |
| Calc.EvaluateWithDebug | src/calc.rs:62-76 | the tree is shown only in debug mode, and the slot follows the result |
| CalcLaws.FactorialRule | src/calc.rs:88-96 | the factorial fails exactly on negative or fractional operands and otherwise is the product `1 * ... * n` |
| CalcLaws.SmallFactorials | src/calc.rs:88-96 | `0! = 1` and `(3!)! = 720` |
| CalcLaws.RootAndLnRule | src/calc.rs:97-115 | the square root fails exactly below zero and `ln` exactly at zero and below, each with its own error |
| CalcLaws.TrigRule | src/calc.rs:105-107 | sine, cosine and tangent never fail |
| CalcLaws.RoundingRule | src/calc.rs:116-120 | `floor`, `ceil`, `round`, `abs` and negation never fail and land where each promises |
| CalcLaws.NegateTwice | src/calc.rs:120 | negating twice gives the operand's result back |
| CalcLaws.ArithmeticRule | src/calc.rs:132-134 | sums, differences and products never fail |
| CalcLaws.DivisionRule | src/calc.rs:135-141 | division fails exactly on a zero divisor and otherwise gives the quotient |
| CalcLaws.ModuloRule | src/calc.rs:142-149 | the remainder fails exactly on a zero divisor; the power never fails |
| CalcLaws.LogRule | src/calc.rs:150-157 | `a log b` fails exactly when `a <= 0`, `b <= 0` or `b == 1`, and otherwise is the logarithm |
| CalcLaws.ConstantRule | src/calc.rs:163-169 | `pi` and `e` evaluate to the library's constants |
| CalcLaws.LastResultRule | src/calc.rs:170-174 | the previous result is available exactly when the slot holds one |
| CalcLaws.ClosedIgnoresSlot | src/calc.rs:170-174 | a tree without the previous result does not depend on the slot |
| CalcLaws.DebugAgrees | src/calc.rs:62-76 | with or without debug the result and slot are those of `evaluate`; the tree is shown exactly when debugging a line that lexes and parses |
| CalcLaws.ListingRoundTrip | src/calc.rs:19-43 | the printed listing determines the tree: reading it back by arity gives the tree and leaves the rest |
| Versions.SolveAgrees | src/calc/calculator.rs:30-105 | both evaluators give the same value or error on a tree of the character parser, except where `src/calc.rs` rejects a remainder by zero, which happens only when such a remainder is in the tree |

## Left out

- Characters: letters, digits and whitespace are the ASCII ones. Rust's `is_alphabetic`, `is_alphanumeric` and `is_whitespace` also accept other Unicode characters.
- Numbers are exact reals. Rounding to the nearest `f64`, NaN, infinities and signed zero are not modelled, so `1/3*3 == 1` holds here and may not in Rust.
- `sqrt`, `sin`, `cos`, `tan`, `ln`, `powf`, `%`, `log`, `PI` and `E` are the fields of a `MathLib` record. Their floating-point results are not modelled; only where each is used is modelled.
- Maths.FactorialValue: the `as u64` cast, which saturates, and the `u64` product at src/calc/calculator.rs:43 and src/calc.rs:94 are not modelled. From 21! on that product overflows: a debug build panics and a release build wraps modulo 2^64. The model gives the exact product instead.
- Error messages are closed datatypes (`LexError`, `ParseError`, `EvalError`, `LineError`) rather than strings. The `Lexing Error:`-style prefixes of `src/calc.rs` are the `LineError` constructors.
- Calculator.Evaluate uses the corrected `Parse` (see Findings). The parser as written is `Parser.ParseAsWritten`.
- Calc.Evaluate: src/calc.rs:51 calls `Lexer::tokenize(&line)` as an associated function, while src/calc/lexer.rs:57-71 offers `Lexer::new(line)` and then `tokenize(&mut self)`. The lexer `src/calc.rs` links against is not part of this model; it is assumed to scan as src/calc/lexer.rs does, and `Lexer.Tokenize` stands for it.
- The token parser that `src/calc.rs` calls (`src/calc/parser.rs` in the token-based version) is not part of this model. `Calc.Evaluate` takes it as a parameter of type `TokenParser`.
- Calc.PrintAst: the output is a list of (depth, node) lines. The indentation text and `{:?}` formatting of `println!` are not modelled.
- The thread-local and mutex-guarded `LAST_RESULT` is the explicit slot argument. Locking and `main.rs`'s read-eval loop and `log.rs` are not modelled.
- ParserLaws.RoundTrip: `Print` brackets every binary node, so the round trip covers fully bracketed text. The precedence and associativity of unbracketed text are covered for two and three operands by `ParserGrammar.InfixPair` and `ParserGrammar.InfixChain`, not for chains of any length.
- ParserLaws.RoundTrip: trees that contain the previous result are left out because `LastResult` has no spelling. `ParserGrammar.LeadingOperator` and `ParserGrammar.BareFunction` cover it instead.
- LexerLaws.NumberIsMaximal and LexerLaws.ConstantLine are single facts. `LexerLaws.NumberToken` and `LexerLaws.RenderThenTokenize` state the general rules.
- CalcLaws.DivisionRule: states the quotient as `a / b` over the reals rather than the property `q * b == a`.

## Findings

| source | as written | input that shows it | evidently intended | confidence | as-written member | corrected member |
|---|---|---|---|---|---|---|
| src/calc/parser.rs:102-103 | `parse_binary_operator` already consumes the three letters of `log` (lines 229-231), and the infix loop then calls `chars.next()` once more, dropping the character after `log` | `8 log9`: the `9` is dropped and the line fails as a missing primary; `81 log93` reads as `81 log 3` | `log` is consumed once, so `8 log9` is the logarithm of 8 to base 9, as `100 log 10` in src/calc/tests.rs:35 expects | not executed | InfixLog.EightLogNine, InfixLog.AsWrittenLosesDigit, InfixLog.AsWrittenRoundTripFails | InfixLog.CorrectedLog, ParserLaws.RoundTrip |

The same double consumption sits at src/calc/parser.rs:76-77, for a line that starts with `log`. `Parser.TakeOperator` models both places, and the variant parameter chooses between them.
