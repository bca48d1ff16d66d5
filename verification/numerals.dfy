/** Number literals: reading a run of digits and dots as a value, and writing
    natural numbers back as digit strings. */
module Numerals {
  import opened Results
  import opened Chars

  predicate AllDigits(s: string) {
    forall i :: 0 <= i < |s| ==> IsDigit(s[i])
  }

  predicate AllNumeralChars(s: string) {
    forall i :: 0 <= i < |s| ==> IsNumeralChar(s[i])
  }

  function DigitValue(c: char): (d: nat)
    requires IsDigit(c)
    ensures d < 10
  {
    (c as int - '0' as int) as nat
  }

  function DigitChar(d: nat): (c: char)
    requires d < 10
    ensures IsDigit(c) && DigitValue(c) == d
  {
    ('0' as int + d) as char
  }

  /** Value of a digit string, most significant digit first; empty reads as 0. */
  function DigitsValue(s: string): nat
    requires AllDigits(s)
  {
    if |s| == 0 then 0 else 10 * DigitsValue(s[..|s| - 1]) + DigitValue(s[|s| - 1])
  }

  function Pow10(k: nat): (r: nat)
    ensures r >= 1
  {
    if k == 0 then 1 else 10 * Pow10(k - 1)
  }

  /** `n / 10`, by repeated subtraction so that no division reaches the
      solver. */
  function Tenth(n: nat): (q: nat)
    ensures 10 * q <= n < 10 * q + 10
  {
    if n < 10 then 0 else 1 + Tenth(n - 10)
  }

  /** The shortest decimal spelling of `n`. */
  function Decimal(n: nat): (s: string)
    ensures |s| > 0 && AllDigits(s)
    ensures DigitsValue(s) == n
  {
    var q := Tenth(n);
    var init := if q == 0 then [] else Decimal(q);
    assert DigitsValue(init) == q;
    var s := init + [DigitChar(n - 10 * q)];
    assert s[..|s| - 1] == init;
    assert DigitsValue(s) == 10 * q + (n - 10 * q);
    s
  }

  /** What Rust's `str::parse::<f64>` makes of a string of digits and dots,
      read exactly (the rounding to the nearest double is not modelled). The
      accepted shapes are Digit+, Digit+ '.' Digit* and Digit* '.' Digit+. */
  function ParseNumeral(s: string): (r: Option<real>)
    requires AllNumeralChars(s)
    ensures r.Some? ==> r.value >= 0.0
  {
    var k := Span(s, IsDigit);
    if k == |s| then
      if k == 0 then None else Some(DigitsValue(s) as real)
    else if s[k] != '.' then None
    else
      var frac := s[k + 1..];
      if !AllDigits(frac) || (k == 0 && |frac| == 0) then None
      else Some(DigitsValue(s[..k]) as real + DigitsValue(frac) as real / Pow10(|frac|) as real)
  }

  /** A string of digits and dots is dot-free exactly when it is all digits. */
  lemma {:induction false} NoDotsMeansDigits(s: string)
    requires AllNumeralChars(s)
    ensures multiset(s)['.'] == 0 <==> AllDigits(s)
  {
    if |s| > 0 {
      assert s == [s[0]] + s[1..];
      assert multiset(s) == multiset{s[0]} + multiset(s[1..]);
      NoDotsMeansDigits(s[1..]);
    }
  }

  /** The literal is accepted exactly when it holds at most one dot and at
      least one digit. */
  lemma ParseNumeralAccepts(s: string)
    requires AllNumeralChars(s)
    ensures ParseNumeral(s).Some? <==>
      multiset(s)['.'] <= 1 && exists i :: 0 <= i < |s| && IsDigit(s[i])
  {
    var k := Span(s, IsDigit);
    NoDotsMeansDigits(s);
    if k < |s| {
      var frac := s[k + 1..];
      assert s == s[..k] + [s[k]] + frac;
      assert multiset(s) == multiset(s[..k]) + multiset{s[k]} + multiset(frac);
      assert AllDigits(s[..k]);
      NoDotsMeansDigits(s[..k]);
      assert AllNumeralChars(frac);
      NoDotsMeansDigits(frac);
      if k == 0 && |frac| == 0 {
        assert s == ['.'];
      } else if AllDigits(frac) && k == 0 {
        assert IsDigit(s[k + 1]);
      }
    }
  }

  /** Writing a natural number in decimal and reading it back gives the number. */
  lemma ReadDecimal(n: nat)
    ensures ParseNumeral(Decimal(n)) == Some(n as real)
  {
    var s := Decimal(n);
    assert Span(s, IsDigit) == |s| by {
      SpanOfConcat(s, [], IsDigit);
      assert s + [] == s;
    }
  }
}
