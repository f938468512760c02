/** The string helpers the query builder uses: joining, quoting, decimal digits, numeric literals. */
module SqlText {

  /** StringUtil::Replace of one quote character by two. */
  function Doubled(s: string, quote: char): string {
    if s == "" then ""
    else (if s[0] == quote then [quote, quote] else [s[0]]) + Doubled(s[1..], quote)
  }

  function Quoted(s: string, quote: char): string {
    [quote] + Doubled(s, quote) + [quote]
  }

  function QuoteIdentifier(name: string): string {
    Quoted(name, '"')
  }

  /** StringUtil::Join. */
  function Join(parts: seq<string>, separator: string): string {
    if |parts| == 0 then ""
    else if |parts| == 1 then parts[0]
    else parts[0] + separator + Join(parts[1..], separator)
  }

  // ---------------------------------------------------------------------------
  // Decimal digits
  // ---------------------------------------------------------------------------

  predicate IsDigit(c: char) {
    '0' <= c <= '9'
  }

  predicate AllDigits(s: string) {
    forall i :: 0 <= i < |s| ==> IsDigit(s[i])
  }

  function DigitChar(d: nat): char
    requires d < 10
  {
    ('0' as int + d) as char
  }

  /** to_string of an unsigned number. */
  function Digits(n: nat): (s: string)
    ensures |s| > 0 && AllDigits(s)
  {
    if n < 10 then [DigitChar(n)] else Digits(n / 10) + [DigitChar(n % 10)]
  }

  /** The number a string of digits denotes. */
  function NatOf(s: string): nat
    requires AllDigits(s)
  {
    if s == "" then 0
    else NatOf(s[..|s| - 1]) * 10 + (s[|s| - 1] as int - '0' as int)
  }

  lemma {:induction false} DigitsRoundTrip(n: nat)
    ensures NatOf(Digits(n)) == n
  {
    if n < 10 {
      assert NatOf([DigitChar(n)][..0]) == 0;
    } else {
      DigitsRoundTrip(n / 10);
      var s := Digits(n);
      assert s[..|s| - 1] == Digits(n / 10);
    }
  }

  /** Digits are printed without leading zeros. */
  lemma {:induction false} NoLeadingZero(n: nat)
    ensures if n == 0 then Digits(n) == "0" else Digits(n)[0] != '0'
  {
    if n >= 10 {
      NoLeadingZero(n / 10);
    }
  }

  // ---------------------------------------------------------------------------
  // Maximal runs of characters and unsigned numeric literals
  // (section 5.3 of ISO/IEC 9075:1992)
  // ---------------------------------------------------------------------------

  /** The length of the longest prefix whose characters all satisfy p. */
  function Span(s: string, p: char -> bool): (n: nat)
    ensures n <= |s|
  {
    if s == "" || !p(s[0]) then 0 else 1 + Span(s[1..], p)
  }

  lemma {:induction false} SpanExact(w: string, rest: string, p: char -> bool)
    requires forall i :: 0 <= i < |w| ==> p(w[i])
    requires rest == "" || !p(rest[0])
    ensures Span(w + rest, p) == |w|
  {
    if w == "" {
      assert w + rest == rest;
    } else {
      assert (w + rest)[1..] == w[1..] + rest;
      SpanExact(w[1..], rest, p);
    }
  }

  lemma {:induction false} SpanStable(s: string, rest: string, p: char -> bool)
    requires rest == "" || !p(rest[0])
    ensures Span(s + rest, p) == Span(s, p)
  {
    if s == "" {
      assert s + rest == rest;
    } else {
      assert (s + rest)[1..] == s[1..] + rest;
      SpanStable(s[1..], rest, p);
    }
  }

  function FractionLength(s: string): (n: nat)
    ensures n <= |s|
  {
    if s != "" && s[0] == '.' then 1 + Span(s[1..], IsDigit) else 0
  }

  function ExponentLength(s: string): (n: nat)
    ensures n <= |s|
  {
    if s != "" && (s[0] == 'e' || s[0] == 'E') then
      var sign := if |s| > 1 && (s[1] == '+' || s[1] == '-') then 1 else 0;
      var digits := Span(s[1 + sign..], IsDigit);
      if digits > 0 then 1 + sign + digits else 0
    else 0
  }

  /** The length of the longest unsigned numeric literal at the start of s. */
  function NumberLength(s: string): (n: nat)
    ensures n <= |s|
  {
    var whole := Span(s, IsDigit);
    whole + TailLength(s[whole..])
  }

  /** The length of a fraction and an exponent. */
  function TailLength(s: string): (n: nat)
    ensures n <= |s|
  {
    FractionLength(s) + ExponentLength(s[FractionLength(s)..])
  }

  /** A non-integer numeric literal without its sign, as DuckDB prints a finite FLOAT or DOUBLE. */
  predicate IsMagnitude(s: string) {
    s != "" && IsDigit(s[0]) && NumberLength(s) == |s| && !AllDigits(s)
  }

  lemma {:induction false} MagnitudeExample()
    ensures IsMagnitude("1.0")
  {
    var s := "1.0";
    assert s[1..] == ".0" && s[1..][1..] == "0" && "0"[1..] == "";
    assert Span("0", IsDigit) == 1;
    assert Span(s, IsDigit) == 1;
    assert FractionLength(s[1..]) == 2;
    assert s[3..] == "";
    assert !IsDigit(s[1]);
  }

  /** Where a token may end: at the end of the text, or before a blank, a comma or a closing parenthesis. */
  predicate Boundary(rest: string) {
    rest == "" || rest[0] == ' ' || rest[0] == ',' || rest[0] == ')'
  }

  lemma {:induction false} FractionStable(s: string, rest: string)
    requires Boundary(rest)
    ensures FractionLength(s + rest) == FractionLength(s)
  {
    if s != "" {
      assert (s + rest)[1..] == s[1..] + rest;
      SpanStable(s[1..], rest, IsDigit);
    }
  }

  lemma {:induction false} ExponentStable(s: string, rest: string)
    requires Boundary(rest)
    ensures ExponentLength(s + rest) == ExponentLength(s)
  {
    if s != "" && (s[0] == 'e' || s[0] == 'E') {
      var sign := if |s| > 1 && (s[1] == '+' || s[1] == '-') then 1 else 0;
      assert (s + rest)[1 + sign..] == s[1 + sign..] + rest;
      SpanStable(s[1 + sign..], rest, IsDigit);
    }
  }

  lemma {:induction false} TailStable(s: string, rest: string)
    requires Boundary(rest)
    ensures TailLength(s + rest) == TailLength(s)
  {
    FractionStable(s, rest);
    var end := FractionLength(s);
    assert (s + rest)[end..] == s[end..] + rest;
    ExponentStable(s[end..], rest);
  }

  lemma {:induction false} NumberStable(s: string, rest: string)
    requires Boundary(rest)
    ensures NumberLength(s + rest) == NumberLength(s)
  {
    SpanStable(s, rest, IsDigit);
    var whole := Span(s, IsDigit);
    assert (s + rest)[whole..] == s[whole..] + rest;
    TailStable(s[whole..], rest);
  }

  lemma {:induction false} DigitsAreANumber(s: string)
    requires s != "" && AllDigits(s)
    ensures NumberLength(s) == |s|
  {
    assert s + "" == s;
    SpanExact(s, "", IsDigit);
  }
}
