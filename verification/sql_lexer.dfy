/** A reference tokenizer for the SQL the scan emits (sections 5.2 and 5.3 of ISO/IEC 9075:1992). */
module SqlLexer {
  import opened SqlText
  import opened Wrappers

  datatype Token =
    | Ident(name: string)
    | Quote(text: string)
    | Number(digits: string)
    | Word(word: string)
    | Symbol(symbol: string)

  datatype Scanned<+T> = Scanned(value: T, rest: string)

  predicate IsWordChar(c: char) {
    'a' <= c <= 'z' || 'A' <= c <= 'Z' || c == '_' || c == '$' || IsDigit(c)
  }

  predicate IsLetter(c: char) {
    'a' <= c <= 'z' || 'A' <= c <= 'Z'
  }

  /** The body of a quoted token, after its opening quote; a doubled quote stands for one. */
  function ScanQuoted(s: string, quote: char): (r: Option<Scanned<string>>)
    ensures r.Some? ==> |r.value.rest| < |s|
  {
    if s == "" then None
    else if s[0] != quote then
      var tail :- ScanQuoted(s[1..], quote);
      Some(Scanned([s[0]] + tail.value, tail.rest))
    else if |s| > 1 && s[1] == quote then
      var tail :- ScanQuoted(s[2..], quote);
      Some(Scanned([quote] + tail.value, tail.rest))
    else Some(Scanned("", s[1..]))
  }

  /** One token from a text that does not start with a blank. */
  function Next(s: string): (r: Option<Scanned<Token>>)
    requires s != "" && s[0] != ' '
    ensures r.Some? ==> |r.value.rest| < |s|
  {
    var c := s[0];
    if c == '"' then
      var body :- ScanQuoted(s[1..], '"');
      if body.value == "" then None else Some(Scanned(Ident(body.value), body.rest))
    else if c == '\'' then
      var body :- ScanQuoted(s[1..], '\'');
      Some(Scanned(Quote(body.value), body.rest))
    else if IsDigit(c) then
      var n := NumberLength(s);
      if n == 0 then None else Some(Scanned(Number(s[..n]), s[n..]))
    else if IsLetter(c) then
      var n := Span(s, IsWordChar);
      Some(Scanned(Word(s[..n]), s[n..]))
    else if (c == '<' || c == '>') && |s| > 1 && s[1] == '=' then Some(Scanned(Symbol(s[..2]), s[2..]))
    else if c == '<' && |s| > 1 && s[1] == '>' then Some(Scanned(Symbol(s[..2]), s[2..]))
    else if c == '-' && |s| > 1 && s[1] == '-' then None // a comment: outside the fragment
    else if c in "(),=<>-" then Some(Scanned(Symbol([c]), s[1..]))
    else None
  }

  function Prepend(tokens: seq<Token>, tail: Option<seq<Token>>): Option<seq<Token>> {
    if tail.None? then None else Some(tokens + tail.value)
  }

  function Lex(s: string): Option<seq<Token>>
    decreases |s|
  {
    if s == "" then Some([])
    else if s[0] == ' ' then Lex(s[1..])
    else
      var first :- Next(s);
      Prepend([first.value], Lex(first.rest))
  }

  // ---------------------------------------------------------------------------
  // Quoting is self-delimiting
  // ---------------------------------------------------------------------------

  lemma {:induction false} ScanOwnQuote(s: string, quote: char, rest: string)
    requires rest == "" || rest[0] != quote
    ensures ScanQuoted(Doubled(s, quote) + [quote] + rest, quote) == Some(Scanned(s, rest))
  {
    var all := Doubled(s, quote) + [quote] + rest;
    if s == "" {
      assert all == [quote] + rest;
      assert all[1..] == rest;
    } else {
      var tail := Doubled(s[1..], quote) + [quote] + rest;
      ScanOwnQuote(s[1..], quote, rest);
      assert s == [s[0]] + s[1..];
      if s[0] == quote {
        assert all == [quote, quote] + tail;
        assert all[2..] == tail;
      } else {
        assert all == [s[0]] + tail;
        assert all[1..] == tail;
      }
    }
  }

  lemma {:induction false} ScanPastQuote(s: string, quote: char, rest: string)
    requires rest != "" && rest[0] == quote
    ensures var r := ScanQuoted(Doubled(s, quote) + [quote] + rest, quote);
            r.Some? ==> |r.value.rest| < |rest|
  {
    var all := Doubled(s, quote) + [quote] + rest;
    if s == "" {
      assert all == [quote] + rest;
      assert all[2..] == rest[1..];
    } else {
      var tail := Doubled(s[1..], quote) + [quote] + rest;
      ScanPastQuote(s[1..], quote, rest);
      if s[0] == quote {
        assert all == [quote, quote] + tail;
        assert all[2..] == tail;
      } else {
        assert all == [s[0]] + tail;
        assert all[1..] == tail;
      }
    }
  }

  /**
   * A quoted text reads back as itself, and ends where it was printed to end, exactly when what follows
   * does not start with the same quote: no content of s can end the token early.
   */
  lemma {:induction false} QuotingIsSelfDelimiting(s: string, quote: char, rest: string)
    ensures ScanQuoted(Doubled(s, quote) + [quote] + rest, quote) == Some(Scanned(s, rest))
            <==> (rest == "" || rest[0] != quote)
  {
    if rest == "" || rest[0] != quote {
      ScanOwnQuote(s, quote, rest);
    } else {
      ScanPastQuote(s, quote, rest);
    }
  }

  lemma {:induction false} QuotingIsInjective(s: string, t: string, quote: char)
    requires Quoted(s, quote) == Quoted(t, quote)
    ensures s == t
  {
    ScanOwnQuote(s, quote, "");
    ScanOwnQuote(t, quote, "");
    assert Quoted(s, quote)[1..] == Doubled(s, quote) + [quote] + "";
    assert Quoted(t, quote)[1..] == Doubled(t, quote) + [quote] + "";
  }

  // ---------------------------------------------------------------------------
  // Texts and the tokens they lex to, whatever follows
  // ---------------------------------------------------------------------------

  ghost predicate LexesTo(text: string, tokens: seq<Token>) {
    forall rest {:trigger Lex(text + rest)} | Boundary(rest) :: Lex(text + rest) == Prepend(tokens, Lex(rest))
  }

  lemma {:induction false} LexesWhole(text: string, tokens: seq<Token>)
    requires LexesTo(text, tokens)
    ensures Lex(text) == Some(tokens)
  {
    assert Lex(text + "") == Prepend(tokens, Lex(""));
    assert text + "" == text;
    assert tokens + [] == tokens;
  }

  lemma {:induction false} LexCat(a: string, s: seq<Token>, b: string, t: seq<Token>)
    requires LexesTo(a, s) && LexesTo(b, t)
    requires b != "" && Boundary(b)
    ensures LexesTo(a + b, s + t)
  {
    forall rest | Boundary(rest)
      ensures Lex((a + b) + rest) == Prepend(s + t, Lex(rest))
    {
      assert (a + b) + rest == a + (b + rest);
      assert Boundary(b + rest);
      assert Lex(a + (b + rest)) == Prepend(s, Lex(b + rest));
      assert Lex(b + rest) == Prepend(t, Lex(rest));
      if Lex(rest).Some? {
        assert s + (t + Lex(rest).value) == (s + t) + Lex(rest).value;
      }
    }
  }

  lemma {:induction false} LexBlank(text: string, tokens: seq<Token>)
    requires LexesTo(text, tokens)
    ensures LexesTo(" " + text, tokens)
  {
    forall rest | Boundary(rest)
      ensures Lex((" " + text) + rest) == Prepend(tokens, Lex(rest))
    {
      assert ((" " + text) + rest)[1..] == text + rest;
    }
  }

  /** Two texts with one blank between them. */
  lemma {:induction false} LexTwo(a: string, s: seq<Token>, b: string, t: seq<Token>)
    requires LexesTo(a, s) && LexesTo(b, t)
    ensures LexesTo(a + " " + b, s + t)
  {
    LexBlank(b, t);
    LexCat(a, s, " " + b, t);
    assert a + " " + b == a + (" " + b);
  }

  /** Three texts with blanks between them. */
  lemma {:induction false} LexThree(a: string, s: seq<Token>, b: string, t: seq<Token>, c: string, u: seq<Token>)
    requires LexesTo(a, s) && LexesTo(b, t) && LexesTo(c, u)
    ensures LexesTo(a + " " + b + " " + c, s + t + u)
  {
    LexTwo(a, s, b, t);
    LexTwo(a + " " + b, s + t, c, u);
  }

  lemma {:induction false} LexOne(text: string, token: Token)
    requires text != "" && text[0] != ' '
    requires forall rest {:trigger Next(text + rest)} | Boundary(rest) :: Next(text + rest) == Some(Scanned(token, rest))
    ensures LexesTo(text, [token])
  {
    forall rest | Boundary(rest)
      ensures Lex(text + rest) == Prepend([token], Lex(rest))
    {
      assert Next(text + rest) == Some(Scanned(token, rest));
    }
  }

  lemma {:induction false} LexIdentifier(name: string)
    requires name != ""
    ensures LexesTo(QuoteIdentifier(name), [Ident(name)])
  {
    var text := QuoteIdentifier(name);
    forall rest | Boundary(rest)
      ensures Next(text + rest) == Some(Scanned(Ident(name), rest))
    {
      assert (text + rest)[1..] == Doubled(name, '"') + ['"'] + rest;
      ScanOwnQuote(name, '"', rest);
    }
    LexOne(text, Ident(name));
  }

  lemma {:induction false} LexString(s: string)
    ensures LexesTo(Quoted(s, '\''), [Quote(s)])
  {
    var text := Quoted(s, '\'');
    forall rest | Boundary(rest)
      ensures Next(text + rest) == Some(Scanned(Quote(s), rest))
    {
      assert (text + rest)[1..] == Doubled(s, '\'') + ['\''] + rest;
      ScanOwnQuote(s, '\'', rest);
    }
    LexOne(text, Quote(s));
  }

  lemma {:induction false} LexNumber(text: string)
    requires text != "" && IsDigit(text[0]) && NumberLength(text) == |text|
    ensures LexesTo(text, [Number(text)])
  {
    forall rest | Boundary(rest)
      ensures Next(text + rest) == Some(Scanned(Number(text), rest))
    {
      NumberStable(text, rest);
      assert (text + rest)[..|text|] == text && (text + rest)[|text|..] == rest;
    }
    LexOne(text, Number(text));
  }

  lemma {:induction false} NextMinus(rest: string)
    requires rest == "" || rest[0] != '-'
    ensures Next("-" + rest) == Some(Scanned(Symbol("-"), rest))
  {
    assert ("-" + rest)[1..] == rest && "(),=<>-"[6] == '-';
  }

  lemma {:induction false} LexAfterMinus(rest: string)
    requires rest == "" || rest[0] != '-'
    ensures Lex("-" + rest) == Prepend([Symbol("-")], Lex(rest))
  {
    NextMinus(rest);
  }

  lemma {:induction false} PrependTwice(first: seq<Token>, second: seq<Token>, tail: Option<seq<Token>>)
    ensures Prepend(first, Prepend(second, tail)) == Prepend(first + second, tail)
  {
    if tail.Some? {
      assert first + (second + tail.value) == (first + second) + tail.value;
    }
  }

  lemma {:induction false} LexMinusNumber(text: string, rest: string)
    requires text != "" && text[0] != '-' && Lex(text + rest) == Prepend([Number(text)], Lex(rest))
    ensures Lex(("-" + text) + rest) == Prepend([Symbol("-"), Number(text)], Lex(rest))
  {
    assert ("-" + text) + rest == "-" + (text + rest);
    LexAfterMinus(text + rest);
    PrependTwice([Symbol("-")], [Number(text)], Lex(rest));
    assert [Symbol("-")] + [Number(text)] == [Symbol("-"), Number(text)];
  }

  lemma {:induction false} LexNegative(text: string)
    requires text != "" && IsDigit(text[0]) && NumberLength(text) == |text|
    ensures LexesTo("-" + text, [Symbol("-"), Number(text)])
  {
    LexNumber(text);
    forall rest | Boundary(rest)
      ensures Lex(("-" + text) + rest) == Prepend([Symbol("-"), Number(text)], Lex(rest))
    {
      assert Lex(text + rest) == Prepend([Number(text)], Lex(rest));
      LexMinusNumber(text, rest);
    }
  }

  lemma {:induction false} LexWord(word: string)
    requires word != "" && forall i :: 0 <= i < |word| ==> IsLetter(word[i])
    ensures LexesTo(word, [Word(word)])
  {
    forall rest | Boundary(rest)
      ensures Next(word + rest) == Some(Scanned(Word(word), rest))
    {
      SpanExact(word, rest, IsWordChar);
      assert (word + rest)[..|word|] == word && (word + rest)[|word|..] == rest;
    }
    LexOne(word, Word(word));
  }

  lemma {:induction false} LexComparison(symbol: string)
    requires symbol in {"=", "<>", "<", ">", "<=", ">="}
    ensures LexesTo(symbol, [Symbol(symbol)])
  {
    forall rest | Boundary(rest)
      ensures Next(symbol + rest) == Some(Scanned(Symbol(symbol), rest))
    {
      var all := symbol + rest;
      assert all[|symbol|..] == rest && all[..|symbol|] == symbol;
    }
    LexOne(symbol, Symbol(symbol));
  }

  lemma {:induction false} LexParenthesised(text: string, tokens: seq<Token>)
    requires LexesTo(text, tokens)
    ensures LexesTo("(" + text + ")", [Symbol("(")] + tokens + [Symbol(")")])
  {
    forall rest | Boundary(rest)
      ensures Lex(("(" + text + ")") + rest) == Prepend([Symbol("(")] + tokens + [Symbol(")")], Lex(rest))
    {
      var all := ("(" + text + ")") + rest;
      var close := ")" + rest;
      assert all[1..] == text + close;
      assert Next(all) == Some(Scanned(Symbol("("), text + close));
      assert Boundary(close);
      assert Lex(text + close) == Prepend(tokens, Lex(close));
      assert close[1..] == rest;
      assert Next(close) == Some(Scanned(Symbol(")"), rest));
      if Lex(rest).Some? {
        assert [Symbol("(")] + (tokens + ([Symbol(")")] + Lex(rest).value))
            == [Symbol("(")] + tokens + [Symbol(")")] + Lex(rest).value;
      }
    }
  }

  // ---------------------------------------------------------------------------
  // Lists of texts
  // ---------------------------------------------------------------------------

  /** The tokens of a list, with the separator's tokens between its members. */
  function JoinTokens(lists: seq<seq<Token>>, separator: seq<Token>): seq<Token> {
    if |lists| == 0 then []
    else if |lists| == 1 then lists[0]
    else lists[0] + separator + JoinTokens(lists[1..], separator)
  }

  /** A separator whose text ends in a blank and starts with one, or with a comma. */
  lemma {:induction false} LexJoin(texts: seq<string>, lists: seq<seq<Token>>, mark: string, tokens: seq<Token>)
    requires |texts| == |lists| > 0
    requires forall i :: 0 <= i < |texts| ==> LexesTo(texts[i], lists[i])
    requires LexesTo(mark, tokens) && mark != "" && Boundary(mark)
    ensures LexesTo(Join(texts, mark + " "), JoinTokens(lists, tokens))
  {
    if |texts| > 1 {
      var tail, tailTokens := Join(texts[1..], mark + " "), JoinTokens(lists[1..], tokens);
      LexJoin(texts[1..], lists[1..], mark, tokens);
      LexBlank(tail, tailTokens);
      LexCat(mark, tokens, " " + tail, tailTokens);
      LexCat(texts[0], lists[0], mark + (" " + tail), tokens + tailTokens);
      assert texts[0] + (mark + " ") + tail == texts[0] + (mark + (" " + tail));
      assert lists[0] + tokens + tailTokens == lists[0] + (tokens + tailTokens);
    }
  }
}
