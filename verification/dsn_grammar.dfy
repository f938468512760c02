/** The parser on every form of text, stated on the text's own pieces. */
module DsnGrammar {
  import opened Dsn
  import opened DsnExact
  import opened DsnForms
  import opened DsnRoundTrip
  import opened SqlText
  import opened TextCase
  import opened Wrappers

  // ---------------------------------------------------------------------------
  // White space
  // ---------------------------------------------------------------------------

  /** Space, tab, line feed, vertical tab, form feed, carriage return. */
  predicate Blank(c: char) {
    c as int == 32 || c as int == 9 || c as int == 10 || c as int == 11 || c as int == 12 || c as int == 13
  }

  predicate Blanks(s: string) {
    forall i :: 0 <= i < |s| ==> Blank(s[i])
  }

  /** A text without white space at its ends. */
  predicate Core(s: string) {
    s == "" || (!Blank(s[0]) && !Blank(s[|s| - 1]))
  }

  lemma {:induction false} RTrimBlanks(s: string, b: string)
    requires Blanks(b)
    ensures RTrim(s + b) == RTrim(s)
  {
    if b == "" {
      assert s + b == s;
    } else {
      assert (s + b)[..|s + b| - 1] == s + b[..|b| - 1];
      RTrimBlanks(s, b[..|b| - 1]);
    }
  }

  lemma {:induction false} LTrimBlanks(a: string, s: string)
    requires Blanks(a)
    ensures LTrim(a + s) == LTrim(s)
  {
    if a == "" {
      assert a + s == s;
    } else {
      assert (a + s)[1..] == a[1..] + s;
      LTrimBlanks(a[1..], s);
    }
  }

  /** Trimming removes the white space at both ends, and nothing else. */
  lemma {:induction false} TrimCuts(a: string, core: string, b: string)
    requires Blanks(a) && Blanks(b) && Core(core)
    ensures Trimmed(a + core + b) == core
  {
    RTrimBlanks(a + core, b);
    if core == "" {
      assert a + core == "" + a;
      RTrimBlanks("", a);
    } else {
      assert (a + core)[|a + core| - 1] == core[|core| - 1];
      assert RTrim(a + core) == a + core;
      LTrimBlanks(a, core);
    }
  }

  // ---------------------------------------------------------------------------
  // The whole text
  // ---------------------------------------------------------------------------

  lemma {:induction false} BlankInput(a: string)
    requires Blanks(a)
    ensures Parsed(a) == Ok(Dsn(None, None, None, None, None, None))
  {
    TrimCuts(a, "", "");
    assert a + "" + "" == a;
  }

  predicate NamesScheme(s: string) {
    Lower(s) == "firebird://" || Lower(s) == "fb://"
  }

  lemma {:induction false} StrippedSchemeIsNamed(text: string) returns (n: nat)
    requires StripScheme(text) != text
    ensures n <= |text| && NamesScheme(text[..n])
  {
    n := if SCHEME <= Lower(text) then |SCHEME| else |SHORT_SCHEME|;
    assert Lower(text[..n]) == Lower(text)[..n];
  }

  /** White space at the ends and one scheme are dropped; the rest is parsed in parts. */
  lemma {:induction false} SchemeForms(a: string, scheme: string, text: string, b: string)
    requires Blanks(a) && Blanks(b) && Core(scheme + text) && scheme + text != ""
    requires NamesScheme(scheme) || (scheme == "" && forall n :: 0 <= n <= |text| ==> !NamesScheme(text[..n]))
    ensures Parsed(a + (scheme + text) + b) == ParsedParts(text)
  {
    TrimCuts(a, scheme + text, b);
    if scheme == "" {
      assert scheme + text == text;
      if StripScheme(text) != text {
        var n := StrippedSchemeIsNamed(text);
      }
    } else {
      SchemeIsStripped(scheme, text);
    }
  }

  function Overridden(parsed: Result<Dsn, StoiError>, query: string): Result<Dsn, StoiError> {
    if parsed.Err? then parsed else WithQuery(parsed.value, query)
  }

  /** The first question mark separates the authority from the query. */
  lemma {:induction false} QueryForms(authority: string, query: string)
    requires '?' !in authority
    ensures ParsedParts(authority) == ParsedAuthority(authority)
    ensures ParsedParts(authority + ("?" + query)) == Overridden(ParsedAuthority(authority), query)
  {
    QueryCut(authority, "");
    assert authority + "" == authority;
    QueryCut(authority, "?" + query);
    assert ("?" + query)[1..] == query;
  }

  /** The text when it is not empty. */
  function Given(s: string): Option<string> {
    if s == "" then None else Some(s)
  }

  function Placed(user: Option<string>, password: Option<string>, l: Result<Location, StoiError>): Result<Dsn, StoiError> {
    if l.Err? then Err(l.error) else Ok(Dsn(l.value.host, l.value.port, user, password, l.value.database, None))
  }

  /** No at sign: no credentials. user@ and user:password@ up to the first at sign; the first colon ends the user. */
  lemma {:induction false} CredentialForms(user: string, password: string, rest: string)
    requires '@' !in user && '@' !in password && ':' !in user
    ensures '@' !in rest ==> ParsedAuthority(rest) == Placed(None, None, Locate(rest))
    ensures ParsedAuthority(user + "@" + rest) == Placed(Given(user), None, Locate(rest))
    ensures ParsedAuthority((user + ":" + password) + "@" + rest) == Placed(Given(user), Some(password), Locate(rest))
  {
    assert '@' !in rest ==> Find(rest, '@') == |rest|;
    AtSplits(user, rest);
    assert Find(user, ':') == |user|;
    var both := user + ":" + password;
    AtSplits(both, rest);
    ColonSplits(user, password);
  }

  lemma {:induction false} ColonSplits(front: string, back: string)
    requires ':' !in front
    ensures var s := front + ":" + back;
            Find(s, ':') == |front| < |s| && s[..|front|] == front && s[|front| + 1..] == back
  {
    var s := front + ":" + back;
    assert forall k :: 0 <= k < |front| ==> s[k] == front[k] && front[k] in front;
    FindIs(s, ':', |front|);
  }

  // ---------------------------------------------------------------------------
  // Ports
  // ---------------------------------------------------------------------------

  lemma {:induction false} DigitsEnd(digits: string, tail: string)
    requires AllDigits(digits) && (tail == "" || !IsDigit(tail[0]))
    ensures Span(digits + tail, IsDigit) == |digits| && (digits + tail)[..|digits|] == digits
  {
    SpanExact(digits, tail, IsDigit);
  }

  /** White space, a sign, digits, then anything: the number, wrapped around to 16 bits, when it fits 32 bits. */
  lemma {:induction false} PortForms(blanks: string, sign: string, digits: string, tail: string)
    requires Blanks(blanks) && (sign == "" || sign == "+" || sign == "-")
    requires digits != "" && AllDigits(digits) && (tail == "" || !IsDigit(tail[0]))
    ensures var size: int := NatOf(digits);
            var n := if sign == "-" then -size else size;
            Port(blanks + (sign + (digits + tail)))
            == if -2147483648 <= n <= 2147483647 then Ok(n % 65536) else Err(OutOfRange)
  {
    var body := digits + tail;
    var text := sign + body;
    LTrimBlanks(blanks, text);
    assert IsDigit(body[0]) && text[0] == if sign == "" then body[0] else sign[0];
    assert LTrim(text) == text;
    assert sign != "" ==> text[1..] == body;
    assert sign == "" ==> text == body;
    DigitsEnd(digits, tail);
  }

  /** Without a digit there it is no number. */
  lemma {:induction false} NoPort(blanks: string, sign: string, tail: string)
    requires Blanks(blanks) && (sign == "+" || sign == "-" || sign == "")
    requires tail == "" || !IsDigit(tail[0])
    requires sign == "" && tail != "" ==> !Blank(tail[0]) && tail[0] != '+' && tail[0] != '-'
    ensures Port(blanks + (sign + tail)) == Err(InvalidArgument)
  {
    var text := sign + tail;
    LTrimBlanks(blanks, text);
    assert sign == "" ==> text == tail;
    assert sign != "" ==> text[0] == sign[0] && text[1..] == tail;
    assert LTrim(text) == text;
  }

  // ---------------------------------------------------------------------------
  // Locations
  // ---------------------------------------------------------------------------

  function At(host: Option<string>, port: Result<nat, StoiError>, database: Option<string>): Result<Location, StoiError> {
    if port.Err? then Err(port.error) else Ok(Location(host, Some(port.value), database))
  }

  lemma {:induction false} SlashSplits(front: string, back: string)
    requires '/' !in front
    ensures var s := front + ("/" + back);
            Find(s, '/') == |front| < |s| && s[..|front|] == front && s[|front| + 1..] == back
  {
    var s := front + ("/" + back);
    assert forall k :: 0 <= k < |front| ==> s[k] == front[k] && front[k] in front;
    FindIs(s, '/', |front|);
  }

  lemma {:induction false} HostPortForms(name: string, port: string)
    requires ':' !in name && |name| != 1
    ensures SplitHostPort(name + ":" + port)
         == if Port(port).Err? then Err(Port(port).error) else Ok(HostPort(Given(name), Some(Port(port).value)))
  {
    ColonSplits(name, port);
  }

  /** host:port, with a database after a slash or without one; the host is not one letter. */
  lemma {:induction false} PortLocations(name: string, port: string, database: string)
    requires '/' !in name && ':' !in name && '/' !in port && |name| != 1 && (name == "" || name[0] != '[')
    ensures Locate((name + ":" + port) + ("/" + database)) == At(Given(name), Port(port), Given(database))
    ensures Locate(name + ":" + port) == At(Given(name), Port(port), None)
  {
    var hp := name + ":" + port;
    assert '/' !in hp && hp[0] != '[';
    SlashSplits(hp, database);
    HostPortForms(name, port);
    assert Find(hp, '/') == |hp| && hp[..|hp|] == hp;
  }

  /** A name without a colon, or with its first colon at a drive letter: a host before a slash, else the database. */
  lemma {:induction false} NameLocations(name: string, database: string)
    requires '/' !in name && (name == "" || name[0] != '[')
    requires ':' !in name || (|name| > 1 && name[0] != ':' && name[1] == ':')
    ensures Locate(name + ("/" + database)) == Ok(Location(Given(name), None, Given(database)))
    ensures Locate(name) == Ok(Location(None, None, Given(name)))
  {
    SlashSplits(name, database);
    assert (name + ("/" + database))[0] == if name == "" then '/' else name[0];
    if ':' in name {
      FindIs(name, ':', 1);
    } else {
      assert Find(name, ':') == |name|;
    }
    assert Find(name, '/') == |name| && name[..|name|] == name;
  }

  lemma {:induction false} BracketSplits(host: string, rest: string)
    requires ']' !in host
    ensures Locate(("[" + host + "]") + rest) == LocateAfterBracket(host, rest)
  {
    LocateBracketed(host, rest);
  }

  /** [host]:port, with a database after a slash or without one. */
  lemma {:induction false} BracketPortLocations(host: string, port: string, database: string)
    requires ']' !in host && '/' !in port
    ensures Locate(("[" + host + "]") + ((":" + port) + ("/" + database))) == At(Some(host), Port(port), Given(database))
    ensures Locate(("[" + host + "]") + (":" + port)) == At(Some(host), Port(port), None)
  {
    var rest := ":" + port;
    BracketSplits(host, rest + ("/" + database));
    BracketSplits(host, rest);
    SlashSplits(rest, database);
    assert (rest + ("/" + database))[0] == ':' && (rest + ("/" + database))[1..|rest|] == port;
    assert Find(rest, '/') == |rest| && rest[1..|rest|] == port;
  }

  /** [host] and anything but a colon up to the slash: no port. */
  lemma {:induction false} BracketLocations(host: string, ignored: string, database: string)
    requires ']' !in host && '/' !in ignored && (ignored == "" || ignored[0] != ':')
    ensures Locate(("[" + host + "]") + (ignored + ("/" + database))) == Ok(Location(Some(host), None, Given(database)))
    ensures Locate(("[" + host + "]") + ignored) == Ok(Location(Some(host), None, None))
  {
    BracketSplits(host, ignored + ("/" + database));
    BracketSplits(host, ignored);
    SlashSplits(ignored, database);
    assert ignored != "" ==> (ignored + ("/" + database))[0] == ignored[0];
    assert Find(ignored, '/') == |ignored|;
  }

  /** An opening bracket that is never closed leaves everything unspecified. */
  lemma {:induction false} UnclosedBracket(rest: string)
    requires ']' !in rest
    ensures Locate("[" + rest) == Ok(Location(None, None, None))
  {
    assert Find("[" + rest, ']') == |"[" + rest|;
  }

  // ---------------------------------------------------------------------------
  // Query parameters
  // ---------------------------------------------------------------------------

  /** The query is cut at every ampersand. */
  lemma {:induction false} SplitOfJoin(pieces: seq<string>)
    requires pieces != [] && forall i :: 0 <= i < |pieces| ==> '&' !in pieces[i]
    ensures Split(Join(pieces, "&"), '&') == pieces
  {
    var first := pieces[0];
    assert '&' !in first;
    if |pieces| == 1 {
      assert Find(first, '&') == |first|;
    } else {
      var more := Join(pieces[1..], "&");
      var s := first + "&" + more;
      assert forall k :: 0 <= k < |first| ==> s[k] == first[k] && first[k] in first;
      FindIs(s, '&', |first|);
      assert s[..|first|] == first && s[|first| + 1..] == more;
      SplitOfJoin(pieces[1..]);
    }
  }

  lemma {:induction false} QueryOfPieces(dsn: Dsn, pieces: seq<string>)
    requires pieces != [] && forall i :: 0 <= i < |pieces| ==> '&' !in pieces[i]
    ensures WithQuery(dsn, Join(pieces, "&")) == WithParameters(dsn, pieces)
  {
    SplitOfJoin(pieces);
    if Join(pieces, "&") == "" {
      assert Find("", '&') == 0 && Split("", '&') == [""];
      assert [""][1..] == [];
      assert WithParameter(dsn, "") == Ok(dsn);
      assert WithParameters(dsn, []) == Ok(dsn);
    }
  }

  /** key=value, with white space around either: the key in any letter case names the field that takes the value. */
  lemma {:induction false} ParameterForms(dsn: Dsn, a: string, key: string, b: string, c: string, value: string, d: string)
    requires Blanks(a) && Blanks(b) && Blanks(c) && Blanks(d) && Core(key) && Core(value) && '=' !in key
    ensures var r := WithParameter(dsn, (a + key + b) + "=" + (c + value + d));
            var k := Lower(key);
            && (k == "charset" ==> r == Ok(dsn.(charset := Some(value))))
            && (k == "user" ==> r == Ok(dsn.(user := Some(value))))
            && (k == "password" ==> r == Ok(dsn.(password := Some(value))))
            && (k == "port" ==> r == if Port(value).Err? then Err(Port(value).error) else Ok(dsn.(port := Some(Port(value).value))))
            && (k != "charset" && k != "user" && k != "password" && k != "port" ==> r == Ok(dsn))
  {
    assert '=' !in a && '=' !in b;
    assert '=' !in a + key + b;
    AssignmentSplits(a + key + b, c + value + d);
    TrimCuts(a, key, b);
    TrimCuts(c, value, d);
    assert |"charset"| == 7 && |"user"| == 4 && |"password"| == 8 && |"port"| == 4 && "user"[0] == 'u' && "port"[0] == 'p';
  }

  lemma {:induction false} NoAssignment(dsn: Dsn, kv: string)
    requires '=' !in kv
    ensures WithParameter(dsn, kv) == Ok(dsn)
  {
    assert Find(kv, '=') == |kv|;
  }
}
