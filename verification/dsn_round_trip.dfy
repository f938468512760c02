/** Printing a connection string and parsing it back: the exact domain of the round trip. */
module DsnRoundTrip {
  import opened Dsn
  import opened SqlText
  import opened TextCase
  import opened Wrappers

  // ---------------------------------------------------------------------------
  // The printer: firebird://[user[:password]@]host[:port]/database[?charset=X]
  // ---------------------------------------------------------------------------

  /** What the documented form can express: a host, a database, a password only with a user, a 16-bit port. */
  predicate Expressible(d: Dsn) {
    d.host.Some? && d.database.Some? && (d.password.Some? ==> d.user.Some?) && (d.port.Some? ==> d.port.value < 0x1_0000)
  }

  function CredentialText(d: Dsn): string {
    (if d.user.Some? then d.user.value else "") + if d.password.Some? then ":" + d.password.value else ""
  }

  /** A host with a colon, such as an IPv6 address, goes in brackets. */
  function HostText(host: string): string {
    if ':' in host then "[" + host + "]" else host
  }

  function PortText(port: Option<nat>): string {
    if port.Some? then ":" + Digits(port.value) else ""
  }

  function LocationText(host: string, port: Option<nat>, database: string): string {
    HostText(host) + PortText(port) + "/" + database
  }

  function AuthorityText(d: Dsn): string
    requires Expressible(d)
  {
    var location := LocationText(d.host.value, d.port, d.database.value);
    if d.user.Some? then CredentialText(d) + "@" + location else location
  }

  const CHARSET_KEY := "charset"

  function QueryText(d: Dsn): string {
    if d.charset.Some? then CHARSET_KEY + "=" + d.charset.value else ""
  }

  function Body(d: Dsn): string
    requires Expressible(d)
  {
    AuthorityText(d) + if d.charset.Some? then "?" + QueryText(d) else ""
  }

  function Print(d: Dsn): string
    requires Expressible(d)
  {
    SCHEME + Body(d)
  }

  // ---------------------------------------------------------------------------
  // The domain of the round trip
  // ---------------------------------------------------------------------------

  predicate PrintableCredentials(d: Dsn)
    requires Expressible(d)
  {
    if d.user.Some? then d.user.value != "" && ':' !in d.user.value && '@' !in CredentialText(d)
    else '@' !in AuthorityText(d)
  }

  predicate PrintableHost(host: string, port: Option<nat>) {
    if ':' in host then ']' !in host
    else host != "" && '/' !in host && host[0] != '[' && (port.Some? ==> |host| != 1)
  }

  /** The end of the printed string, which the parser trims. */
  predicate PrintableEnd(d: Dsn)
    requires Expressible(d)
  {
    d.database.value != "" &&
    if d.charset.Some? then '&' !in d.charset.value && IsTrimmed(d.charset.value)
    else !IsSpace(d.database.value[|d.database.value| - 1])
  }

  predicate Printable(d: Dsn)
    requires Expressible(d)
  {
    && PrintableCredentials(d)
    && PrintableHost(d.host.value, d.port)
    && PrintableEnd(d)
    && '?' !in d.host.value && '?' !in d.database.value
  }

  // ---------------------------------------------------------------------------
  // Strings
  // ---------------------------------------------------------------------------

  lemma {:induction false} FindIs(s: string, c: char, i: nat)
    requires i <= |s| && (i < |s| ==> s[i] == c) && forall k :: 0 <= k < i ==> s[k] != c
    ensures Find(s, c) == i
  {
  }

  lemma {:induction false} TrimmedIsSame(s: string)
    requires IsTrimmed(s)
    ensures Trimmed(s) == s
  {
  }

  lemma {:induction false} RTrimFacts(s: string)
    ensures RTrim(s) <= s && (RTrim(s) != "" ==> !IsSpace(RTrim(s)[|RTrim(s)| - 1]))
  {
    if s != "" && IsSpace(s[|s| - 1]) {
      RTrimFacts(s[..|s| - 1]);
    }
  }

  lemma {:induction false} LTrimFacts(s: string)
    ensures LTrim(s) != "" ==> s != "" && !IsSpace(LTrim(s)[0]) && LTrim(s)[|LTrim(s)| - 1] == s[|s| - 1]
    ensures forall c :: c in LTrim(s) ==> c in s
  {
    if s != "" && IsSpace(s[0]) {
      LTrimFacts(s[1..]);
    }
  }

  lemma {:induction false} TrimmedFacts(s: string)
    ensures IsTrimmed(Trimmed(s)) && forall c :: c in Trimmed(s) ==> c in s
  {
    RTrimFacts(s);
    LTrimFacts(RTrim(s));
  }

  /** A port prints and reads back as itself. */
  lemma {:induction false} PortRoundTrip(n: nat)
    requires n < 0x1_0000
    ensures Port(Digits(n)) == Ok(n)
  {
    var s := Digits(n);
    assert IsDigit(s[0]);
    assert s + "" == s;
    SpanExact(s, "", IsDigit);
    assert s[..|s|] == s;
    DigitsRoundTrip(n);
  }

  // ---------------------------------------------------------------------------
  // Printing, stage by stage
  // ---------------------------------------------------------------------------

  /** One of the two schemes, in any letter case. */
  predicate IsScheme(scheme: string) {
    Lower(scheme) == SCHEME || Lower(scheme) == SHORT_SCHEME
  }

  lemma {:induction false} SchemeIsStripped(scheme: string, rest: string)
    requires IsScheme(scheme)
    ensures StripScheme(scheme + rest) == rest
  {
    assert Lower(scheme + rest)[..|scheme|] == Lower(scheme);
    assert SHORT_SCHEME[1] != SCHEME[1];
    assert |Lower(scheme)| == |scheme|;
  }

  lemma {:induction false} SchemeEnds(scheme: string)
    requires IsScheme(scheme)
    ensures scheme != "" && !IsSpace(scheme[0]) && !IsSpace(scheme[|scheme| - 1])
  {
    var lower := Lower(scheme);
    assert |lower| == |scheme| && lower[0] == 'f' && lower[|lower| - 1] == '/';
    assert LowerChar(scheme[0]) == 'f' && LowerChar(scheme[|scheme| - 1]) == '/';
  }

  lemma {:induction false} OwnScheme()
    ensures IsScheme(SCHEME)
  {
    var s := SCHEME;
    assert forall i :: 0 <= i < |s| ==> LowerChar(s[i]) == s[i];
    assert Lower(s) == s;
  }

  /** The last character of a printed string is not white space. */
  lemma {:induction false} BodyEnds(d: Dsn)
    requires Expressible(d) && PrintableEnd(d)
    ensures Body(d) != "" && !IsSpace(Body(d)[|Body(d)| - 1])
  {
    var a, q := AuthorityText(d), QueryText(d);
    if d.charset.Some? {
      assert Body(d) == (a + "?") + q;
      assert q == CHARSET_KEY + ("=" + d.charset.value);
      assert q[|q| - 1] == if d.charset.value == "" then '=' else d.charset.value[|d.charset.value| - 1];
    } else {
      var db := d.database.value;
      assert a[|a| - 1] == db[|db| - 1];
      assert Body(d) == a;
    }
  }

  predicate CleanCredentials(d: Dsn) {
    (d.user.Some? ==> '?' !in d.user.value) && (d.password.Some? ==> '?' !in d.password.value)
  }

  lemma {:induction false} PortTextChars(port: Option<nat>)
    ensures forall i :: 0 <= i < |PortText(port)| ==> PortText(port)[i] == ':' || IsDigit(PortText(port)[i])
  {
  }

  lemma {:induction false} NoQuestionMark(d: Dsn)
    requires Expressible(d) && CleanCredentials(d) && '?' !in d.host.value && '?' !in d.database.value
    ensures '?' !in AuthorityText(d)
  {
    PortTextChars(d.port);
    assert '?' !in PortText(d.port) && '?' !in HostText(d.host.value) && '?' !in CredentialText(d);
  }

  /** The first question mark of a text is where its query starts. */
  lemma {:induction false} QueryCut(a: string, mark: string)
    requires '?' !in a && (mark == "" || mark[0] == '?')
    ensures BeforeQuery(a + mark) == a && QueryOf(a + mark) == if mark == "" then "" else mark[1..]
  {
    var s := a + mark;
    assert forall k :: 0 <= k < |a| ==> s[k] == a[k] && a[k] in a;
    FindIs(s, '?', |a|);
    assert s[..|a|] == a;
    if mark != "" {
      assert s[|a| + 1..] == mark[1..];
    }
  }

  lemma {:induction false} QuerySplits(d: Dsn)
    requires Expressible(d) && '?' !in AuthorityText(d)
    ensures BeforeQuery(Body(d)) == AuthorityText(d) && QueryOf(Body(d)) == QueryText(d)
  {
    if d.charset.Some? {
      assert ("?" + QueryText(d))[1..] == QueryText(d);
      QueryCut(AuthorityText(d), "?" + QueryText(d));
    } else {
      QueryCut(AuthorityText(d), "");
    }
  }

  lemma {:induction false} CharsetKey()
    ensures '=' !in CHARSET_KEY && '&' !in CHARSET_KEY && Trimmed(CHARSET_KEY) == CHARSET_KEY && Lower(CHARSET_KEY) == CHARSET_KEY
  {
    var k := CHARSET_KEY;
    assert |k| == 7 && k[0] == 'c' && k[1] == 'h' && k[2] == 'a' && k[3] == 'r' && k[4] == 's' && k[5] == 'e' && k[6] == 't';
    assert forall i :: 0 <= i < 7 ==> Lower(k)[i] == k[i];
    TrimmedIsSame(k);
  }

  lemma {:induction false} AssignmentSplits(key: string, value: string)
    requires '=' !in key
    ensures var q := key + "=" + value;
            Find(q, '=') == |key| < |q| && q[..|key|] == key && q[|key| + 1..] == value
  {
    var q := key + "=" + value;
    assert forall k :: 0 <= k < |key| ==> q[k] == key[k] && key[k] in key;
    FindIs(q, '=', |key|);
  }

  lemma {:induction false} OneParameter(dsn: Dsn, q: string)
    requires '&' !in q && q != ""
    ensures WithQuery(dsn, q) == WithParameter(dsn, q)
  {
    assert forall k :: 0 <= k < |q| ==> q[k] in q;
    FindIs(q, '&', |q|);
    assert Split(q, '&') == [q] && [q][1..] == [];
    var next := WithParameter(dsn, q);
    assert next.Ok? ==> WithParameters(next.value, []) == next;
  }

  lemma {:induction false} QueryReads(d: Dsn, located: Dsn)
    requires d.charset.Some? && '&' !in d.charset.value && IsTrimmed(d.charset.value)
    ensures WithQuery(located, QueryText(d)) == Ok(located.(charset := d.charset))
  {
    CharsetKey();
    AssignmentSplits(CHARSET_KEY, d.charset.value);
    TrimmedIsSame(d.charset.value);
    assert '&' !in QueryText(d) by {
      assert forall c :: c in QueryText(d) ==> c in CHARSET_KEY || c == '=' || c in d.charset.value;
    }
    OneParameter(located, QueryText(d));
  }

  function ExpectedCredentials(d: Dsn): Credentials {
    Credentials(d.user, d.password)
  }

  function ExpectedLocation(d: Dsn): Location {
    Location(d.host, d.port, d.database)
  }

  /** Trimming only touches what follows a text that does not end in white space. */
  lemma {:induction false} RTrimAfter(front: string, rest: string)
    requires front != "" && !IsSpace(front[|front| - 1])
    ensures RTrim(front + rest) == front + RTrim(rest)
  {
    var s := front + rest;
    if rest == "" {
      assert s == front;
    } else if IsSpace(rest[|rest| - 1]) {
      assert s[..|s| - 1] == front + rest[..|rest| - 1];
      RTrimAfter(front, rest[..|rest| - 1]);
    }
  }

  lemma {:induction false} ParsedAfterScheme(scheme: string, body: string)
    requires IsScheme(scheme)
    ensures Parsed(scheme + body) == ParsedParts(RTrim(body))
  {
    SchemeEnds(scheme);
    RTrimAfter(scheme, body);
    assert LTrim(scheme + RTrim(body)) == scheme + RTrim(body);
    SchemeIsStripped(scheme, RTrim(body));
  }

  lemma {:induction false} ParsedOfScheme(body: string)
    requires body != "" && !IsSpace(body[|body| - 1])
    ensures Parsed(SCHEME + body) == ParsedParts(body)
  {
    OwnScheme();
    ParsedAfterScheme(SCHEME, body);
  }

  /** When only the query can hold a question mark, parsing comes down to the two parts of the authority. */
  lemma {:induction false} ParsedOfPrint(d: Dsn)
    requires Expressible(d) && '?' !in AuthorityText(d) && PrintableEnd(d)
    ensures Parsed(Print(d)) == Ok(d)
            <==> CredentialsOf(AuthorityText(d)) == ExpectedCredentials(d)
                 && Locate(AfterCredentials(AuthorityText(d))) == Ok(ExpectedLocation(d))
  {
    BodyEnds(d);
    ParsedOfScheme(Body(d));
    QuerySplits(d);
    var located := ParsedAuthority(AuthorityText(d));
    if located.Ok? && d.charset.Some? {
      QueryReads(d, located.value);
    }
  }

  // ---------------------------------------------------------------------------
  // Printable strings parse back
  // ---------------------------------------------------------------------------

  lemma {:induction false} SplitReads(user: string, password: Option<string>)
    requires user != "" && ':' !in user
    ensures SplitCredentials(user + if password.Some? then ":" + password.value else "") == Credentials(Some(user), password)
  {
    var c := user + if password.Some? then ":" + password.value else "";
    assert forall k :: 0 <= k < |user| ==> c[k] == user[k] && user[k] in user;
    FindIs(c, ':', |user|);
    assert c[..|user|] == user;
    if password.Some? {
      assert c[|user| + 1..] == password.value;
    } else {
      assert c == user;
    }
  }

  lemma {:induction false} AtSplits(c: string, t: string)
    requires '@' !in c
    ensures CredentialsOf(c + "@" + t) == SplitCredentials(c) && AfterCredentials(c + "@" + t) == t
  {
    var a := c + "@" + t;
    assert forall k :: 0 <= k < |c| ==> a[k] == c[k] && c[k] in c;
    FindIs(a, '@', |c|);
    assert a[..|c|] == c && a[|c| + 1..] == t;
  }

  lemma {:induction false} CredentialsRead(d: Dsn)
    requires Expressible(d) && PrintableCredentials(d)
    ensures CredentialsOf(AuthorityText(d)) == ExpectedCredentials(d)
    ensures AfterCredentials(AuthorityText(d)) == LocationText(d.host.value, d.port, d.database.value)
  {
    var a := AuthorityText(d);
    if d.user.Some? {
      AtSplits(CredentialText(d), LocationText(d.host.value, d.port, d.database.value));
      SplitReads(d.user.value, d.password);
    } else {
      assert forall k :: 0 <= k < |a| ==> a[k] in a;
      FindIs(a, '@', |a|);
    }
  }

  lemma {:induction false} HostPortSplits(host: string, digits: string, port: nat)
    requires ':' !in host && host != "" && |host| != 1 && Port(digits) == Ok(port)
    ensures SplitHostPort(host + (":" + digits)) == Ok(HostPort(Some(host), Some(port)))
  {
    var hostport := host + (":" + digits);
    assert forall k :: 0 <= k < |host| ==> hostport[k] == host[k] && host[k] in host;
    FindIs(hostport, ':', |host|);
    assert hostport[..|host|] == host && hostport[|host| + 1..] == digits;
  }

  lemma {:induction false} HostPortReads(host: string, port: Option<nat>)
    requires PrintableHost(host, port) && ':' !in host && (port.Some? ==> port.value < 0x1_0000)
    ensures SplitHostPort(host + PortText(port)) == Ok(HostPort(Some(host), port))
  {
    if port.Some? {
      PortRoundTrip(port.value);
      HostPortSplits(host, Digits(port.value), port.value);
    } else {
      assert host + "" == host && forall k :: 0 <= k < |host| ==> host[k] in host;
      FindIs(host, ':', |host|);
    }
  }

  lemma {:induction false} PlainHostReads(host: string, port: Option<nat>, database: string)
    requires PrintableHost(host, port) && ':' !in host && (port.Some? ==> port.value < 0x1_0000) && database != ""
    ensures Locate(LocationText(host, port, database)) == Ok(Location(Some(host), port, Some(database)))
  {
    var t, hostport := LocationText(host, port, database), host + PortText(port);
    assert t == hostport + ("/" + database) && t[0] == host[0];
    PortTextChars(port);
    forall k | 0 <= k < |hostport|
      ensures t[k] == hostport[k] && hostport[k] != '/'
    {
      assert if k < |host| then hostport[k] == host[k] && host[k] in host else hostport[k] == PortText(port)[k - |host|];
    }
    FindIs(t, '/', |hostport|);
    assert t[..|hostport|] == hostport && t[|hostport| + 1..] == database;
    HostPortReads(host, port);
  }

  lemma {:induction false} AfterBracketReads(host: string, port: Option<nat>, database: string)
    requires (port.Some? ==> port.value < 0x1_0000) && database != ""
    ensures LocateAfterBracket(host, PortText(port) + "/" + database) == Ok(Location(Some(host), port, Some(database)))
  {
    var rest, p := PortText(port) + "/" + database, PortText(port);
    PortTextChars(port);
    assert forall k :: 0 <= k < |p| ==> rest[k] == p[k];
    FindIs(rest, '/', |p|);
    assert rest[|p| + 1..] == database;
    if port.Some? {
      assert rest[1..|p|] == Digits(port.value);
      PortRoundTrip(port.value);
    }
  }

  lemma {:induction false} LocateBracketed(host: string, rest: string)
    requires ']' !in host
    ensures Locate(("[" + host + "]") + rest) == LocateAfterBracket(host, rest)
  {
    var t, close := ("[" + host + "]") + rest, |host| + 1;
    assert forall k :: 1 <= k < close ==> t[k] == host[k - 1] && host[k - 1] in host;
    FindIs(t, ']', close);
    assert t[1..close] == host && t[close + 1..] == rest;
  }

  lemma {:induction false} BracketedHostReads(host: string, port: Option<nat>, database: string)
    requires PrintableHost(host, port) && ':' in host && (port.Some? ==> port.value < 0x1_0000) && database != ""
    ensures Locate(LocationText(host, port, database)) == Ok(Location(Some(host), port, Some(database)))
  {
    var rest := PortText(port) + "/" + database;
    assert LocationText(host, port, database) == ("[" + host + "]") + rest;
    LocateBracketed(host, rest);
    AfterBracketReads(host, port, database);
  }

  lemma {:induction false} PrintableParses(d: Dsn)
    requires Expressible(d) && Printable(d) && CleanCredentials(d)
    ensures Parsed(Print(d)) == Ok(d)
  {
    NoQuestionMark(d);
    ParsedOfPrint(d);
    CredentialsRead(d);
    if ':' in d.host.value {
      BracketedHostReads(d.host.value, d.port, d.database.value);
    } else {
      PlainHostReads(d.host.value, d.port, d.database.value);
    }
  }
}
