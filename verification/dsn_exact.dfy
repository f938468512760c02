/** The converse of the round trip: a printed connection string that parses back was printable. */
module DsnExact {
  import opened Dsn
  import opened DsnRoundTrip
  import opened SqlText
  import opened TextCase
  import opened Wrappers

  /** d prints to a string that parses back as d. */
  predicate RoundTrips(d: Dsn)
    requires Expressible(d)
  {
    Parsed(Print(d)) == Ok(d)
  }

  // ---------------------------------------------------------------------------
  // Trimming only touches the end of a printed string
  // ---------------------------------------------------------------------------

  lemma {:induction false} RTrimAfterMark(s: string, mark: nat)
    requires mark < |s| && !IsSpace(s[mark])
    ensures RTrim(s) <= s && mark < |RTrim(s)|
  {
    if IsSpace(s[|s| - 1]) {
      RTrimAfterMark(s[..|s| - 1], mark);
    }
  }

  lemma {:induction false} ParsedOfAny(body: string)
    ensures RTrim(body) <= body
    ensures Parsed(SCHEME + body) == ParsedParts(RTrim(body))
  {
    RTrimFacts(body);
    OwnScheme();
    ParsedAfterScheme(SCHEME, body);
  }

  // ---------------------------------------------------------------------------
  // What a query string can set
  // ---------------------------------------------------------------------------

  /** A field keeps its value or takes one from the query: trimmed, without an ampersand. */
  predicate KeptOrQueried(before: Option<string>, after: Option<string>) {
    after == before || (after.Some? && '&' !in after.value && IsTrimmed(after.value))
  }

  predicate QueriedFrom(before: Dsn, after: Dsn) {
    && after.host == before.host && after.database == before.database
    && KeptOrQueried(before.charset, after.charset)
    && KeptOrQueried(before.user, after.user)
    && KeptOrQueried(before.password, after.password)
  }

  lemma {:induction false} ParameterSets(dsn: Dsn, kv: string, r: Dsn)
    requires '&' !in kv && WithParameter(dsn, kv) == Ok(r)
    ensures QueriedFrom(dsn, r)
  {
    var eq := Find(kv, '=');
    if eq < |kv| {
      TrimmedFacts(kv[eq + 1..]);
    }
  }

  lemma {:induction false} ParametersSet(dsn: Dsn, kvs: seq<string>, r: Dsn)
    requires (forall kv <- kvs :: '&' !in kv) && WithParameters(dsn, kvs) == Ok(r)
    ensures QueriedFrom(dsn, r)
    decreases |kvs|
  {
    if kvs != [] {
      var next := WithParameter(dsn, kvs[0]).value;
      ParameterSets(dsn, kvs[0], next);
      ParametersSet(next, kvs[1..], r);
    }
  }

  lemma {:induction false} PiecesAreClean(s: string, c: char)
    ensures forall piece <- Split(s, c) :: c !in piece
    decreases |s|
  {
    var i := Find(s, c);
    assert c !in s[..i];
    if i < |s| {
      PiecesAreClean(s[i + 1..], c);
    } else {
      assert s[..i] == s;
    }
  }

  lemma {:induction false} QuerySets(dsn: Dsn, query: string, r: Dsn)
    requires WithQuery(dsn, query) == Ok(r)
    ensures QueriedFrom(dsn, r)
  {
    if query != "" {
      PiecesAreClean(query, '&');
      ParametersSet(dsn, Split(query, '&'), r);
    }
  }

  lemma {:induction false} TrimmedShrinks(s: string)
    ensures |Trimmed(s)| <= |s|
  {
    RTrimFacts(s);
    LTrimShrinks(RTrim(s));
  }

  lemma {:induction false} LTrimShrinks(s: string)
    ensures |LTrim(s)| <= |s|
  {
    if s != "" && IsSpace(s[0]) {
      LTrimShrinks(s[1..]);
    }
  }

  /** Without an ampersand a query is one assignment, longer than the value it assigns. */
  lemma {:induction false} LoneParameter(dsn: Dsn, query: string, r: Dsn)
    requires '&' !in query && WithQuery(dsn, query) == Ok(r)
    ensures r.user != dsn.user ==> r == dsn.(user := r.user) && r.user.Some? && |r.user.value| + 5 <= |query|
    ensures r.password != dsn.password
            ==> r == dsn.(password := r.password) && r.password.Some? && |r.password.value| + 9 <= |query|
  {
    if query != "" {
      OneParameter(dsn, query);
      var eq := Find(query, '=');
      if eq < |query| {
        TrimmedShrinks(query[..eq]);
        TrimmedShrinks(query[eq + 1..]);
        assert |Lower(Trimmed(query[..eq]))| == |Trimmed(query[..eq])|;
      }
    }
  }

  // ---------------------------------------------------------------------------
  // What credentials and a location give back about their text
  // ---------------------------------------------------------------------------

  /** user[:password], as printed. */
  function UserText(user: string, password: Option<string>): string {
    user + if password.Some? then ":" + password.value else ""
  }

  lemma {:induction false} SplitIsPrinted(creds: string, user: string, password: Option<string>)
    requires SplitCredentials(creds) == Credentials(Some(user), password)
    ensures creds == UserText(user, password) && user != "" && ':' !in user
  {
  }

  lemma {:induction false} LocatedParts(text: string, l: Location)
    requires Locate(text) == Ok(l)
    ensures l.host.Some? ==> forall c <- l.host.value :: c in text
    ensures l.database.Some? ==>
              l.database.value != "" && text != "" && l.database.value[|l.database.value| - 1] == text[|text| - 1]
              && forall c <- l.database.value :: c in text
  {
  }

  // ---------------------------------------------------------------------------
  // Credentials that parse back were printable
  // ---------------------------------------------------------------------------

  lemma {:induction false} LocationAfterHost(host: string, port: Option<nat>, database: string)
    requires ':' !in host
    ensures host < LocationText(host, port, database)
    ensures LocationText(host, port, database)[|host|] == if port.Some? then ':' else '/'
  {
  }

  /** A plain location names a host that starts its text. */
  lemma {:induction false} PlainHostLeads(text: string, l: Location)
    requires Locate(text) == Ok(l) && l.host.Some? && (text == "" || text[0] != '[')
    ensures l.host.value != "" && l.host.value <= text && '/' !in l.host.value
    ensures l.port.Some? ==> |l.host.value| != 1
  {
  }

  lemma {:induction false} BracketedHostFollows(text: string, l: Location)
    requires Locate(text) == Ok(l) && l.host.Some? && text != "" && text[0] == '['
    ensures l.host.value <= text[1..] && ']' !in l.host.value && |l.host.value| + 1 < |text| && text[|l.host.value| + 1] == ']'
  {
  }

  /** A host starting with an at sign would lose it to the credentials. */
  lemma {:induction false} LeadingAtIsLost(host: string, port: Option<nat>, database: string)
    requires ':' !in host && LocationText(host, port, database)[0] == '@'
    ensures Locate(LocationText(host, port, database)[1..]) != Ok(Location(Some(host), port, Some(database)))
  {
    var t, l := LocationText(host, port, database), Location(Some(host), port, Some(database));
    LocationAfterHost(host, port, database);
    if Locate(t[1..]) == Ok(l) {
      if t[1] == '[' { BracketedHostFollows(t[1..], l); } else { PlainHostLeads(t[1..], l); }
    }
  }

  lemma {:induction false} CredentialsWerePrintable(d: Dsn)
    requires Expressible(d) && CredentialsOf(AuthorityText(d)) == ExpectedCredentials(d)
    requires Locate(AfterCredentials(AuthorityText(d))) == Ok(ExpectedLocation(d))
    ensures PrintableCredentials(d)
  {
    var a, c, at := AuthorityText(d), CredentialText(d), Find(AuthorityText(d), '@');
    if d.user.Some? {
      SplitIsPrinted(a[..at], d.user.value, d.password);
      assert a[..at] == c;
    } else if '@' in a {
      assert at < |a| && a[..at] == "";
      assert ':' !in d.host.value;
      LeadingAtIsLost(d.host.value, d.port, d.database.value);
    }
  }

  // ---------------------------------------------------------------------------
  // A host that parses back was printable
  // ---------------------------------------------------------------------------

  lemma {:induction false} HostWasPrintable(host: string, port: Option<nat>, database: string)
    requires Locate(LocationText(host, port, database)) == Ok(Location(Some(host), port, Some(database)))
    ensures PrintableHost(host, port)
  {
    var t, l := LocationText(host, port, database), Location(Some(host), port, Some(database));
    if t[0] == '[' { BracketedHostFollows(t, l); } else { PlainHostLeads(t, l); }
  }

  // ---------------------------------------------------------------------------
  // Question marks
  // ---------------------------------------------------------------------------

  lemma {:induction false} PortDigitsAreShort(n: nat)
    requires n < 0x1_0000
    ensures |Digits(n)| <= 5
  {
    var a, b, c := n / 10, n / 100, n / 1000;
    assert a / 10 == b && b / 10 == c;
    assert n >= 10 ==> |Digits(n)| == |Digits(a)| + 1;
    assert a >= 10 ==> |Digits(a)| == |Digits(b)| + 1;
    assert b >= 10 ==> |Digits(b)| == |Digits(c)| + 1;
    assert c / 10 < 10 && |Digits(c)| <= 2;
  }

  /** Any text locating a host, port and database is at most four characters shorter than the printed one. */
  lemma {:induction false} PrintedIsNoLonger(text: string, host: string, port: Option<nat>, database: string)
    requires Locate(text) == Ok(Location(Some(host), port, Some(database))) && (port.Some? ==> port.value < 0x1_0000)
    ensures |LocationText(host, port, database)| <= |text| + 4
  {
    if port.Some? {
      PortDigitsAreShort(port.value);
    }
    if text != "" && text[0] == '[' {
      var rest := text[|host| + 2..];
      assert Find(text, ']') == |host| + 1;
      var slash := Find(rest, '/');
      assert |rest| == slash + 1 + |database|;
      assert port.Some? ==> slash >= 2;
    } else {
      var slash := Find(text, '/');
      assert slash < |text| && |text| == slash + 1 + |database|;
      var colon := Find(text[..slash], ':');
      assert port.Some? ==> |host| + 2 <= slash && ':' !in host;
    }
  }

  /** A text parsed as an authority p and a query, which together give d. */
  predicate ReadsAs(d: Dsn, p: string, query: string, located: Dsn, location: Location) {
    && '?' !in p
    && Locate(AfterCredentials(p)) == Ok(location) && located == Assemble(CredentialsOf(p), location)
    && WithQuery(located, query) == Ok(d) && QueriedFrom(located, d)
  }

  /** The stages of parsing a printed string, with the end of its body trimmed. */
  lemma {:induction false} Stages(d: Dsn) returns (text: string, located: Dsn, location: Location)
    requires Expressible(d) && RoundTrips(d)
    ensures text == RTrim(Body(d)) && text <= Body(d)
    ensures ReadsAs(d, BeforeQuery(text), QueryOf(text), located, location)
  {
    ParsedOfAny(Body(d));
    text := RTrim(Body(d));
    located := ParsedAuthority(BeforeQuery(text)).value;
    location := Locate(AfterCredentials(BeforeQuery(text))).value;
    QuerySets(located, QueryOf(text), d);
  }

  /** What follows the credentials of a printed string with a user. */
  function AfterUser(d: Dsn): string
    requires Expressible(d)
  {
    "@" + LocationText(d.host.value, d.port, d.database.value) + if d.charset.Some? then "?" + QueryText(d) else ""
  }

  lemma {:induction false} BodyAfterUser(d: Dsn)
    requires Expressible(d) && d.user.Some?
    ensures Body(d) == CredentialText(d) + AfterUser(d)
  {
  }

  lemma {:induction false} DropOfConcat(a: string, b: string, n: nat)
    requires n <= |a|
    ensures (a + b)[n..] == a[n..] + b
  {
  }

  lemma {:induction false} DropOfPrefix(text: string, whole: string, n: nat)
    requires text <= whole && n <= |text|
    ensures text[n..] <= whole[n..]
  {
    assert text[n..] == whole[n..][..|text| - n];
  }

  /** Where a text is cut when an early part of it holds a question mark. */
  lemma {:induction false} CutEarly(c: string, rest: string)
    requires '?' in c
    ensures var q, text := Find(c, '?'), RTrim(c + rest);
            q < |c| && BeforeQuery(text) == c[..q] && QueryOf(text) <= c[q + 1..] + rest
  {
    var b, q, text := c + rest, Find(c, '?'), RTrim(c + rest);
    RTrimAfterMark(b, q);
    FindIs(text, '?', q);
    assert text[..q] == c[..q];
    DropOfConcat(c, rest, q + 1);
    DropOfPrefix(text, b, q + 1);
  }

  lemma {:induction false} AfterUserHolds(d: Dsn, c: char)
    requires Expressible(d) && c != '@' && c != '[' && c != ']' && c != ':' && c != '/' && c != '?' && c != '=' && !IsDigit(c)
    requires c !in "charset" && c !in d.host.value && c !in d.database.value && (d.charset.Some? ==> c !in d.charset.value)
    ensures c !in AfterUser(d)
  {
  }

  lemma {:induction false} CredentialParts(text: string)
    ensures var c, rest := CredentialsOf(text), AfterCredentials(text);
            && (forall x <- rest :: x in text)
            && (c.user.Some? ==> (forall x <- c.user.value :: x in text) && |c.user.value| + 1 + |rest| <= |text|)
            && (c.password.Some? ==> (forall x <- c.password.value :: x in text) && |c.password.value| + 2 + |rest| <= |text|)
  {
  }

  /** What is in front of the first question mark of c, and at most what is behind it. */
  predicate CutAt(c: string, rest: string, p: string, query: string) {
    var q := Find(c, '?');
    q < |c| && p == c[..q] && query <= c[q + 1..] + rest
  }

  /** A question mark in the credentials cuts the printed string there. */
  lemma {:induction false} CutOfBody(d: Dsn, text: string)
    requires Expressible(d) && d.user.Some? && '?' in CredentialText(d) && text == RTrim(Body(d))
    ensures CutAt(CredentialText(d), AfterUser(d), BeforeQuery(text), QueryOf(text))
  {
    BodyAfterUser(d);
    CutEarly(CredentialText(d), AfterUser(d));
  }

  /** Parsing when the credentials are cut short: p is parsed as an authority, the rest as a query. */
  lemma {:induction false} CutStages(d: Dsn) returns (p: string, query: string, located: Dsn, location: Location)
    requires Expressible(d) && RoundTrips(d) && d.user.Some? && '?' in CredentialText(d)
    ensures CutAt(CredentialText(d), AfterUser(d), p, query) && ReadsAs(d, p, query, located, location)
  {
    var text;
    text, located, location := Stages(d);
    CutOfBody(d, text);
    p, query := BeforeQuery(text), QueryOf(text);
  }

  /** What a cut authority yields has no ampersand unless the text in front of the cut has one. */
  lemma {:induction false} CutYields(d: Dsn, p: string, query: string, located: Dsn, location: Location)
    requires Expressible(d) && ReadsAs(d, p, query, located, location)
    ensures '&' !in AfterCredentials(p) ==> '&' !in AfterUser(d)
    ensures '&' !in p ==> '&' !in CredentialText(d) && '&' !in AfterUser(d)
    ensures located.user.Some? ==> '?' !in located.user.value
    ensures located.password.Some? ==> '?' !in located.password.value
  {
    CredentialParts(p);
    LocatedParts(AfterCredentials(p), location);
    if '&' !in AfterCredentials(p) {
      AfterUserHolds(d, '&');
    }
  }

  lemma {:induction false} AfterUserLength(d: Dsn)
    requires Expressible(d) && d.charset.None?
    ensures |AfterUser(d)| == 1 + |LocationText(d.host.value, d.port, d.database.value)|
  {
  }

  /** A user with a question mark could only come back from the query, which is too short to hold it. */
  lemma {:induction false} UserWasNotCut(d: Dsn, p: string, query: string, located: Dsn, location: Location)
    requires Expressible(d) && d.user.Some? && ReadsAs(d, p, query, located, location)
    requires p < d.user.value && CutAt(CredentialText(d), AfterUser(d), p, query)
    ensures d.user == located.user
  {
    if d.user != located.user {
      CutYields(d, p, query, located, location);
      LoneParameter(located, query, d);
      AfterUserLength(d);
      CredentialParts(p);
      PrintedIsNoLonger(AfterCredentials(p), d.host.value, d.port, d.database.value);
    }
  }

  lemma {:induction false} UserIsClean(d: Dsn)
    requires Expressible(d) && RoundTrips(d) && d.user.Some?
    ensures '?' !in d.user.value
  {
    if '?' in d.user.value {
      assert d.user.value <= CredentialText(d);
      var p, query, located, location := CutStages(d);
      UserWasNotCut(d, p, query, located, location);
      CutYields(d, p, query, located, location);
    }
  }

  /** user:password cut at a question mark of the password. */
  lemma {:induction false} CutPassword(user: string, password: string) returns (left: string, right: string)
    requires '?' !in user && '?' in password
    ensures var c := user + ":" + password;
            Find(c, '?') < |c| && c[..Find(c, '?')] == user + ":" + left && c[Find(c, '?') + 1..] == right
    ensures (forall x <- left :: x in password) && (forall x <- right :: x in password) && |left| + 1 + |right| == |password|
  {
    var c, j := user + ":" + password, Find(password, '?');
    left, right := password[..j], password[j + 1..];
    assert forall k :: 0 <= k < |user| ==> c[k] == user[k] && user[k] in user;
    FindIs(c, '?', |user| + 1 + j);
    assert c[..|user| + 1 + j] == user + ":" + left;
    assert c[|user| + 1 + j + 1..] == right;
  }

  lemma {:induction false} CutInPassword(d: Dsn, p: string, query: string) returns (left: string, right: string)
    requires Expressible(d) && d.password.Some? && '?' !in d.user.value && '?' in d.password.value && '&' !in d.password.value
    requires CutAt(CredentialText(d), AfterUser(d), p, query)
    ensures p == d.user.value + ":" + left && query <= right + AfterUser(d)
    ensures '&' !in left && '&' !in right && |left| + 1 + |right| == |d.password.value|
  {
    left, right := CutPassword(d.user.value, d.password.value);
    assert CredentialText(d) == d.user.value + ":" + d.password.value;
    assert |p| == Find(CredentialText(d), '?');
    assert CredentialText(d)[|p| + 1..] == right;
  }

  /** When the user stays in front of the cut, the location comes from the password. */
  lemma {:induction false} LocationFromPassword(user: string, left: string, c: char)
    requires CredentialsOf(user + ":" + left).user == Some(user) && c !in left && c != ':'
    ensures c !in AfterCredentials(user + ":" + left)
  {
  }

  lemma {:induction false} PasswordQueryIsLone(d: Dsn, left: string, right: string, query: string,
      located: Dsn, location: Location)
    requires Expressible(d) && d.user.Some? && ReadsAs(d, d.user.value + ":" + left, query, located, location)
    requires query <= right + AfterUser(d) && '&' !in left && '&' !in right
    ensures '&' !in query
  {
    var p := d.user.value + ":" + left;
    CutYields(d, p, query, located, location);
    if CredentialsOf(p).user == Some(d.user.value) {
      LocationFromPassword(d.user.value, left, '&');
    } else {
      assert '&' !in p;
    }
  }

  /** The rest of a cut password is too short to assign the whole password. */
  lemma {:induction false} PasswordDoesNotFit(d: Dsn, left: string, right: string, query: string, located: Dsn, location: Location)
    requires Expressible(d) && d.password.Some? && |left| + 1 + |right| == |d.password.value|
    requires |query| <= |right| + |AfterUser(d)| && '&' !in query
    requires ReadsAs(d, d.user.value + ":" + left, query, located, location)
    ensures d.password == located.password
  {
    if d.password != located.password {
      LoneParameter(located, query, d);
      AfterUserLength(d);
      CredentialParts(d.user.value + ":" + left);
      PrintedIsNoLonger(AfterCredentials(d.user.value + ":" + left), d.host.value, d.port, d.database.value);
    }
  }

  lemma {:induction false} PasswordWasNotCut(d: Dsn, p: string, query: string, located: Dsn, location: Location)
    requires Expressible(d) && d.password.Some? && '?' !in d.user.value && '?' in d.password.value
    requires ReadsAs(d, p, query, located, location) && '&' !in d.password.value
    requires CutAt(CredentialText(d), AfterUser(d), p, query)
    ensures d.password == located.password
  {
    var left, right := CutInPassword(d, p, query);
    PasswordQueryIsLone(d, left, right, query, located, location);
    PasswordDoesNotFit(d, left, right, query, located, location);
  }

  /** A password with a question mark could only come back from the query as well, behind a user the authority still holds. */
  lemma {:induction false} PasswordIsClean(d: Dsn)
    requires Expressible(d) && RoundTrips(d) && d.password.Some? && '?' !in d.user.value
    ensures '?' !in d.password.value
  {
    if '?' in d.password.value {
      var p, query, located, location := CutStages(d);
      CutYields(d, p, query, located, location);
      PasswordWasNotCut(d, p, query, located, location);
    }
  }

  // ---------------------------------------------------------------------------
  // The exact domain
  // ---------------------------------------------------------------------------

  lemma {:induction false} BeforeQueryIsAll(text: string)
    requires '?' !in text
    ensures BeforeQuery(text) == text
  {
  }

  lemma {:induction false} LastOfRest(text: string)
    requires AfterCredentials(text) != ""
    ensures text != "" && AfterCredentials(text)[|AfterCredentials(text)| - 1] == text[|text| - 1]
  {
  }

  /** Without a query the database ends the text, which is trimmed. */
  lemma {:induction false} DatabaseEndsText(body: string, l: Location)
    requires '?' !in body && Locate(AfterCredentials(BeforeQuery(RTrim(body)))) == Ok(l) && l.database.Some?
    ensures l.database.value != "" && !IsSpace(l.database.value[|l.database.value| - 1])
  {
    var text := RTrim(body);
    RTrimFacts(body);
    BeforeQueryIsAll(text);
    LocatedParts(AfterCredentials(text), l);
    LastOfRest(text);
  }

  lemma {:induction false} LocationIsClean(d: Dsn)
    requires Expressible(d) && RoundTrips(d)
    ensures '?' !in d.host.value && '?' !in d.database.value && d.database.value != ""
    ensures d.charset.Some? ==> '&' !in d.charset.value && IsTrimmed(d.charset.value)
  {
    var text, located, location := Stages(d);
    LocatedParts(AfterCredentials(BeforeQuery(text)), location);
    CredentialParts(BeforeQuery(text));
    assert '?' !in BeforeQuery(text);
  }

  lemma {:induction false} DatabaseEndWasTrimmed(d: Dsn)
    requires Expressible(d) && RoundTrips(d) && d.charset.None? && '?' !in AuthorityText(d)
    ensures d.database.value != "" && !IsSpace(d.database.value[|d.database.value| - 1])
  {
    var _, _, location := Stages(d);
    assert Body(d) == AuthorityText(d);
    DatabaseEndsText(Body(d), location);
  }

  lemma {:induction false} RoundTripIsClean(d: Dsn)
    requires Expressible(d) && RoundTrips(d)
    ensures CleanCredentials(d) && PrintableEnd(d) && '?' !in d.host.value && '?' !in d.database.value
  {
    if d.user.Some? {
      UserIsClean(d);
    }
    if d.password.Some? {
      PasswordIsClean(d);
    }
    LocationIsClean(d);
    NoQuestionMark(d);
    if d.charset.None? {
      DatabaseEndWasTrimmed(d);
    }
  }

  /** A printed string whose two authority parts read back was printable. */
  lemma {:induction false} PartsWerePrintable(d: Dsn)
    requires Expressible(d) && CredentialsOf(AuthorityText(d)) == ExpectedCredentials(d)
    requires Locate(AfterCredentials(AuthorityText(d))) == Ok(ExpectedLocation(d))
    ensures PrintableCredentials(d) && PrintableHost(d.host.value, d.port)
  {
    CredentialsWerePrintable(d);
    CredentialsRead(d);
    HostWasPrintable(d.host.value, d.port, d.database.value);
  }

  lemma {:induction false} RoundTripWasPrintable(d: Dsn)
    requires Expressible(d) && RoundTrips(d)
    ensures Printable(d) && CleanCredentials(d)
  {
    RoundTripIsClean(d);
    NoQuestionMark(d);
    ParsedOfPrint(d);
    PartsWerePrintable(d);
  }

  /** The round trip holds exactly for the printable connection strings without a question mark in the credentials. */
  lemma {:induction false} RoundTripIffPrintable(d: Dsn)
    requires Expressible(d)
    ensures RoundTrips(d) <==> Printable(d) && CleanCredentials(d)
  {
    if Printable(d) && CleanCredentials(d) {
      PrintableParses(d);
    } else if RoundTrips(d) {
      RoundTripWasPrintable(d);
    }
  }

  /** A concrete loss: a password with an at sign. */
  lemma {:induction false} AtSignExample()
    ensures var d := Dsn(Some("host"), Some(3050), Some("sysdba"), Some("m@ster"), Some("db"), None);
            Expressible(d) && !RoundTrips(d)
  {
    var d := Dsn(Some("host"), Some(3050), Some("sysdba"), Some("m@ster"), Some("db"), None);
    assert "m@ster"[1] == '@';
    assert CredentialText(d) == "sysdba" + ":" + "m@ster";
    assert '@' in CredentialText(d);
    RoundTripIffPrintable(d);
  }
}
