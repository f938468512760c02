/** The connection string parser: its stages as functions, and as it runs. */
module Dsn {
  import opened SqlText
  import opened TextCase
  import opened Wrappers

  /** FirebirdDSN: the parts a string specifies. */
  datatype Dsn = Dsn(
    host: Option<string>,
    port: Option<nat>,
    user: Option<string>,
    password: Option<string>,
    database: Option<string>,
    charset: Option<string>)

  const UNSPECIFIED := Dsn(None, None, None, None, None, None)

  /** What std::stoi throws. */
  datatype StoiError = InvalidArgument | OutOfRange

  // ---------------------------------------------------------------------------
  // String helpers
  // ---------------------------------------------------------------------------

  predicate IsSpace(c: char) {
    c == ' ' || 0x09 <= c as int <= 0x0D
  }

  function LTrim(s: string): string {
    if s != "" && IsSpace(s[0]) then LTrim(s[1..]) else s
  }

  function RTrim(s: string): string {
    if s != "" && IsSpace(s[|s| - 1]) then RTrim(s[..|s| - 1]) else s
  }

  function Trimmed(s: string): string {
    LTrim(RTrim(s))
  }

  predicate IsTrimmed(s: string) {
    s == "" || (!IsSpace(s[0]) && !IsSpace(s[|s| - 1]))
  }

  /** The first position of a character; the length when it does not occur. */
  function Find(s: string, c: char): (i: nat)
    ensures i <= |s|
    ensures i < |s| ==> s[i] == c
    ensures forall k :: 0 <= k < i ==> s[k] != c
  {
    if s == "" || s[0] == c then 0 else 1 + Find(s[1..], c)
  }

  function Split(s: string, c: char): seq<string>
    decreases |s|
  {
    var i := Find(s, c);
    if i == |s| then [s] else [s[..i]] + Split(s[i + 1..], c)
  }

  /** std::stoi: leading white space, a sign, then as many digits as there are. */
  function Stoi(s: string): Result<int, StoiError> {
    var t := LTrim(s);
    var signed := t != "" && (t[0] == '-' || t[0] == '+');
    var body := if signed then t[1..] else t;
    var digits := Span(body, IsDigit);
    SpanIsDigits(body);
    if digits == 0 then Err(InvalidArgument)
    else
      var n: int := NatOf(body[..digits]);
      var value := if signed && t[0] == '-' then -n else n;
      if -0x8000_0000 <= value < 0x8000_0000 then Ok(value) else Err(OutOfRange)
  }

  lemma {:induction false} SpanIsDigits(s: string)
    ensures AllDigits(s[..Span(s, IsDigit)])
  {
    if s != "" && IsDigit(s[0]) {
      SpanIsDigits(s[1..]);
      assert s[..Span(s, IsDigit)] == [s[0]] + s[1..][..Span(s[1..], IsDigit)];
    }
  }

  /** The cast to a 16-bit port: it wraps around. */
  function Port(s: string): Result<nat, StoiError> {
    var n :- Stoi(s);
    Ok(n % 0x1_0000)
  }

  // ---------------------------------------------------------------------------
  // The parser, stage by stage
  // ---------------------------------------------------------------------------

  const SCHEME := "firebird://"
  const SHORT_SCHEME := "fb://"

  function StripScheme(s: string): string {
    if SCHEME <= Lower(s) then s[|SCHEME|..]
    else if SHORT_SCHEME <= Lower(s) then s[|SHORT_SCHEME|..]
    else s
  }

  function BeforeQuery(s: string): string {
    s[..Find(s, '?')]
  }

  function QueryOf(s: string): string {
    if Find(s, '?') == |s| then "" else s[Find(s, '?') + 1..]
  }

  /** The text when it is not empty. */
  function Specified(s: string): Option<string> {
    if s == "" then None else Some(s)
  }

  datatype Credentials = Credentials(user: Option<string>, password: Option<string>)

  /** user[:password] */
  function SplitCredentials(creds: string): Credentials {
    var colon := Find(creds, ':');
    if colon < |creds| then Credentials(Specified(creds[..colon]), Some(creds[colon + 1..]))
    else Credentials(Specified(creds), None)
  }

  function CredentialsOf(text: string): Credentials {
    var at := Find(text, '@');
    if at < |text| then SplitCredentials(text[..at]) else Credentials(None, None)
  }

  function AfterCredentials(text: string): string {
    var at := Find(text, '@');
    if at < |text| then text[at + 1..] else text
  }

  datatype Location = Location(host: Option<string>, port: Option<nat>, database: Option<string>)

  function SomePort(s: string): Result<Option<nat>, StoiError> {
    var port :- Port(s);
    Ok(Some(port))
  }

  /** What follows a bracketed host: [:port][/database] */
  function LocateAfterBracket(host: string, rest: string): Result<Location, StoiError> {
    var slash := Find(rest, '/');
    var port :- if slash > 0 && rest[0] == ':' then SomePort(rest[1..slash]) else Ok(None);
    Ok(Location(Some(host), port, if slash < |rest| then Specified(rest[slash + 1..]) else None))
  }

  function LocateInBrackets(text: string): Result<Location, StoiError> {
    var close := Find(text, ']');
    if close == 0 || close == |text| then Ok(Location(None, None, None))
    else LocateAfterBracket(text[1..close], text[close + 1..])
  }

  datatype HostPort = HostPort(host: Option<string>, port: Option<nat>)

  /** host[:port], where a colon at position 1 is taken for a Windows drive */
  function SplitHostPort(hostport: string): Result<HostPort, StoiError> {
    var colon := Find(hostport, ':');
    if colon < |hostport| && colon != 1 then
      var port :- SomePort(hostport[colon + 1..]);
      Ok(HostPort(Specified(hostport[..colon]), port))
    else Ok(HostPort(Specified(hostport), None))
  }

  /** [host][:port][/database] */
  function Locate(text: string): Result<Location, StoiError> {
    if text != "" && text[0] == '[' then LocateInBrackets(text)
    else
      var slash := Find(text, '/');
      var hp :- SplitHostPort(text[..slash]);
      if slash < |text| then Ok(Location(hp.host, hp.port, Specified(text[slash + 1..])))
      else if hp.port.Some? then Ok(Location(hp.host, hp.port, None))
      else Ok(Location(None, None, Specified(text))) // neither slash nor port: a bare database
  }

  function Placed(dsn: Dsn, l: Result<Location, StoiError>): Result<Dsn, StoiError> {
    if l.Err? then Err(l.error)
    else Ok(dsn.(host := l.value.host, port := l.value.port, database := l.value.database))
  }

  function Assemble(c: Credentials, l: Location): Dsn {
    Dsn(l.host, l.port, c.user, c.password, l.database, None)
  }

  /** One key=value of the query string. */
  function WithParameter(dsn: Dsn, kv: string): Result<Dsn, StoiError> {
    var eq := Find(kv, '=');
    if eq == |kv| then Ok(dsn)
    else
      var key := Lower(Trimmed(kv[..eq]));
      var value := Trimmed(kv[eq + 1..]);
      if key == "charset" then Ok(dsn.(charset := Some(value)))
      else if key == "user" then Ok(dsn.(user := Some(value)))
      else if key == "password" then Ok(dsn.(password := Some(value)))
      else if key == "port" then
        var port :- SomePort(value);
        Ok(dsn.(port := port))
      else Ok(dsn)
  }

  function WithParameters(dsn: Dsn, kvs: seq<string>): Result<Dsn, StoiError>
    decreases kvs
  {
    if kvs == [] then Ok(dsn)
    else
      var next :- WithParameter(dsn, kvs[0]);
      WithParameters(next, kvs[1..])
  }

  function WithQuery(dsn: Dsn, query: string): Result<Dsn, StoiError> {
    if query == "" then Ok(dsn) else WithParameters(dsn, Split(query, '&'))
  }

  function ParsedAuthority(authority: string): Result<Dsn, StoiError> {
    var location :- Locate(AfterCredentials(authority));
    Ok(Assemble(CredentialsOf(authority), location))
  }

  /** Everything after the scheme. */
  function ParsedParts(text: string): Result<Dsn, StoiError> {
    var dsn :- ParsedAuthority(BeforeQuery(text));
    WithQuery(dsn, QueryOf(text))
  }

  function Parsed(input: string): Result<Dsn, StoiError> {
    var trimmed := Trimmed(input);
    if trimmed == "" then Ok(UNSPECIFIED) else ParsedParts(StripScheme(trimmed))
  }

  // ---------------------------------------------------------------------------
  // The parser as it runs: the input shrinks and the fields are filled in step by step
  // ---------------------------------------------------------------------------

  method DropScheme(text: string) returns (input: string)
    ensures input == StripScheme(text)
  {
    input := text;
    var schemes := [SCHEME, SHORT_SCHEME];
    for i := 0 to |schemes|
      invariant input == text
      invariant i > 0 ==> !(SCHEME <= Lower(text))
      invariant i > 1 ==> !(SHORT_SCHEME <= Lower(text))
    {
      if schemes[i] <= Lower(input) {
        return input[|schemes[i]|..];
      }
    }
  }

  method ParseBracketed(start: Dsn, input: string) returns (r: Result<Dsn, StoiError>)
    requires start.host.None? && start.port.None? && start.database.None? && input != "" && input[0] == '['
    ensures r == Placed(start, LocateInBrackets(input))
  {
    var dsn := start;
    var close := Find(input, ']');
    if close != |input| {
      dsn := dsn.(host := Some(input[1..close]));
      var rest := input[close + 1..];
      var slash := Find(rest, '/');
      var afterHost := if slash == |rest| then rest else rest[..slash];
      if afterHost != "" && afterHost[0] == ':' {
        assert afterHost[1..] == rest[1..slash];
        var port := Port(afterHost[1..]);
        if port.Err? {
          return Err(port.error);
        }
        dsn := dsn.(port := Some(port.value));
      }
      if slash != |rest| && rest[slash + 1..] != "" {
        dsn := dsn.(database := Some(rest[slash + 1..]));
      }
    }
    return Ok(dsn);
  }

  method ParseLocation(start: Dsn, input: string) returns (r: Result<Dsn, StoiError>)
    requires start.host.None? && start.port.None? && start.database.None?
    ensures r == Placed(start, Locate(input))
  {
    if input != "" && input[0] == '[' {
      r := ParseBracketed(start, input);
      return;
    }
    var dsn := start;
    var slash := Find(input, '/');
    var hostport := input[..slash];
    var database := if slash == |input| then "" else input[slash + 1..];
    var colon := Find(hostport, ':');
    var windowsDrive := colon == 1;
    if colon != |hostport| && !windowsDrive {
      dsn := dsn.(host := if hostport[..colon] == "" then None else Some(hostport[..colon]));
      var port := Port(hostport[colon + 1..]);
      if port.Err? {
        return Err(port.error);
      }
      dsn := dsn.(port := Some(port.value));
    } else if slash == |input| {
      assert hostport == input;
      database := hostport;
    } else if hostport != "" {
      dsn := dsn.(host := Some(hostport));
    }
    if database != "" {
      dsn := dsn.(database := Some(database));
    }
    return Ok(dsn);
  }

  method ParseQuery(start: Dsn, query: string) returns (r: Result<Dsn, StoiError>)
    ensures r == WithQuery(start, query)
  {
    var dsn := start;
    if query == "" {
      return Ok(dsn);
    }
    var kvs := Split(query, '&');
    assert kvs[0..] == kvs;
    for i := 0 to |kvs|
      invariant WithParameters(dsn, kvs[i..]) == WithParameters(start, kvs)
    {
      assert kvs[i..][0] == kvs[i] && kvs[i..][1..] == kvs[i + 1..];
      var eq := Find(kvs[i], '=');
      if eq == |kvs[i]| {
        continue;
      }
      var key := Lower(Trimmed(kvs[i][..eq]));
      var value := Trimmed(kvs[i][eq + 1..]);
      if key == "charset" {
        dsn := dsn.(charset := Some(value));
      } else if key == "user" {
        dsn := dsn.(user := Some(value));
      } else if key == "password" {
        dsn := dsn.(password := Some(value));
      } else if key == "port" {
        var port := Port(value);
        if port.Err? {
          return Err(port.error);
        }
        dsn := dsn.(port := Some(port.value));
      }
    }
    return Ok(dsn);
  }

  method ParseCredentials(text: string) returns (dsn: Dsn, input: string)
    ensures input == AfterCredentials(text)
    ensures dsn == UNSPECIFIED.(user := CredentialsOf(text).user, password := CredentialsOf(text).password)
  {
    dsn, input := UNSPECIFIED, text;
    var at := Find(input, '@');
    if at != |input| {
      var creds := input[..at];
      input := input[at + 1..];
      var colon := Find(creds, ':');
      if colon != |creds| {
        dsn := dsn.(user := if creds[..colon] == "" then None else Some(creds[..colon]));
        dsn := dsn.(password := Some(creds[colon + 1..]));
      } else if creds != "" {
        dsn := dsn.(user := Some(creds));
      }
    }
  }

  method ParseDSN(inputP: string) returns (r: Result<Dsn, StoiError>)
    ensures r == Parsed(inputP)
  {
    var input := Trimmed(inputP);
    if input == "" {
      return Ok(UNSPECIFIED);
    }
    input := DropScheme(input);
    var qpos := Find(input, '?');
    var query := if qpos != |input| then input[qpos + 1..] else "";
    input := input[..qpos];
    var dsn;
    dsn, input := ParseCredentials(input);
    r := ParseLocation(dsn, input);
    if r.Ok? {
      r := ParseQuery(r.value, query);
    }
  }
}
