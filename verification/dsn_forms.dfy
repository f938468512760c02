/** What the connection string parser makes of the forms nobody prints: other schemes, bare names, query parameters. */
module DsnForms {
  import opened Dsn
  import opened DsnExact
  import opened DsnRoundTrip
  import opened TextCase
  import opened Wrappers

  // ---------------------------------------------------------------------------
  // Schemes
  // ---------------------------------------------------------------------------

  /** Either scheme, in any letter case, stands for the other, whatever follows. */
  lemma {:induction false} SchemesAgree(scheme: string, rest: string)
    requires IsScheme(scheme)
    ensures Parsed(scheme + rest) == Parsed(SCHEME + rest)
  {
    ParsedAfterScheme(scheme, rest);
    OwnScheme();
    ParsedAfterScheme(SCHEME, rest);
  }

  // ---------------------------------------------------------------------------
  // Bare databases
  // ---------------------------------------------------------------------------

  /** Only a database is specified. */
  function DatabaseOnly(database: string): Dsn {
    UNSPECIFIED.(database := Some(database))
  }

  /** Nothing in the text separates parts; a colon may only follow a drive letter. */
  predicate IsBare(text: string) {
    && '?' !in text && '@' !in text && '/' !in text && text != "" && text[0] != '['
    && (':' in text ==> Find(text, ':') == 1)
  }

  /** A location's database is the whole text only when nothing separates it. */
  lemma {:induction false} WholeDatabase(text: string, l: Location)
    requires Locate(text) == Ok(l) && l.database.Some?
    ensures |l.database.value| <= |text|
    ensures |l.database.value| == |text| ==>
              text[0] != '[' && '/' !in text && (':' in text ==> Find(text, ':') == 1)
  {
  }

  lemma {:induction false} SchemeMarks(text: string)
    requires StripScheme(text) != text
    ensures '/' in text && ':' in text
  {
    var i := if SCHEME <= Lower(text) then 8 else 2;
    assert Lower(text)[i] == ':' && LowerChar(text[i]) == ':';
    assert Lower(text)[i + 1] == '/' && LowerChar(text[i + 1]) == '/';
  }

  lemma {:induction false} BareIsLocated(text: string)
    requires IsBare(text)
    ensures Locate(text) == Ok(Location(None, None, Some(text)))
    ensures CredentialsOf(text) == Credentials(None, None) && AfterCredentials(text) == text
    ensures BeforeQuery(text) == text && QueryOf(text) == "" && StripScheme(text) == text
  {
    assert Find(text, '/') == |text| && text[..|text|] == text;
    if StripScheme(text) != text {
      SchemeMarks(text);
    }
  }

  /** Stripping the scheme, the query or credentials leaves less text, or there was none of them. */
  lemma {:induction false} PartsAreShorter(text: string)
    ensures |StripScheme(text)| < |text| || StripScheme(text) == text
    ensures |BeforeQuery(text)| <= |text| && ('?' in text ==> |BeforeQuery(text)| < |text|)
    ensures |AfterCredentials(text)| <= |text| && ('@' in text ==> |AfterCredentials(text)| < |text|)
  {
  }

  /** A text names a database as it stands if and only if it is bare: a path with a slash never does. */
  lemma {:induction false} DatabaseIffBare(input: string)
    requires Trimmed(input) != ""
    ensures Parsed(input) == Ok(DatabaseOnly(Trimmed(input))) <==> IsBare(Trimmed(input))
  {
    var text := Trimmed(input);
    if IsBare(text) {
      BareIsLocated(text);
    } else if Parsed(input) == Ok(DatabaseOnly(text)) {
      var rest := StripScheme(text);
      var authority := BeforeQuery(rest);
      var located := ParsedAuthority(authority).value;
      QuerySets(located, QueryOf(rest), DatabaseOnly(text));
      PartsAreShorter(text);
      PartsAreShorter(rest);
      PartsAreShorter(authority);
      WholeDatabase(AfterCredentials(authority), Locate(AfterCredentials(authority)).value);
      BeforeQueryIsAll(rest);
    }
  }

  // ---------------------------------------------------------------------------
  // Paths
  // ---------------------------------------------------------------------------

  /** A text without marks is its own authority. */
  lemma {:induction false} UnmarkedStages(text: string)
    requires '?' !in text && '@' !in text && ':' !in text
    ensures StripScheme(text) == text && BeforeQuery(text) == text && QueryOf(text) == ""
    ensures CredentialsOf(text) == Credentials(None, None) && AfterCredentials(text) == text
  {
    BeforeQueryIsAll(text);
    if StripScheme(text) != text {
      SchemeMarks(text);
    }
  }

  lemma {:induction false} PathIsLocated(text: string, i: nat)
    requires ':' !in text && i < |text| && text[i] == '/' && '/' !in text[..i] && text[0] != '['
    ensures Locate(text) == Ok(Location(Specified(text[..i]), None, Specified(text[i + 1..])))
  {
    assert forall k :: 0 <= k < i ==> text[k] == text[..i][k] && text[k] in text[..i];
    FindIs(text, '/', i);
    assert Find(text[..i], ':') == i;
  }

  /** A path is split at its first slash: its head becomes the host, or is dropped when there is none. */
  lemma {:induction false} PathIsSplit(input: string, i: nat)
    requires var text := Trimmed(input);
             && '?' !in text && '@' !in text && ':' !in text
             && i < |text| && text[i] == '/' && '/' !in text[..i] && text[0] != '['
    ensures var text := Trimmed(input);
            Parsed(input) == Ok(UNSPECIFIED.(host := Specified(text[..i]), database := Specified(text[i + 1..])))
  {
    UnmarkedStages(Trimmed(input));
    PathIsLocated(Trimmed(input), i);
  }

  predicate IsPathChar(c: char) {
    'a' <= c <= 'z' || c == '.' || c == '/'
  }

  predicate IsPath(s: string) {
    forall i :: 0 <= i < |s| ==> IsPathChar(s[i])
  }

  lemma {:induction false} SplitPath(head: string, tail: string)
    requires IsPath(head) && IsPath(tail) && '/' !in head && tail != ""
    ensures Parsed(head + "/" + tail) == Ok(UNSPECIFIED.(host := Specified(head), database := Some(tail)))
  {
    var text := head + "/" + tail;
    assert IsPath(text);
    assert text[..|head|] == head && text[|head| + 1..] == tail;
    TrimmedIsSame(text);
    PathIsSplit(text, |head|);
  }

  /** Concrete paths that do not name the database as they stand: a relative one and an absolute one. */
  lemma {:induction false} PathExamples(relative: string, absolute: string)
    requires relative == "srv/x.fdb" && absolute == "/srv/x.fdb"
    ensures Parsed(relative) == Ok(UNSPECIFIED.(host := Some("srv"), database := Some("x.fdb")))
    ensures Parsed(absolute) == Ok(DatabaseOnly("srv/x.fdb")) && Parsed(absolute) != Ok(DatabaseOnly(absolute))
  {
    assert IsPath(relative) && IsPath(absolute);
    var head, file, path := relative[..3], relative[4..], absolute[1..];
    assert head == "srv" && file == "x.fdb" && path == "srv/x.fdb";
    assert relative == head + "/" + file && absolute == "" + "/" + path;
    SplitPath(head, file);
    SplitPath("", path);
    assert |path| != |absolute|;
  }

  // ---------------------------------------------------------------------------
  // Query parameters
  // ---------------------------------------------------------------------------

  predicate Assigns(kv: string, key: string) {
    Find(kv, '=') < |kv| && Lower(Trimmed(kv[..Find(kv, '=')])) == key
  }

  function AssignedValue(kv: string): string
    requires Find(kv, '=') < |kv|
  {
    Trimmed(kv[Find(kv, '=') + 1..])
  }

  /** The value of the last assignment to a key, or what there was before. */
  function LastValue(kvs: seq<string>, key: string, before: Option<string>): Option<string> {
    if kvs == [] then before
    else LastValue(kvs[1..], key, if Assigns(kvs[0], key) then Some(AssignedValue(kvs[0])) else before)
  }

  lemma {:induction false} Unassigned(kvs: seq<string>, key: string, before: Option<string>)
    requires forall i :: 0 <= i < |kvs| ==> !Assigns(kvs[i], key)
    ensures LastValue(kvs, key, before) == before
  {
    if kvs != [] {
      Unassigned(kvs[1..], key, before);
    }
  }

  lemma {:induction false} LastValueIsLast(kvs: seq<string>, key: string, before: Option<string>, i: nat)
    requires i < |kvs| && Assigns(kvs[i], key) && forall j :: i < j < |kvs| ==> !Assigns(kvs[j], key)
    ensures LastValue(kvs, key, before) == Some(AssignedValue(kvs[i]))
  {
    var now := if Assigns(kvs[0], key) then Some(AssignedValue(kvs[0])) else before;
    if i > 0 {
      LastValueIsLast(kvs[1..], key, now, i - 1);
    } else {
      Unassigned(kvs[1..], key, now);
    }
  }

  /** Every port parameter is a number std::stoi accepts. */
  predicate PortsParse(kvs: seq<string>) {
    forall i :: 0 <= i < |kvs| && Assigns(kvs[i], "port") ==> Port(AssignedValue(kvs[i])).Ok?
  }

  lemma {:induction false} OneAssignment(dsn: Dsn, kv: string)
    ensures WithParameter(dsn, kv).Ok? <==> PortsParse([kv])
    ensures var r := WithParameter(dsn, kv);
            r.Ok? ==> r.value.host == dsn.host && r.value.database == dsn.database
                      && r.value.charset == (if Assigns(kv, "charset") then Some(AssignedValue(kv)) else dsn.charset)
                      && r.value.user == (if Assigns(kv, "user") then Some(AssignedValue(kv)) else dsn.user)
                      && r.value.password == (if Assigns(kv, "password") then Some(AssignedValue(kv)) else dsn.password)
                      && (Assigns(kv, "port") ==> r.value.port == Some(Port(AssignedValue(kv)).value))
                      && (!Assigns(kv, "port") ==> r.value.port == dsn.port)
  {
    assert [kv][0] == kv;
    assert |"charset"| == 7 && |"user"| == 4 && |"password"| == 8 && |"port"| == 4 && "user"[0] != "port"[0];
  }

  /** The query overrides: the last assignment to each key wins, and only a bad port throws. */
  lemma {:induction false} LastAssignmentWins(dsn: Dsn, kvs: seq<string>)
    ensures WithParameters(dsn, kvs).Ok? <==> PortsParse(kvs)
    ensures var r := WithParameters(dsn, kvs);
            r.Ok? ==> r.value.host == dsn.host && r.value.database == dsn.database
                      && r.value.charset == LastValue(kvs, "charset", dsn.charset)
                      && r.value.user == LastValue(kvs, "user", dsn.user)
                      && r.value.password == LastValue(kvs, "password", dsn.password)
                      && ((forall i :: 0 <= i < |kvs| ==> !Assigns(kvs[i], "port")) ==> r.value.port == dsn.port)
                      && forall i :: 0 <= i < |kvs| && Assigns(kvs[i], "port")
                                     && (forall j :: i < j < |kvs| ==> !Assigns(kvs[j], "port")) ==>
                           Port(AssignedValue(kvs[i])).Ok? && r.value.port == Some(Port(AssignedValue(kvs[i])).value)
    decreases |kvs|
  {
    if kvs != [] {
      OneAssignment(dsn, kvs[0]);
      assert forall i :: 1 <= i < |kvs| ==> kvs[i] == kvs[1..][i - 1];
      assert forall i :: 0 <= i < |kvs[1..]| ==> kvs[1..][i] == kvs[i + 1];
      assert PortsParse(kvs) <==> PortsParse([kvs[0]]) && PortsParse(kvs[1..]);
      if WithParameter(dsn, kvs[0]).Ok? {
        LastAssignmentWins(WithParameter(dsn, kvs[0]).value, kvs[1..]);
      }
    }
  }
}
