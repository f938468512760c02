/**
 * The SQL text of one scan, and a reference server that runs it: the text asks for exactly the rows and
 * columns the scan stands for.
 */
module ScanQuery {
  import opened ClauseGroups
  import opened FilterClauses
  import opened SqlConditions
  import opened SqlLexer
  import opened SqlText
  import opened SqlValues
  import opened TableFilters
  import opened WhereClause
  import opened Wrappers

  /** What a scan is bound to: a table and its columns, the projection, the filters. */
  datatype Scan = Scan(table: string, names: seq<string>, ids: seq<nat>, filters: seq<FilterEntry>)

  // ---------------------------------------------------------------------------
  // Building the text
  // ---------------------------------------------------------------------------

  function SelectColumn(names: seq<string>, id: nat): string {
    if IsVirtual(names, id) then "1" else QuoteIdentifier(names[id])
  }

  function SelectList(names: seq<string>, ids: seq<nat>): seq<string> {
    if ids == [] then ["1"]
    else seq(|ids|, i requires 0 <= i < |ids| => SelectColumn(names, ids[i]))
  }

  function RowsClause(cap: Option<nat>): string {
    if cap.None? then "" else " ROWS " + Digits(cap.value)
  }

  function SelectText(s: Scan): string {
    "SELECT " + Join(SelectList(s.names, s.ids), ", ") + " FROM " + QuoteIdentifier(s.table)
  }

  function ScanSql(s: Scan, cap: Option<nat>): Result<string, PushdownError> {
    var clauses := Clauses(s.names, s.ids, s.filters);
    if clauses.Err? then Err(clauses.error)
    else
      Ok(SelectText(s) + Where(clauses.value) + RowsClause(cap))
  }

  method FirebirdInitGlobal(s: Scan, cap: Option<nat>) returns (sql: Result<string, PushdownError>)
    ensures sql == ScanSql(s, cap)
  {
    var selectCols := [];
    for i := 0 to |s.ids|
      invariant |selectCols| == i
      invariant forall k :: 0 <= k < i ==> selectCols[k] == SelectColumn(s.names, s.ids[k])
    {
      if IsVirtual(s.names, s.ids[i]) {
        selectCols := selectCols + ["1"];
      } else {
        selectCols := selectCols + [QuoteIdentifier(s.names[s.ids[i]])];
      }
    }
    if selectCols == [] {
      selectCols := selectCols + ["1"];
    }
    assert selectCols == SelectList(s.names, s.ids);
    var where := BuildWhereClause(s.names, s.ids, s.filters);
    if where.Err? {
      return Err(where.error);
    }
    var text := "SELECT " + Join(selectCols, ", ") + " FROM " + QuoteIdentifier(s.table) + where.value;
    if cap.Some? {
      text := text + (" ROWS " + Digits(cap.value));
    } else {
      assert text + "" == text;
    }
    return Ok(text);
  }

  // ---------------------------------------------------------------------------
  // A reference server
  // ---------------------------------------------------------------------------

  datatype Query = Query(items: seq<Operand>, table: string, where: Option<Condition>, rows: Option<nat>)

  datatype Table = Table(columns: seq<string>, rows: seq<seq<Value>>)

  type Database = map<string, Table>

  function ParseRows(tokens: seq<Token>): Option<Option<nat>> {
    if tokens == [] then Some(None)
    else if |tokens| == 2 && tokens[0] == Word("ROWS") && tokens[1].Number? && AllDigits(tokens[1].digits) then
      Some(Some(NatOf(tokens[1].digits)))
    else None
  }

  /** FROM table [WHERE condition] [ROWS n] */
  function ParseFrom(items: seq<Operand>, from: seq<Token>): Option<Query> {
    if |from| < 2 || from[0] != Word("FROM") || !from[1].Ident? then None
    else if StartsWith(from[2..], Word("WHERE")) then
      var c :- ParseOr(from[3..]);
      var rows :- ParseRows(c.rest);
      Some(Query(items, from[1].name, Some(c.value), rows))
    else
      var rows :- ParseRows(from[2..]);
      Some(Query(items, from[1].name, None, rows))
  }

  function ParseQuery(tokens: seq<Token>): Option<Query> {
    if !StartsWith(tokens, Word("SELECT")) then None
    else
      var items :- ParseOperands(tokens[1..]);
      ParseFrom(items.value, items.rest)
  }

  predicate OperandResolves(x: Operand, columns: seq<string>) {
    x.Column? ==> x.name in columns
  }

  predicate ConditionResolves(c: Condition, columns: seq<string>) {
    match c
    case Compare(_, x, y) => OperandResolves(x, columns) && OperandResolves(y, columns)
    case NullTest(x, _) => OperandResolves(x, columns)
    case In(x, items) => OperandResolves(x, columns) && forall y :: y in items ==> OperandResolves(y, columns)
    case And(terms) => forall t :: t in terms ==> ConditionResolves(t, columns)
    case Or(terms) => forall t :: t in terms ==> ConditionResolves(t, columns)
  }

  function IndexOf(names: seq<string>, name: string): (i: nat)
    requires name in names
    ensures i < |names| && names[i] == name
  {
    if names[0] == name then 0 else 1 + IndexOf(names[1..], name)
  }

  function RowOf(columns: seq<string>, values: seq<Value>): Row
    requires |columns| == |values|
  {
    map n | n in columns :: values[IndexOf(columns, n)]
  }

  function SelectRows(rows: seq<seq<Value>>, keeps: seq<Value> -> bool): seq<seq<Value>> {
    if rows == [] then []
    else (if keeps(rows[0]) then [rows[0]] else []) + SelectRows(rows[1..], keeps)
  }

  function Take<T>(rows: seq<T>, n: nat): seq<T> {
    if n < |rows| then rows[..n] else rows
  }

  function Capped<T>(rows: seq<T>, cap: Option<nat>): seq<T> {
    if cap.None? then rows else Take(rows, cap.value)
  }

  function Project<A, B>(rows: seq<A>, f: A -> B): seq<B> {
    seq(|rows|, i requires 0 <= i < |rows| => f(rows[i]))
  }

  function Items(items: seq<Operand>, row: Row): seq<Value> {
    seq(|items|, i requires 0 <= i < |items| => OperandValue(items[i], row))
  }

  function RowFor(columns: seq<string>, values: seq<Value>): Row {
    if |columns| == |values| then RowOf(columns, values) else map[]
  }

  function QueryKeepsRow(q: Query, columns: seq<string>, values: seq<Value>, ord: Order): bool {
    q.where.None? || Eval(q.where.value, RowFor(columns, values), ord) == True
  }

  /** WHERE, then ROWS, then the select list, over the table's rows in their fixed order. */
  function RunQuery(db: Database, q: Query, ord: Order): Option<seq<seq<Value>>> {
    if q.table !in db then None
    else
      var t := db[q.table];
      if !(forall x :: x in q.items ==> OperandResolves(x, t.columns)) then None
      else if q.where.Some? && !ConditionResolves(q.where.value, t.columns) then None
      else
        var kept := SelectRows(t.rows, v => QueryKeepsRow(q, t.columns, v, ord));
        Some(Project(Capped(kept, q.rows), v => Items(q.items, RowFor(t.columns, v))))
  }

  /** What the server answers to a text. */
  function Answer(db: Database, sql: string, ord: Order): Option<seq<seq<Value>>> {
    var tokens :- Lex(sql);
    var q :- ParseQuery(tokens);
    RunQuery(db, q, ord)
  }

  // ---------------------------------------------------------------------------
  // The direct meaning of a scan, by position
  // ---------------------------------------------------------------------------

  ghost predicate PositionAccepts(s: Scan, e: FilterEntry, values: seq<Value>, ord: Order) {
    e.index < |s.ids| && s.ids[e.index] < |s.names| && s.ids[e.index] < |values| && Accepts(e.filter, values[s.ids[e.index]], ord)
  }

  ghost predicate ScanAccepts(s: Scan, values: seq<Value>, ord: Order) {
    forall e :: e in s.filters ==> PositionAccepts(s, e, values, ord)
  }

  /** A column of the table by position; the constant 1 stands in for any other. */
  function ScanValue(s: Scan, id: nat, values: seq<Value>): Value {
    if id < |s.names| && id < |values| then values[id] else Integer(1)
  }

  function ScanColumns(s: Scan, values: seq<Value>): seq<Value> {
    seq(|s.ids|, i requires 0 <= i < |s.ids| => ScanValue(s, s.ids[i], values))
  }

  ghost function AcceptedRows(s: Scan, rows: seq<seq<Value>>, ord: Order): seq<seq<Value>> {
    if rows == [] then []
    else (if ScanAccepts(s, rows[0], ord) then [rows[0]] else []) + AcceptedRows(s, rows[1..], ord)
  }

  /** The rows the scan stands for: those every filter accepts, in table order, projected. */
  ghost function ScanRows(s: Scan, t: Table, ord: Order): seq<seq<Value>> {
    Project(AcceptedRows(s, t.rows, ord), v => ScanColumns(s, v))
  }

  ghost predicate Distinct(names: seq<string>) {
    forall i, j :: 0 <= i < j < |names| ==> names[i] != names[j]
  }

  /** The scan is bound to a table of the database, by the table's own distinct names. */
  ghost predicate Bound(db: Database, s: Scan) {
    && s.table != "" && s.table in db && |s.names| <= 0xFFFF_FFFF_FFFF_FFFF
    && db[s.table].columns == s.names && Distinct(s.names)
    && (forall r :: r in db[s.table].rows ==> |r| == |s.names|)
    && WellFormed(s.names, s.ids, s.filters)
  }

  // ---------------------------------------------------------------------------
  // Reading the text back
  // ---------------------------------------------------------------------------

  function SelectOperand(names: seq<string>, id: nat): Operand {
    if IsVirtual(names, id) then Constant(Integer(1)) else Column(names[id])
  }

  function SelectOperands(names: seq<string>, ids: seq<nat>): seq<Operand> {
    if ids == [] then [Constant(Integer(1))]
    else seq(|ids|, i requires 0 <= i < |ids| => SelectOperand(names, ids[i]))
  }

  /** Of the columns a table can have, a projected one is selected by its own quoted name, any other as the constant 1. */
  lemma {:induction false} SelectedColumn(names: seq<string>, id: nat)
    requires |names| <= 0xFFFF_FFFF_FFFF_FFFF
    ensures id < |names| ==> SelectColumn(names, id) == QuoteIdentifier(names[id]) && SelectOperand(names, id) == Column(names[id])
    ensures id >= |names| ==> SelectColumn(names, id) == "1" && SelectOperand(names, id) == Constant(Integer(1))
  {
  }

  /** The select list: one item for each projected column, in order, or the constant 1 when nothing is projected. */
  lemma {:induction false} SelectItems(names: seq<string>, ids: seq<nat>)
    requires |names| <= 0xFFFF_FFFF_FFFF_FFFF
    ensures ids == [] ==> SelectList(names, ids) == ["1"]
    ensures ids != [] ==> |SelectList(names, ids)| == |ids|
    ensures forall i :: 0 <= i < |ids| ==>
              SelectList(names, ids)[i] == if ids[i] < |names| then QuoteIdentifier(names[ids[i]]) else "1"
  {
    forall i | 0 <= i < |ids|
      ensures SelectList(names, ids)[i] == if ids[i] < |names| then QuoteIdentifier(names[ids[i]]) else "1"
    {
      SelectedColumn(names, ids[i]);
    }
  }

  function OperandTokens(x: Operand): seq<Token> {
    if x.Column? then [Ident(x.name)] else [Number("1")]
  }

  function OperandLists(xs: seq<Operand>): seq<seq<Token>> {
    seq(|xs|, i requires 0 <= i < |xs| => OperandTokens(xs[i]))
  }

  lemma {:induction false} SelectListSound(names: seq<string>, ids: seq<nat>, i: nat)
    requires "" !in names && i < |SelectList(names, ids)|
    ensures |SelectOperands(names, ids)| == |SelectList(names, ids)|
    ensures LexesTo(SelectList(names, ids)[i], OperandLists(SelectOperands(names, ids))[i])
    ensures ParsesToOperand(OperandLists(SelectOperands(names, ids))[i], SelectOperands(names, ids)[i])
  {
    var x := SelectOperands(names, ids)[i];
    DigitsAreANumber("1");
    LexNumber("1");
    if x.Column? {
      LexIdentifier(x.name);
    }
    forall rest
      ensures ParseOperand(OperandTokens(x) + rest) == Some(Parsed(x, rest))
    {
      assert (OperandTokens(x) + rest)[1..] == rest;
      assert "1"[..0] == "" && NatOf("1") == 1;
    }
  }

  function SelectTokens(s: Scan): seq<Token> {
    [Word("SELECT")] + JoinTokens(OperandLists(SelectOperands(s.names, s.ids)), COMMA) + [Word("FROM")] + [Ident(s.table)]
  }

  lemma {:induction false} LexSelect(s: Scan)
    requires "" !in s.names && s.table != ""
    ensures LexesTo(SelectText(s), SelectTokens(s))
  {
    var list, lists := SelectList(s.names, s.ids), OperandLists(SelectOperands(s.names, s.ids));
    assert |list| == |lists|;
    forall i | 0 <= i < |list|
      ensures LexesTo(list[i], lists[i])
    {
      SelectListSound(s.names, s.ids, i);
    }
    LexComma();
    LexJoin(list, lists, ",", COMMA);
    assert ", " == "," + " ";
    var items, tokens := Join(list, ", "), JoinTokens(lists, COMMA);
    LexWord("SELECT");
    LexWord("FROM");
    LexIdentifier(s.table);
    LexThree("SELECT", [Word("SELECT")], items, tokens, "FROM", [Word("FROM")]);
    LexTwo("SELECT" + " " + items + " " + "FROM", [Word("SELECT")] + tokens + [Word("FROM")],
           QuoteIdentifier(s.table), [Ident(s.table)]);
    assert "SELECT " + items + " FROM " + QuoteIdentifier(s.table)
        == "SELECT" + " " + items + " " + "FROM" + " " + QuoteIdentifier(s.table);
  }

  function RowsTokens(cap: Option<nat>): seq<Token> {
    if cap.None? then [] else [Word("ROWS"), Number(Digits(cap.value))]
  }

  lemma {:induction false} LexRows(text: string, tokens: seq<Token>, cap: Option<nat>)
    requires LexesTo(text, tokens)
    ensures Lex(text + RowsClause(cap)) == Some(tokens + RowsTokens(cap))
  {
    if cap.None? {
      assert text + "" == text && tokens + [] == tokens;
      LexesWhole(text, tokens);
    } else {
      var digits := Digits(cap.value);
      DigitsAreANumber(digits);
      LexNumber(digits);
      LexWord("ROWS");
      LexThree(text, tokens, "ROWS", [Word("ROWS")], digits, [Number(digits)]);
      assert text + (" ROWS " + digits) == text + " " + "ROWS" + " " + digits;
      assert tokens + [Word("ROWS"), Number(digits)] == tokens + [Word("ROWS")] + [Number(digits)];
      LexesWhole(text + RowsClause(cap), tokens + RowsTokens(cap));
    }
  }

  lemma {:induction false} ReadRows(cap: Option<nat>)
    ensures ParseRows(RowsTokens(cap)) == Some(cap)
    ensures !StartsWith(RowsTokens(cap), Word("AND")) && !StartsWith(RowsTokens(cap), Word("OR"))
    ensures !StartsWith(RowsTokens(cap), Word("WHERE"))
  {
    if cap.Some? {
      DigitsRoundTrip(cap.value);
    }
  }

  /** The condition of the WHERE clause a scan emits, if any. */
  function ScanCondition(s: Scan): Option<Condition>
    requires forall e :: e in Kept(s.filters) ==> ClauseGroup(s.names, s.ids, e) != []
  {
    var clauses := AllGroups(s.names, s.ids, Kept(s.filters));
    if clauses == [] then None else Some(ConditionOf(WeldAll(clauses)))
  }

  function ScanQueryOf(s: Scan, cap: Option<nat>): Query
    requires forall e :: e in Kept(s.filters) ==> ClauseGroup(s.names, s.ids, e) != []
  {
    Query(SelectOperands(s.names, s.ids), s.table, ScanCondition(s), cap)
  }

  ghost predicate WhereTokens(where: Option<Condition>, tokens: seq<Token>, rest: seq<Token>) {
    if where.None? then tokens == []
    else StartsWith(tokens, Word("WHERE")) && ParseOr(tokens[1..] + rest) == Some(Parsed(where.value, rest))
  }

  lemma {:induction false} ReadFrom(items: seq<Operand>, table: string, where: Option<Condition>, tokens: seq<Token>, cap: Option<nat>)
    requires WhereTokens(where, tokens, RowsTokens(cap))
    ensures ParseFrom(items, [Word("FROM"), Ident(table)] + (tokens + RowsTokens(cap))) == Some(Query(items, table, where, cap))
  {
    var from := [Word("FROM"), Ident(table)] + (tokens + RowsTokens(cap));
    ReadRows(cap);
    assert from[2..] == tokens + RowsTokens(cap);
    if where.Some? {
      assert from[3..] == tokens[1..] + RowsTokens(cap);
    } else {
      assert from[2..] == RowsTokens(cap);
    }
  }

  lemma {:induction false} ReadItems(s: Scan, rest: seq<Token>)
    requires "" !in s.names && !StartsWith(rest, Symbol(","))
    ensures ParseOperands(JoinTokens(OperandLists(SelectOperands(s.names, s.ids)), COMMA) + rest)
         == Some(Parsed(SelectOperands(s.names, s.ids), rest))
  {
    var xs := SelectOperands(s.names, s.ids);
    forall i | 0 <= i < |xs|
      ensures ParsesToOperand(OperandLists(xs)[i], xs[i])
    {
      SelectListSound(s.names, s.ids, i);
    }
    ParseOperandList(OperandLists(xs), xs, rest);
  }

  lemma {:induction false} ParseSelect(s: Scan, where: Option<Condition>, tokens: seq<Token>, cap: Option<nat>)
    requires "" !in s.names
    requires WhereTokens(where, tokens, RowsTokens(cap))
    ensures ParseQuery(SelectTokens(s) + tokens + RowsTokens(cap))
         == Some(Query(SelectOperands(s.names, s.ids), s.table, where, cap))
  {
    var xs := SelectOperands(s.names, s.ids);
    var from := [Word("FROM"), Ident(s.table)] + (tokens + RowsTokens(cap));
    var all := SelectTokens(s) + tokens + RowsTokens(cap);
    assert all[0] == Word("SELECT") && all[1..] == JoinTokens(OperandLists(xs), COMMA) + from;
    ReadItems(s, from);
    ReadFrom(xs, s.table, where, tokens, cap);
  }

  lemma {:induction false} KeptHaveGroups(s: Scan)
    requires WellFormed(s.names, s.ids, s.filters)
    ensures forall e :: e in Kept(s.filters) ==> ClauseGroup(s.names, s.ids, e) != []
  {
    KeptEntries(s.filters);
    forall e | e in Kept(s.filters)
      ensures ClauseGroup(s.names, s.ids, e) != []
    {
      GroupsSound(e.filter, NameOf(s.names, s.ids, e));
    }
  }

  function ScanWhereTokens(s: Scan): seq<Token>
    requires forall e :: e in Kept(s.filters) ==> ClauseGroup(s.names, s.ids, e) != []
  {
    var clauses := AllGroups(s.names, s.ids, Kept(s.filters));
    if clauses == [] then [] else [Word("WHERE")] + TokensOf(WeldAll(clauses))
  }

  lemma {:induction false} LexSelectWhere(s: Scan)
    requires WellFormed(s.names, s.ids, s.filters) && s.table != ""
    requires Kept(s.filters) != []
    ensures forall e :: e in Kept(s.filters) ==> ClauseGroup(s.names, s.ids, e) != []
    ensures Clauses(s.names, s.ids, s.filters).Ok?
    ensures LexesTo(SelectText(s) + Where(Clauses(s.names, s.ids, s.filters).value), SelectTokens(s) + ScanWhereTokens(s))
  {
    KeptHaveGroups(s);
    ClausesOfEntries(s.names, s.ids, s.filters);
    LexSelect(s);
    SoundEntries(s.names, s.ids, s.filters);
    var clauses := AllGroups(s.names, s.ids, Kept(s.filters));
    WeldAllSound(clauses);
    var w := WeldAll(clauses);
    LexGroups(w);
    LexFollowedByWhere(SelectText(s), SelectTokens(s), TextOf(w), TokensOf(w));
    assert |Clauses(s.names, s.ids, s.filters).value| == |clauses|;
  }

  lemma {:induction false} LexFollowedByWhere(select: string, selectTokens: seq<Token>, text: string, tokens: seq<Token>)
    requires LexesTo(select, selectTokens) && LexesTo(text, tokens)
    ensures LexesTo(select + (" WHERE " + text), selectTokens + ([Word("WHERE")] + tokens))
  {
    LexWord("WHERE");
    LexThree(select, selectTokens, "WHERE", [Word("WHERE")], text, tokens);
    assert " WHERE " == " " + "WHERE" + " ";
    assert select + (" WHERE " + text) == select + " " + "WHERE" + " " + text;
    assert selectTokens + ([Word("WHERE")] + tokens) == selectTokens + [Word("WHERE")] + tokens;
  }

  lemma {:induction false} LexScan(s: Scan, cap: Option<nat>)
    requires WellFormed(s.names, s.ids, s.filters) && s.table != ""
    ensures forall e :: e in Kept(s.filters) ==> ClauseGroup(s.names, s.ids, e) != []
    ensures ScanSql(s, cap).Ok?
    ensures Lex(ScanSql(s, cap).value) == Some(SelectTokens(s) + ScanWhereTokens(s) + RowsTokens(cap))
  {
    KeptHaveGroups(s);
    ClausesOfEntries(s.names, s.ids, s.filters);
    if Kept(s.filters) == [] {
      LexSelect(s);
      assert SelectText(s) + "" == SelectText(s) && SelectTokens(s) + [] == SelectTokens(s);
      LexRows(SelectText(s), SelectTokens(s), cap);
    } else {
      LexSelectWhere(s);
      LexRows(SelectText(s) + Where(Clauses(s.names, s.ids, s.filters).value), SelectTokens(s) + ScanWhereTokens(s), cap);
    }
  }

  lemma {:induction false} ParseScanWhere(s: Scan, cap: Option<nat>)
    requires WellFormed(s.names, s.ids, s.filters)
    ensures forall e :: e in Kept(s.filters) ==> ClauseGroup(s.names, s.ids, e) != []
    ensures WhereTokens(ScanCondition(s), ScanWhereTokens(s), RowsTokens(cap))
  {
    KeptHaveGroups(s);
    var clauses := AllGroups(s.names, s.ids, Kept(s.filters));
    if clauses != [] {
      SoundEntries(s.names, s.ids, s.filters);
      WeldAllSound(clauses);
      ReadRows(cap);
      ParseGroups(WeldAll(clauses), RowsTokens(cap));
      assert ScanWhereTokens(s)[1..] == TokensOf(WeldAll(clauses));
    }
  }

  /** The whole text of a scan reads back as its query. */
  lemma {:induction false} ScanSqlReads(s: Scan, cap: Option<nat>)
    requires WellFormed(s.names, s.ids, s.filters) && s.table != ""
    ensures forall e :: e in Kept(s.filters) ==> ClauseGroup(s.names, s.ids, e) != []
    ensures ScanSql(s, cap).Ok? && Lex(ScanSql(s, cap).value).Some?
    ensures ParseQuery(Lex(ScanSql(s, cap).value).value) == Some(ScanQueryOf(s, cap))
  {
    LexScan(s, cap);
    ParseScanWhere(s, cap);
    ParseSelect(s, ScanCondition(s), ScanWhereTokens(s), cap);
  }

  // ---------------------------------------------------------------------------
  // Every name in the text resolves
  // ---------------------------------------------------------------------------

  ghost predicate GroupResolves(g: Group, columns: seq<string>) {
    forall i :: 0 <= i < |g| ==> ConditionResolves(g[i].condition, columns)
  }

  ghost predicate GroupsResolve(groups: seq<Group>, columns: seq<string>) {
    forall i :: 0 <= i < |groups| ==> GroupResolves(groups[i], columns)
  }

  lemma {:induction false} ConditionOfResolves(groups: seq<Group>, columns: seq<string>)
    requires GroupsResolve(groups, columns)
    ensures ConditionResolves(ConditionOf(groups), columns)
  {
    forall i | 0 <= i < |groups|
      ensures ConditionResolves(GroupConditions(groups)[i], columns)
    {
      assert GroupResolves(groups[i], columns);
      assert forall t :: t in Conditions(groups[i]) ==> ConditionResolves(t, columns);
    }
  }

  lemma {:induction false} FilterResolves(f: Filter, name: string, columns: seq<string>)
    requires name in columns
    ensures GroupsResolve(GroupsOf(f, name), columns)
    decreases f, 1
  {
    if f.ConjunctionAnd? || f.ConjunctionOr? {
      PrimariesResolve(f.children, name, columns);
    }
  }

  lemma {:induction false} PrimariesResolve(children: seq<Filter>, name: string, columns: seq<string>)
    requires name in columns
    ensures GroupResolves(KeptPrimaries(children, name), columns)
    decreases children, 0
  {
    if children != [] {
      PrimariesResolve(children[1..], name, columns);
      FilterResolves(children[0], name, columns);
      ConditionOfResolves(GroupsOf(children[0], name), columns);
    }
  }

  lemma {:induction false} WeldAllResolves(clauses: seq<seq<Group>>, columns: seq<string>)
    requires clauses != [] && forall i :: 0 <= i < |clauses| ==> clauses[i] != [] && GroupsResolve(clauses[i], columns)
    ensures GroupsResolve(WeldAll(clauses), columns)
  {
    if |clauses| > 1 {
      WeldAllResolves(clauses[1..], columns);
      var a, b := clauses[0], WeldAll(clauses[1..]);
      var w := Welded(a, b);
      forall i | 0 <= i < |w|
        ensures GroupResolves(w[i], columns)
      {
        assert GroupResolves(a[|a| - 1], columns) && GroupResolves(b[0], columns);
        if i < |a| - 1 {
          assert w[i] == a[i];
        } else if i >= |a| {
          assert w[i] == b[i - |a| + 1];
        }
      }
    }
  }

  lemma {:induction false} ScanResolves(s: Scan)
    requires WellFormed(s.names, s.ids, s.filters)
    ensures forall e :: e in Kept(s.filters) ==> ClauseGroup(s.names, s.ids, e) != []
    ensures ScanCondition(s).Some? ==> ConditionResolves(ScanCondition(s).value, s.names)
    ensures forall x :: x in SelectOperands(s.names, s.ids) ==> OperandResolves(x, s.names)
  {
    KeptHaveGroups(s);
    KeptEntries(s.filters);
    var kept := Kept(s.filters);
    var clauses := AllGroups(s.names, s.ids, kept);
    if clauses != [] {
      forall i | 0 <= i < |clauses|
        ensures clauses[i] != [] && GroupsResolve(clauses[i], s.names)
      {
        assert kept[i] in kept;
        FilterResolves(kept[i].filter, NameOf(s.names, s.ids, kept[i]), s.names);
      }
      WeldAllResolves(clauses, s.names);
      ConditionOfResolves(WeldAll(clauses), s.names);
    }
  }

  // ---------------------------------------------------------------------------
  // Rows by name and rows by position
  // ---------------------------------------------------------------------------

  lemma {:induction false} IndexOfDistinct(names: seq<string>, i: nat)
    requires Distinct(names) && i < |names|
    ensures IndexOf(names, names[i]) == i
  {
    if i > 0 {
      assert names[0] != names[i];
      IndexOfDistinct(names[1..], i - 1);
    }
  }

  lemma {:induction false} RowByName(s: Scan, values: seq<Value>, id: nat)
    requires Distinct(s.names) && |values| == |s.names| && id < |s.names|
    ensures s.names[id] in RowFor(s.names, values) && RowFor(s.names, values)[s.names[id]] == values[id]
  {
    IndexOfDistinct(s.names, id);
  }

  lemma {:induction false} AcceptsByPosition(s: Scan, values: seq<Value>, ord: Order)
    requires Distinct(s.names) && |values| == |s.names| <= 0xFFFF_FFFF_FFFF_FFFF && WellFormed(s.names, s.ids, s.filters)
    ensures RowAccepted(s.names, s.ids, s.filters, RowFor(s.names, values), ord) <==> ScanAccepts(s, values, ord)
  {
    forall e | e in s.filters
      ensures EntryAccepts(s.names, s.ids, e, RowFor(s.names, values), ord) <==> PositionAccepts(s, e, values, ord)
    {
      RealColumnsResolve(s.names, s.ids, e);
      RowByName(s, values, s.ids[e.index]);
    }
  }

  lemma {:induction false} ItemsByPosition(s: Scan, values: seq<Value>)
    requires Distinct(s.names) && |values| == |s.names| <= 0xFFFF_FFFF_FFFF_FFFF
    ensures |Items(SelectOperands(s.names, s.ids), RowFor(s.names, values))| >= |s.ids|
    ensures Items(SelectOperands(s.names, s.ids), RowFor(s.names, values))[..|s.ids|] == ScanColumns(s, values)
  {
    var items := Items(SelectOperands(s.names, s.ids), RowFor(s.names, values));
    forall i | 0 <= i < |s.ids|
      ensures items[i] == ScanValue(s, s.ids[i], values)
    {
      SelectedColumn(s.names, s.ids[i]);
      if s.ids[i] < |s.names| {
        RowByName(s, values, s.ids[i]);
      }
    }
  }

  lemma {:induction false} SelectsAccepted(s: Scan, rows: seq<seq<Value>>, keeps: seq<Value> -> bool, ord: Order)
    requires forall r :: r in rows ==> (keeps(r) <==> ScanAccepts(s, r, ord))
    ensures SelectRows(rows, keeps) == AcceptedRows(s, rows, ord)
  {
    if rows != [] {
      assert rows[0] in rows && forall r :: r in rows[1..] ==> r in rows;
      SelectsAccepted(s, rows[1..], keeps, ord);
    }
  }

  lemma {:induction false} AcceptedAreRows(s: Scan, rows: seq<seq<Value>>, ord: Order)
    ensures forall r :: r in AcceptedRows(s, rows, ord) ==> r in rows
  {
    if rows != [] {
      AcceptedAreRows(s, rows[1..], ord);
    }
  }

  /** What the scan reads of each server row: its first columns, one per projected column. */
  function Fetched(rows: Option<seq<seq<Value>>>, width: nat): Option<seq<seq<Value>>> {
    if rows.None? then None else Some(Project(rows.value, r => Take(r, width)))
  }

  /** The query keeps exactly the accepted rows of the table. */
  lemma {:induction false} QueryKeeps(db: Database, s: Scan, cap: Option<nat>, values: seq<Value>, ord: Order)
    requires Bound(db, s) && JoinIsSafe(s.filters) && NoEmptyOrs(s.filters) && OrdersIntegers(ord)
    requires |values| == |s.names|
    ensures forall e :: e in Kept(s.filters) ==> ClauseGroup(s.names, s.ids, e) != []
    ensures QueryKeepsRow(ScanQueryOf(s, cap), s.names, values, ord) <==> ScanAccepts(s, values, ord)
  {
    KeptHaveGroups(s);
    var row := RowFor(s.names, values);
    assert CoversNames(s.names, row);
    WhereIsExact(s.names, s.ids, s.filters, row, ord);
    WhereKeepsGroups(s.names, s.ids, s.filters, row, ord);
    AcceptsByPosition(s, values, ord);
    var clauses := AllGroups(s.names, s.ids, Kept(s.filters));
    if clauses != [] {
      EvalGroups(WeldAll(clauses), row, ord);
    }
  }

  /** One row of the server's answer. */
  function ServerRow(s: Scan, values: seq<Value>): seq<Value> {
    Items(SelectOperands(s.names, s.ids), RowFor(s.names, values))
  }

  /** The server's answer to a scan's text, before it is cut to the projected columns. */
  lemma {:induction false} AnswerToScan(db: Database, s: Scan, cap: Option<nat>, ord: Order)
    requires Bound(db, s) && JoinIsSafe(s.filters) && NoEmptyOrs(s.filters) && OrdersIntegers(ord)
    ensures forall e :: e in Kept(s.filters) ==> ClauseGroup(s.names, s.ids, e) != []
    ensures RunQuery(db, ScanQueryOf(s, cap), ord)
         == Some(Project(Capped(AcceptedRows(s, db[s.table].rows, ord), cap), v => ServerRow(s, v)))
  {
    ScanResolves(s);
    var rows := db[s.table].rows;
    var q := ScanQueryOf(s, cap);
    var keeps := v => QueryKeepsRow(q, db[s.table].columns, v, ord);
    forall r | r in rows
      ensures keeps(r) <==> ScanAccepts(s, r, ord)
    {
      QueryKeeps(db, s, cap, r, ord);
    }
    SelectsAccepted(s, rows, keeps, ord);
    var kept := Capped(AcceptedRows(s, rows, ord), cap);
    assert Project(kept, v => Items(q.items, RowFor(db[s.table].columns, v))) == Project(kept, v => ServerRow(s, v));
  }

  lemma {:induction false} ProjectByPosition(s: Scan, rows: seq<seq<Value>>, cap: Option<nat>)
    requires Distinct(s.names) && |s.names| <= 0xFFFF_FFFF_FFFF_FFFF && forall r :: r in rows ==> |r| == |s.names|
    ensures Project(Project(Capped(rows, cap), v => ServerRow(s, v)), r => Take(r, |s.ids|))
         == Capped(Project(rows, v => ScanColumns(s, v)), cap)
  {
    forall i | 0 <= i < |rows|
      ensures Take(ServerRow(s, rows[i]), |s.ids|) == ScanColumns(s, rows[i])
    {
      assert rows[i] in rows;
      ItemsByPosition(s, rows[i]);
    }
  }

  /**
   * The text of a scan is exact: the server's answer, cut to the projected columns, is the direct meaning of the
   * scan, capped. Because ROWS cuts right after WHERE, this needs the WHERE clause to be exact.
   */
  lemma {:induction false} ScanIsExact(db: Database, s: Scan, cap: Option<nat>, ord: Order)
    requires Bound(db, s) && JoinIsSafe(s.filters) && NoEmptyOrs(s.filters) && OrdersIntegers(ord)
    ensures ScanSql(s, cap).Ok?
    ensures Fetched(Answer(db, ScanSql(s, cap).value, ord), |s.ids|) == Some(Capped(ScanRows(s, db[s.table], ord), cap))
  {
    ScanSqlReads(s, cap);
    AnswerToScan(db, s, cap, ord);
    AcceptedAreRows(s, db[s.table].rows, ord);
    ProjectByPosition(s, AcceptedRows(s, db[s.table].rows, ord), cap);
  }
}
