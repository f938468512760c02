/** The WHERE clause of a scan: one clause a filtered column, joined with a bare AND. */
module WhereClause {
  import opened ClauseGroups
  import opened EmptyOrs
  import opened FilterClauses
  import opened SqlConditions
  import opened SqlText
  import opened SqlValues
  import opened TableFilters
  import opened Wrappers

  const ROW_ID: nat := 0xFFFF_FFFF_FFFF_FFFF

  /** One entry of the filter set: an index into the projected columns, and the filter on that column. */
  datatype FilterEntry = FilterEntry(index: nat, filter: Filter)

  /** A projected column that is no real column: the row id, or an id past the bound names. */
  predicate IsVirtual(names: seq<string>, id: nat) {
    id == ROW_ID || id >= |names|
  }

  function ResolvedName(names: seq<string>, ids: seq<nat>, e: FilterEntry): Result<string, PushdownError> {
    if e.index >= |ids| then Err(UnknownColumn)
    else if IsVirtual(names, ids[e.index]) then Err(VirtualColumn)
    else Ok(names[ids[e.index]])
  }

  function Clauses(names: seq<string>, ids: seq<nat>, filters: seq<FilterEntry>): Result<seq<string>, PushdownError> {
    if filters == [] then Ok([])
    else
      match ResolvedName(names, ids, filters[0])
      case Err(e) => Err(e)
      case Ok(name) =>
        match Translate(filters[0].filter, QuoteIdentifier(name))
        case Throws(e) => Err(e)
        case Skipped => Clauses(names, ids, filters[1..])
        case Text(clause) => Push(clause, Clauses(names, ids, filters[1..]))
  }

  function Where(clauses: seq<string>): string {
    if clauses == [] then "" else " WHERE " + Join(clauses, " AND ")
  }

  method BuildWhereClause(names: seq<string>, ids: seq<nat>, filters: seq<FilterEntry>)
    returns (r: Result<string, PushdownError>)
    ensures var c := Clauses(names, ids, filters);
            r == if c.Ok? then Ok(Where(c.value)) else Err(c.error)
  {
    if filters == [] {
      return Ok("");
    }
    var clauses := [];
    ghost var all := Clauses(names, ids, filters);
    assert filters[0..] == filters && (all.Ok? ==> clauses + all.value == all.value);
    for i := 0 to |filters|
      invariant Clauses(names, ids, filters) == PushAll(clauses, Clauses(names, ids, filters[i..]))
    {
      assert filters[i..][0] == filters[i] && filters[i..][1..] == filters[i + 1..];
      var name := ResolvedName(names, ids, filters[i]);
      if name.Err? {
        return Err(name.error);
      }
      var clause := TranslateFilter(filters[i].filter, QuoteIdentifier(name.value));
      if clause.Throws? {
        return Err(clause.error);
      }
      if clause.Text? {
        ghost var rest := Clauses(names, ids, filters[i + 1..]);
        assert rest.Ok? ==> clauses + ([clause.text] + rest.value) == clauses + [clause.text] + rest.value;
        clauses := clauses + [clause.text];
      }
    }
    assert clauses + [] == clauses;
    if clauses == [] {
      return Ok("");
    }
    return Ok(" WHERE " + Join(clauses, " AND "));
  }

  // ---------------------------------------------------------------------------
  // The direct meaning of a filter set
  // ---------------------------------------------------------------------------

  predicate Resolves(names: seq<string>, ids: seq<nat>, e: FilterEntry) {
    e.index < |ids| && !IsVirtual(names, ids[e.index])
  }

  function NameOf(names: seq<string>, ids: seq<nat>, e: FilterEntry): string
    requires Resolves(names, ids, e)
  {
    names[ids[e.index]]
  }

  /** Of the columns a table can have, the real ones are exactly those with an id below their number. */
  lemma {:induction false} RealColumnsResolve(names: seq<string>, ids: seq<nat>, e: FilterEntry)
    requires |names| <= 0xFFFF_FFFF_FFFF_FFFF
    ensures e.index >= |ids| ==> ResolvedName(names, ids, e) == Err(UnknownColumn)
    ensures e.index < |ids| && ids[e.index] >= |names| ==> ResolvedName(names, ids, e) == Err(VirtualColumn)
    ensures e.index < |ids| && ids[e.index] < |names| ==> ResolvedName(names, ids, e) == Ok(names[ids[e.index]])
    ensures Resolves(names, ids, e) <==> e.index < |ids| && ids[e.index] < |names|
  {
  }

  /** Every filter resolves to a column and can be represented. */
  predicate Pushable(names: seq<string>, ids: seq<nat>, filters: seq<FilterEntry>) {
    forall e :: e in filters ==> Resolves(names, ids, e) && Representable(e.filter)
  }

  ghost predicate EntryAccepts(names: seq<string>, ids: seq<nat>, e: FilterEntry, row: Row, ord: Order) {
    Resolves(names, ids, e) && NameOf(names, ids, e) in row && Accepts(e.filter, row[NameOf(names, ids, e)], ord)
  }

  ghost predicate RowAccepted(names: seq<string>, ids: seq<nat>, filters: seq<FilterEntry>, row: Row, ord: Order) {
    forall e :: e in filters ==> EntryAccepts(names, ids, e, row, ord)
  }

  /** What the emitted text makes of a row: every filter with whatever erases read as TRUE. */
  ghost predicate EntryMeans(names: seq<string>, ids: seq<nat>, e: FilterEntry, row: Row, ord: Order) {
    Resolves(names, ids, e) && NameOf(names, ids, e) in row && Means(e.filter, row[NameOf(names, ids, e)], ord)
  }

  ghost predicate RowMeant(names: seq<string>, ids: seq<nat>, filters: seq<FilterEntry>, row: Row, ord: Order) {
    forall e :: e in filters ==> EntryMeans(names, ids, e, row, ord)
  }

  ghost predicate EntryLeaks(names: seq<string>, ids: seq<nat>, e: FilterEntry, row: Row, ord: Order) {
    Resolves(names, ids, e) && NameOf(names, ids, e) in row && Leaks(e.filter, row[NameOf(names, ids, e)], ord)
  }

  /** The assumptions on a filter set: pushable, over named columns. */
  predicate WellFormed(names: seq<string>, ids: seq<nat>, filters: seq<FilterEntry>) {
    Pushable(names, ids, filters) && "" !in names
  }

  predicate NoEmptyOrs(filters: seq<FilterEntry>) {
    forall e :: e in filters ==> NonEmptyOrs(e.filter)
  }

  ghost predicate CoversNames(names: seq<string>, row: Row) {
    forall n :: n in names ==> n in row
  }

  /** The entries that contribute a clause. */
  function Kept(filters: seq<FilterEntry>): seq<FilterEntry> {
    if filters == [] then []
    else (if Erases(filters[0].filter) then [] else [filters[0]]) + Kept(filters[1..])
  }

  predicate IsMultiBranchOr(f: Filter) {
    f.ConjunctionOr? && |f.children| >= 2
  }

  /** The guard under which a bare AND between clauses is harmless. */
  predicate JoinIsSafe(filters: seq<FilterEntry>) {
    |Kept(filters)| <= 1 || forall e :: e in Kept(filters) ==> !IsMultiBranchOr(e.filter)
  }

  lemma {:induction false} KeptEntries(filters: seq<FilterEntry>)
    ensures forall e :: e in Kept(filters) <==> e in filters && !Erases(e.filter)
  {
    if filters != [] {
      KeptEntries(filters[1..]);
      assert filters == [filters[0]] + filters[1..];
    }
  }

  lemma {:induction false} KeptWellFormed(names: seq<string>, ids: seq<nat>, filters: seq<FilterEntry>)
    requires WellFormed(names, ids, filters)
    ensures WellFormed(names, ids, Kept(filters))
    ensures forall e :: e in Kept(filters) ==> !Erases(e.filter) && Resolves(names, ids, e)
  {
    KeptEntries(filters);
  }

  // ---------------------------------------------------------------------------
  // Clauses as groups
  // ---------------------------------------------------------------------------

  function ClauseGroup(names: seq<string>, ids: seq<nat>, e: FilterEntry): seq<Group> {
    if Resolves(names, ids, e) then GroupsOf(e.filter, NameOf(names, ids, e)) else []
  }

  function AllGroups(names: seq<string>, ids: seq<nat>, entries: seq<FilterEntry>): seq<seq<Group>> {
    seq(|entries|, i requires 0 <= i < |entries| => ClauseGroup(names, ids, entries[i]))
  }

  function ClauseTexts(clauses: seq<seq<Group>>): seq<string> {
    seq(|clauses|, i requires 0 <= i < |clauses| => TextOf(clauses[i]))
  }

  ghost predicate SoundClauses(clauses: seq<seq<Group>>) {
    clauses != [] && forall i :: 0 <= i < |clauses| ==> SoundGroups(clauses[i])
  }

  function WeldAll(clauses: seq<seq<Group>>): (r: seq<Group>)
    requires clauses != [] && forall i :: 0 <= i < |clauses| ==> clauses[i] != []
    ensures r != []
  {
    if |clauses| == 1 then clauses[0] else Welded(clauses[0], WeldAll(clauses[1..]))
  }

  lemma {:induction false} ClauseTextsCons(clause: seq<Group>, more: seq<seq<Group>>)
    ensures ClauseTexts([clause] + more) == [TextOf(clause)] + ClauseTexts(more)
  {
  }

  lemma {:induction false} AllGroupsCons(names: seq<string>, ids: seq<nat>, e: FilterEntry, more: seq<FilterEntry>)
    ensures AllGroups(names, ids, [e] + more) == [ClauseGroup(names, ids, e)] + AllGroups(names, ids, more)
  {
  }

  /** The clauses' texts: they exist exactly for a pushable filter set. */
  lemma {:induction false} ClausesOfEntries(names: seq<string>, ids: seq<nat>, filters: seq<FilterEntry>)
    ensures var c := Clauses(names, ids, filters);
            && (c.Ok? <==> Pushable(names, ids, filters))
            && (c.Ok? ==> c.value == ClauseTexts(AllGroups(names, ids, Kept(filters))))
  {
    if filters == [] {
      assert ClauseTexts(AllGroups(names, ids, Kept(filters))) == [];
    } else {
      var e, more := filters[0], filters[1..];
      ClausesOfEntries(names, ids, more);
      assert filters == [e] + more;
      if Resolves(names, ids, e) {
        TranslationOutcomes(e.filter, QuoteIdentifier(NameOf(names, ids, e)));
        if Representable(e.filter) && !Erases(e.filter) {
          TextOfFilter(e.filter, NameOf(names, ids, e));
          AllGroupsCons(names, ids, e, Kept(more));
          ClauseTextsCons(ClauseGroup(names, ids, e), AllGroups(names, ids, Kept(more)));
        } else {
          assert Erases(e.filter) ==> Kept(filters) == Kept(more);
        }
      }
    }
  }

  /** The exception a filter alone throws: of its column, or of its translation. */
  ghost predicate EntryThrows(names: seq<string>, ids: seq<nat>, e: FilterEntry, error: PushdownError) {
    match ResolvedName(names, ids, e)
    case Err(unresolved) => error == unresolved
    case Ok(name) => Translate(e.filter, QuoteIdentifier(name)) == Throws(error)
  }

  ghost predicate FirstThrows(names: seq<string>, ids: seq<nat>, filters: seq<FilterEntry>, error: PushdownError, i: nat) {
    i < |filters| && EntryThrows(names, ids, filters[i], error)
    && forall j :: 0 <= j < i ==> forall other :: !EntryThrows(names, ids, filters[j], other)
  }

  /** The exception of a filter set is that of its first filter that throws one. */
  lemma {:induction false} FirstExceptionWins(names: seq<string>, ids: seq<nat>, filters: seq<FilterEntry>) returns (i: nat)
    ensures var c := Clauses(names, ids, filters);
            if c.Err? then FirstThrows(names, ids, filters, c.error, i)
            else forall e, other :: e in filters ==> !EntryThrows(names, ids, e, other)
    decreases |filters|
  {
    i := 0;
    if filters != [] {
      var c, more := Clauses(names, ids, filters), Clauses(names, ids, filters[1..]);
      i := FirstExceptionWins(names, ids, filters[1..]);
      assert filters == [filters[0]] + filters[1..];
      if c.Err? && EntryThrows(names, ids, filters[0], c.error) {
        i := 0;
      } else {
        assert forall other :: !EntryThrows(names, ids, filters[0], other);
        assert c.Err? ==> more.Err? && c.error == more.error;
        i := i + 1;
      }
    }
  }

  lemma {:induction false} SoundEntries(names: seq<string>, ids: seq<nat>, filters: seq<FilterEntry>)
    requires WellFormed(names, ids, filters) && Kept(filters) != []
    ensures SoundClauses(AllGroups(names, ids, Kept(filters)))
  {
    KeptEntries(filters);
    var kept := Kept(filters);
    forall i | 0 <= i < |kept|
      ensures SoundGroups(AllGroups(names, ids, kept)[i])
    {
      assert kept[i] in filters;
      GroupsSound(kept[i].filter, NameOf(names, ids, kept[i]));
    }
  }

  lemma {:induction false} WeldAllSound(clauses: seq<seq<Group>>)
    requires SoundClauses(clauses)
    ensures SoundGroups(WeldAll(clauses))
    ensures Join(ClauseTexts(clauses), " AND ") == TextOf(WeldAll(clauses))
  {
    if |clauses| == 1 {
      assert SoundGroups(clauses[0]);
    } else {
      var a, b := clauses[0], WeldAll(clauses[1..]);
      WeldAllSound(clauses[1..]);
      assert ClauseTexts(clauses)[1..] == ClauseTexts(clauses[1..]);
      assert SoundGroups(a) && SoundGroup(a[|a| - 1]) && SoundGroup(b[0]);
      WeldedText(a, b);
      WeldedSound(a, b);
    }
  }

  lemma {:induction false} WeldedSound(a: seq<Group>, b: seq<Group>)
    requires SoundGroups(a) && SoundGroups(b)
    ensures SoundGroups(Welded(a, b))
  {
    var w := Welded(a, b);
    forall i | 0 <= i < |w|
      ensures SoundGroup(w[i])
    {
      assert SoundGroup(a[|a| - 1]) && SoundGroup(b[0]);
      if i < |a| - 1 {
        assert w[i] == a[i];
      } else if i >= |a| {
        assert w[i] == b[i - |a| + 1];
      }
    }
  }

  /** What the whole WHERE text means: its clauses, with the groups on either side of each AND welded. */
  lemma {:induction false} WhereReads(names: seq<string>, ids: seq<nat>, filters: seq<FilterEntry>)
    requires WellFormed(names, ids, filters) && Kept(filters) != []
    ensures var clauses := AllGroups(names, ids, Kept(filters));
            && SoundClauses(clauses)
            && Clauses(names, ids, filters).Ok?
            && ReadCondition(Join(Clauses(names, ids, filters).value, " AND ")) == Some(ConditionOf(WeldAll(clauses)))
  {
    var clauses := AllGroups(names, ids, Kept(filters));
    ClausesOfEntries(names, ids, filters);
    SoundEntries(names, ids, filters);
    WeldAllSound(clauses);
    ReadGroups(WeldAll(clauses));
  }

  // ---------------------------------------------------------------------------
  // When welded clauses hold
  // ---------------------------------------------------------------------------

  lemma {:induction false} WeldedWider(a: seq<Group>, b: seq<Group>, row: Row, ord: Order)
    requires a != [] && b != []
    requires GroupsHold(a, row, ord) && GroupsHold(b, row, ord)
    ensures GroupsHold(Welded(a, b), row, ord)
  {
    var w := Welded(a, b);
    var i :| 0 <= i < |a| && GroupHolds(a[i], row, ord);
    var j :| 0 <= j < |b| && GroupHolds(b[j], row, ord);
    if i < |a| - 1 {
      assert w[i] == a[i];
    } else if j > 0 {
      assert w[|a| - 1 + j] == b[j];
    } else {
      assert w[|a| - 1] == a[i] + b[0];
    }
  }

  lemma {:induction false} WeldAllWider(clauses: seq<seq<Group>>, row: Row, ord: Order)
    requires SoundClauses(clauses)
    requires forall i :: 0 <= i < |clauses| ==> GroupsHold(clauses[i], row, ord)
    ensures GroupsHold(WeldAll(clauses), row, ord)
  {
    if |clauses| > 1 {
      WeldAllWider(clauses[1..], row, ord);
      WeldedWider(clauses[0], WeldAll(clauses[1..]), row, ord);
    }
  }

  lemma {:induction false} OneGroup(g: Group, row: Row, ord: Order)
    ensures GroupsHold([g], row, ord) <==> GroupHolds(g, row, ord)
  {
    assert [g][0] == g;
  }

  lemma {:induction false} WeldAllOfSingles(clauses: seq<seq<Group>>, row: Row, ord: Order)
    requires SoundClauses(clauses)
    requires forall i :: 0 <= i < |clauses| ==> |clauses[i]| == 1
    ensures |WeldAll(clauses)| == 1
    ensures GroupsHold(WeldAll(clauses), row, ord)
            <==> forall i :: 0 <= i < |clauses| ==> GroupsHold(clauses[i], row, ord)
  {
    if |clauses| > 1 {
      var a, b := clauses[0], WeldAll(clauses[1..]);
      WeldAllOfSingles(clauses[1..], row, ord);
      assert Welded(a, b) == [a[0] + b[0]];
      assert a == [a[0]] && b == [b[0]];
      OneGroup(a[0], row, ord);
      OneGroup(b[0], row, ord);
      OneGroup(a[0] + b[0], row, ord);
      ConcatHolds(a[0], b[0], row, ord);
      assert forall i :: 1 <= i < |clauses| ==> clauses[i] == clauses[1..][i - 1];
    }
  }

  lemma {:induction false} ConcatHolds(g: Group, h: Group, row: Row, ord: Order)
    ensures GroupHolds(g + h, row, ord) <==> GroupHolds(g, row, ord) && GroupHolds(h, row, ord)
  {
    assert forall i :: 0 <= i < |g| ==> (g + h)[i] == g[i];
    assert forall i :: 0 <= i < |h| ==> (g + h)[|g| + i] == h[i];
  }

  /** A multi-group clause before the last: its first group, behind the single groups before it, stands alone. */
  lemma {:induction false} FirstGroupEscapes(clauses: seq<seq<Group>>, i: nat, row: Row, ord: Order)
    requires SoundClauses(clauses) && i + 1 < |clauses| && |clauses[i]| >= 2
    requires forall m :: 0 <= m < i ==> |clauses[m]| == 1 && GroupsHold(clauses[m], row, ord)
    requires GroupHolds(clauses[i][0], row, ord)
    ensures GroupHolds(WeldAll(clauses)[0], row, ord)
  {
    var a, b := clauses[0], WeldAll(clauses[1..]);
    if i == 0 {
      assert WeldAll(clauses)[0] == a[0];
    } else {
      FirstGroupEscapes(clauses[1..], i - 1, row, ord);
      assert a == [a[0]];
      OneGroup(a[0], row, ord);
      assert Welded(a, b)[0] == a[0] + b[0];
      ConcatHolds(a[0], b[0], row, ord);
    }
  }

  /** A multi-group last clause: its last group stands alone. */
  lemma {:induction false} LastGroupEscapes(clauses: seq<seq<Group>>)
    requires SoundClauses(clauses) && |clauses[|clauses| - 1]| >= 2
    ensures var w, last := WeldAll(clauses), clauses[|clauses| - 1];
            |w| >= 2 && w[|w| - 1] == last[|last| - 1]
  {
    if |clauses| > 1 {
      LastGroupEscapes(clauses[1..]);
    }
  }

  lemma {:induction false} LastGroupSuffices(clauses: seq<seq<Group>>, row: Row, ord: Order)
    requires SoundClauses(clauses) && |clauses[|clauses| - 1]| >= 2
    requires var last := clauses[|clauses| - 1]; GroupHolds(last[|last| - 1], row, ord)
    ensures GroupsHold(WeldAll(clauses), row, ord)
  {
    LastGroupEscapes(clauses);
    var w := WeldAll(clauses);
    assert GroupHolds(w[|w| - 1], row, ord);
  }

  // ---------------------------------------------------------------------------
  // Back to filters
  // ---------------------------------------------------------------------------

  lemma {:induction false} ClauseHolds(names: seq<string>, ids: seq<nat>, e: FilterEntry, row: Row, ord: Order)
    requires Resolves(names, ids, e) && Representable(e.filter) && !Erases(e.filter)
    requires CoversNames(names, row) && OrdersIntegers(ord)
    ensures GroupsHold(ClauseGroup(names, ids, e), row, ord) <==> EntryMeans(names, ids, e, row, ord)
  {
    var name := NameOf(names, ids, e);
    ConditionMeans(e.filter, name, row, ord);
    ConditionOfFilter(e.filter, name);
    EvalGroups(GroupsOf(e.filter, name), row, ord);
  }

  lemma {:induction false} BranchesOfOr(children: seq<Filter>, name: string, i: nat)
    requires forall child :: child in children ==> !Erases(child)
    requires i < |children|
    ensures |KeptPrimaries(children, name)| == |children|
    ensures KeptPrimaries(children, name)[i] == Parenthesised(GroupsOf(children[i], name))
  {
    if i > 0 {
      BranchesOfOr(children[1..], name, i - 1);
    } else if |children| > 1 {
      BranchesOfOr(children[1..], name, 0);
    }
  }

  /** A clause has several groups exactly when its filter is an OR with several branches. */
  lemma {:induction false} GroupCount(names: seq<string>, ids: seq<nat>, e: FilterEntry)
    requires Resolves(names, ids, e) && Representable(e.filter) && !Erases(e.filter)
    ensures |ClauseGroup(names, ids, e)| == 1 <==> !IsMultiBranchOr(e.filter)
  {
    if e.filter.ConjunctionOr? {
      BranchesOfOr(e.filter.children, NameOf(names, ids, e), 0);
    }
  }

  /** A branch of a top-level OR whose text keeps a value makes its own group hold. */
  lemma {:induction false} BranchHolds(names: seq<string>, ids: seq<nat>, e: FilterEntry, i: nat, row: Row, ord: Order)
    requires Resolves(names, ids, e) && Representable(e.filter)
    requires e.filter.ConjunctionOr? && i < |e.filter.children|
    requires CoversNames(names, row) && OrdersIntegers(ord)
    requires Means(e.filter.children[i], row[NameOf(names, ids, e)], ord)
    ensures |ClauseGroup(names, ids, e)| == |e.filter.children|
    ensures GroupHolds(ClauseGroup(names, ids, e)[i], row, ord)
  {
    var name, child := NameOf(names, ids, e), e.filter.children[i];
    BranchesOfOr(e.filter.children, name, i);
    ConditionMeans(child, name, row, ord);
    ConditionOfFilter(child, name);
  }

  lemma {:induction false} KeptDecide(names: seq<string>, ids: seq<nat>, filters: seq<FilterEntry>, row: Row, ord: Order)
    requires WellFormed(names, ids, filters) && CoversNames(names, row) && OrdersIntegers(ord)
    ensures RowMeant(names, ids, filters, row, ord) <==> RowMeant(names, ids, Kept(filters), row, ord)
    ensures var kept := Kept(filters);
            forall i :: 0 <= i < |kept| ==>
              (GroupsHold(AllGroups(names, ids, kept)[i], row, ord) <==> EntryMeans(names, ids, kept[i], row, ord))
  {
    KeptEntries(filters);
    var kept := Kept(filters);
    forall i | 0 <= i < |kept|
      ensures GroupsHold(AllGroups(names, ids, kept)[i], row, ord) <==> EntryMeans(names, ids, kept[i], row, ord)
    {
      assert kept[i] in filters;
      ClauseHolds(names, ids, kept[i], row, ord);
    }
  }

  /** How a row fares with the filters and with their texts. */
  lemma {:induction false} RowDiffers(names: seq<string>, ids: seq<nat>, filters: seq<FilterEntry>, row: Row, ord: Order)
    requires WellFormed(names, ids, filters) && CoversNames(names, row)
    ensures RowAccepted(names, ids, filters, row, ord) ==> RowMeant(names, ids, filters, row, ord)
    ensures RowMeant(names, ids, filters, row, ord) && !RowAccepted(names, ids, filters, row, ord)
            <==> RowMeant(names, ids, filters, row, ord) && exists e :: e in filters && EntryLeaks(names, ids, e, row, ord)
    ensures NoEmptyOrs(filters) ==> (RowMeant(names, ids, filters, row, ord) <==> RowAccepted(names, ids, filters, row, ord))
  {
    forall e | e in filters
      ensures EntryAccepts(names, ids, e, row, ord) ==> EntryMeans(names, ids, e, row, ord)
      ensures EntryLeaks(names, ids, e, row, ord)
              <==> EntryMeans(names, ids, e, row, ord) && !EntryAccepts(names, ids, e, row, ord)
      ensures NonEmptyOrs(e.filter) ==> !EntryLeaks(names, ids, e, row, ord)
    {
      LeaksAreTheDifference(e.filter, row[NameOf(names, ids, e)], ord);
      if NonEmptyOrs(e.filter) {
        NoEmptyOrNoLeak(e.filter, row[NameOf(names, ids, e)], ord);
      }
    }
  }

  /** Whether the emitted clauses, read back by the reference parser, keep a row; no clause keeps every row. */
  ghost predicate WhereKeeps(clauses: seq<string>, row: Row, ord: Order) {
    clauses == [] ||
    (ReadCondition(Join(clauses, " AND ")).Some? && Eval(ReadCondition(Join(clauses, " AND ")).value, row, ord) == True)
  }

  lemma {:induction false} WhereKeepsGroups(names: seq<string>, ids: seq<nat>, filters: seq<FilterEntry>, row: Row, ord: Order)
    requires WellFormed(names, ids, filters)
    ensures Clauses(names, ids, filters).Ok?
    ensures var clauses := AllGroups(names, ids, Kept(filters));
            if Kept(filters) == [] then Clauses(names, ids, filters).value == []
            else SoundClauses(clauses)
                 && (WhereKeeps(Clauses(names, ids, filters).value, row, ord) <==> GroupsHold(WeldAll(clauses), row, ord))
  {
    ClausesOfEntries(names, ids, filters);
    if Kept(filters) != [] {
      WhereReads(names, ids, filters);
      EvalGroups(WeldAll(AllGroups(names, ids, Kept(filters))), row, ord);
    }
  }

  /** The WHERE clause never loses a row, whatever the filters. */
  lemma {:induction false} WhereNeverLosesRows(names: seq<string>, ids: seq<nat>, filters: seq<FilterEntry>, row: Row, ord: Order)
    requires WellFormed(names, ids, filters) && CoversNames(names, row) && OrdersIntegers(ord)
    requires RowAccepted(names, ids, filters, row, ord)
    ensures Clauses(names, ids, filters).Ok? && WhereKeeps(Clauses(names, ids, filters).value, row, ord)
  {
    WhereKeepsGroups(names, ids, filters, row, ord);
    KeptDecide(names, ids, filters, row, ord);
    RowDiffers(names, ids, filters, row, ord);
    var kept := Kept(filters);
    if kept != [] {
      assert forall i :: 0 <= i < |kept| ==> kept[i] in kept;
      WeldAllWider(AllGroups(names, ids, kept), row, ord);
    }
  }

  /** Under the guard the WHERE clause keeps exactly the rows that the text of every filter keeps. */
  lemma {:induction false} WhereMeans(names: seq<string>, ids: seq<nat>, filters: seq<FilterEntry>, row: Row, ord: Order)
    requires WellFormed(names, ids, filters) && CoversNames(names, row) && OrdersIntegers(ord)
    requires JoinIsSafe(filters)
    ensures Clauses(names, ids, filters).Ok?
    ensures WhereKeeps(Clauses(names, ids, filters).value, row, ord) <==> RowMeant(names, ids, filters, row, ord)
  {
    WhereKeepsGroups(names, ids, filters, row, ord);
    KeptDecide(names, ids, filters, row, ord);
    var kept := Kept(filters);
    var clauses := AllGroups(names, ids, kept);
    KeptEntries(filters);
    if |kept| == 1 {
      assert WeldAll(clauses) == clauses[0];
      assert RowMeant(names, ids, kept, row, ord) <==> EntryMeans(names, ids, kept[0], row, ord);
    } else if |kept| > 1 {
      forall i | 0 <= i < |kept|
        ensures |clauses[i]| == 1
      {
        assert kept[i] in kept;
        GroupCount(names, ids, kept[i]);
      }
      WeldAllOfSingles(clauses, row, ord);
      assert forall i :: 0 <= i < |kept| ==> kept[i] in kept;
    }
  }

  /** Under the guard, and without empty ORs, the WHERE clause keeps exactly the rows every filter accepts. */
  lemma {:induction false} WhereIsExact(names: seq<string>, ids: seq<nat>, filters: seq<FilterEntry>, row: Row, ord: Order)
    requires WellFormed(names, ids, filters) && CoversNames(names, row) && OrdersIntegers(ord)
    requires JoinIsSafe(filters) && NoEmptyOrs(filters)
    ensures Clauses(names, ids, filters).Ok?
    ensures WhereKeeps(Clauses(names, ids, filters).value, row, ord) <==> RowAccepted(names, ids, filters, row, ord)
  {
    WhereMeans(names, ids, filters, row, ord);
    RowDiffers(names, ids, filters, row, ord);
  }

  /**
   * With empty ORs, under the guard: the WHERE clause is exact on a row if and only if the text of some filter rejects the
   * row or no value of the row leaks.
   */
  lemma {:induction false} WhereIsExactIffNoLeak(names: seq<string>, ids: seq<nat>, filters: seq<FilterEntry>, row: Row, ord: Order)
    requires WellFormed(names, ids, filters) && CoversNames(names, row) && OrdersIntegers(ord)
    requires JoinIsSafe(filters)
    ensures Clauses(names, ids, filters).Ok?
    ensures (WhereKeeps(Clauses(names, ids, filters).value, row, ord) <==> RowAccepted(names, ids, filters, row, ord))
            <==> !RowMeant(names, ids, filters, row, ord) || !exists e :: e in filters && EntryLeaks(names, ids, e, row, ord)
  {
    WhereMeans(names, ids, filters, row, ord);
    RowDiffers(names, ids, filters, row, ord);
  }

  // ---------------------------------------------------------------------------
  // What the joined text is, as a tree
  // ---------------------------------------------------------------------------

  /** The terms of the conjunction the clauses were meant to be; an AND clause contributes its own terms. */
  function IntendedTerms(clauses: seq<seq<Group>>): seq<Condition> {
    if clauses == [] then []
    else (if |clauses[0]| == 1 then Conditions(clauses[0][0]) else [ConditionOf(clauses[0])]) + IntendedTerms(clauses[1..])
  }

  lemma {:induction false} WeldAllShape(clauses: seq<seq<Group>>)
    requires SoundClauses(clauses)
    ensures |WeldAll(clauses)| == 1 <==> forall i :: 0 <= i < |clauses| ==> |clauses[i]| == 1
    ensures |WeldAll(clauses)| == 1 ==> Conditions(WeldAll(clauses)[0]) == IntendedTerms(clauses)
    ensures |WeldAll(clauses)| == 1 ==> |WeldAll(clauses)[0]| >= |clauses|
  {
    assert SoundGroups(clauses[0]) && SoundGroup(clauses[0][0]);
    if |clauses| == 1 {
      assert IntendedTerms(clauses[1..]) == [];
    } else {
      var a, b := clauses[0], WeldAll(clauses[1..]);
      WeldAllShape(clauses[1..]);
      assert forall i :: 1 <= i < |clauses| ==> clauses[i] == clauses[1..][i - 1];
      assert |Welded(a, b)| == |a| + |b| - 1;
      if |a| == 1 && |b| == 1 {
        assert Welded(a, b)[0] == a[0] + b[0];
        assert Conditions(a[0] + b[0]) == Conditions(a[0]) + Conditions(b[0]);
      }
    }
  }

  /**
   * Read back as a tree, two or more clauses give the conjunction they were meant to be if and only if none of
   * them is a multi-branch OR; otherwise the whole text is a disjunction.
   */
  lemma {:induction false} JoinedTreeIffSafe(names: seq<string>, ids: seq<nat>, filters: seq<FilterEntry>)
    requires WellFormed(names, ids, filters) && |Kept(filters)| >= 2
    ensures Clauses(names, ids, filters).Ok?
    ensures var tree := ReadCondition(Join(Clauses(names, ids, filters).value, " AND "));
            && tree.Some?
            && (tree.value == And(IntendedTerms(AllGroups(names, ids, Kept(filters)))) <==> JoinIsSafe(filters))
            && (tree.value.Or? <==> !JoinIsSafe(filters))
  {
    WhereReads(names, ids, filters);
    KeptEntries(filters);
    var kept := Kept(filters);
    var clauses := AllGroups(names, ids, kept);
    WeldAllShape(clauses);
    forall i | 0 <= i < |kept|
      ensures |clauses[i]| == 1 <==> !IsMultiBranchOr(kept[i].filter)
    {
      assert kept[i] in kept;
      GroupCount(names, ids, kept[i]);
    }
    var w := WeldAll(clauses);
    if |w| == 1 {
      assert GroupConditions(w) == [MkAnd(Conditions(w[0]))];
    } else {
      assert ConditionOf(w) == Or(GroupConditions(w));
      var i :| 0 <= i < |clauses| && |clauses[i]| != 1;
      assert kept[i] in kept;
    }
  }

  // ---------------------------------------------------------------------------
  // Parenthesising each clause would remove the guard
  // ---------------------------------------------------------------------------

  function Wrapped(clauses: seq<string>): seq<string> {
    seq(|clauses|, i requires 0 <= i < |clauses| => "(" + clauses[i] + ")")
  }

  /** Parenthesised clauses read back as a conjunction of them all. */
  lemma {:induction false} WrappedReads(clauses: seq<seq<Group>>, row: Row, ord: Order)
    requires SoundClauses(clauses)
    ensures var c := ReadCondition(Join(Wrapped(ClauseTexts(clauses)), " AND "));
            c.Some? && (Eval(c.value, row, ord) == True <==> forall i :: 0 <= i < |clauses| ==> GroupsHold(clauses[i], row, ord))
  {
    var g: Group := seq(|clauses|, i requires 0 <= i < |clauses| => Parenthesised(clauses[i]));
    forall i | 0 <= i < |clauses|
      ensures Sound(g[i])
      ensures Eval(g[i].condition, row, ord) == True <==> GroupsHold(clauses[i], row, ord)
    {
      ParenthesisedSound(clauses[i]);
      EvalGroups(clauses[i], row, ord);
    }
    assert Texts(g) == Wrapped(ClauseTexts(clauses));
    assert GroupTexts([g]) == [GroupText(g)];
    ReadGroups([g]);
    EvalGroups([g], row, ord);
    OneGroup(g, row, ord);
  }

  /** Parenthesised clauses keep exactly the rows that the text of every filter keeps, with no guard. */
  lemma {:induction false} WrappedWhereMeans(names: seq<string>, ids: seq<nat>, filters: seq<FilterEntry>, row: Row, ord: Order)
    requires WellFormed(names, ids, filters) && CoversNames(names, row) && OrdersIntegers(ord)
    ensures Clauses(names, ids, filters).Ok?
    ensures WhereKeeps(Wrapped(Clauses(names, ids, filters).value), row, ord) <==> RowMeant(names, ids, filters, row, ord)
  {
    ClausesOfEntries(names, ids, filters);
    KeptDecide(names, ids, filters, row, ord);
    var kept := Kept(filters);
    if kept != [] {
      SoundEntries(names, ids, filters);
      WrappedReads(AllGroups(names, ids, kept), row, ord);
      assert forall i :: 0 <= i < |kept| ==> kept[i] in kept;
    }
  }

  lemma {:induction false} WrappedWhereIsExact(names: seq<string>, ids: seq<nat>, filters: seq<FilterEntry>, row: Row, ord: Order)
    requires WellFormed(names, ids, filters) && CoversNames(names, row) && OrdersIntegers(ord)
    requires NoEmptyOrs(filters)
    ensures Clauses(names, ids, filters).Ok?
    ensures WhereKeeps(Wrapped(Clauses(names, ids, filters).value), row, ord)
            <==> RowAccepted(names, ids, filters, row, ord)
  {
    WrappedWhereMeans(names, ids, filters, row, ord);
    RowDiffers(names, ids, filters, row, ord);
  }
}
