/** Outside the guard: which rows a bare AND next to a multi-branch OR lets through. */
module WhereGuard {
  import opened ClauseGroups
  import opened EmptyOrs
  import opened SqlConditions
  import opened SqlValues
  import opened TableFilters
  import opened WhereClause

  /** The position of the first multi-branch OR among the entries, or their number when there is none. */
  function FirstMulti(entries: seq<FilterEntry>): (i: nat)
    ensures i <= |entries|
    ensures i < |entries| ==> IsMultiBranchOr(entries[i].filter)
    ensures forall m :: 0 <= m < i ==> !IsMultiBranchOr(entries[m].filter)
  {
    if entries == [] || IsMultiBranchOr(entries[0].filter) then 0 else 1 + FirstMulti(entries[1..])
  }

  lemma {:induction false} UnsafeHasMulti(filters: seq<FilterEntry>)
    ensures JoinIsSafe(filters) <==> |Kept(filters)| <= 1 || FirstMulti(Kept(filters)) == |Kept(filters)|
  {
    var kept := Kept(filters);
    var i := FirstMulti(kept);
    if i < |kept| {
      assert kept[i] in kept;
    }
  }

  ghost predicate BranchMeans(names: seq<string>, ids: seq<nat>, e: FilterEntry, i: nat, row: Row, ord: Order) {
    Resolves(names, ids, e) && NameOf(names, ids, e) in row && e.filter.ConjunctionOr? && i < |e.filter.children|
    && Means(e.filter.children[i], row[NameOf(names, ids, e)], ord)
  }

  /**
   * The rows an unsafe join lets through. With a first multi-branch OR at i: if a clause follows it, its first
   * branch together with the clauses before it suffices; if it is the last clause, its last branch suffices.
   */
  ghost predicate Escapes(names: seq<string>, ids: seq<nat>, kept: seq<FilterEntry>, row: Row, ord: Order) {
    var i := FirstMulti(kept);
    i < |kept| &&
    if i + 1 < |kept| then
      (forall m :: 0 <= m < i ==> EntryMeans(names, ids, kept[m], row, ord))
      && BranchMeans(names, ids, kept[i], 0, row, ord)
    else BranchMeans(names, ids, kept[i], |kept[i].filter.children| - 1, row, ord)
  }

  lemma {:induction false} FirstBranchEscapes(names: seq<string>, ids: seq<nat>, kept: seq<FilterEntry>, row: Row, ord: Order)
    requires WellFormed(names, ids, kept) && CoversNames(names, row) && OrdersIntegers(ord)
    requires SoundClauses(AllGroups(names, ids, kept))
    requires forall e :: e in kept ==> !Erases(e.filter)
    requires Escapes(names, ids, kept, row, ord) && FirstMulti(kept) + 1 < |kept|
    ensures GroupsHold(WeldAll(AllGroups(names, ids, kept)), row, ord)
  {
    var clauses, i := AllGroups(names, ids, kept), FirstMulti(kept);
    forall m | 0 <= m < i
      ensures |clauses[m]| == 1 && GroupsHold(clauses[m], row, ord)
    {
      assert kept[m] in kept;
      GroupCount(names, ids, kept[m]);
      ClauseHolds(names, ids, kept[m], row, ord);
    }
    assert kept[i] in kept;
    BranchHolds(names, ids, kept[i], 0, row, ord);
    FirstGroupEscapes(clauses, i, row, ord);
  }

  lemma {:induction false} LastBranchEscapes(names: seq<string>, ids: seq<nat>, kept: seq<FilterEntry>, row: Row, ord: Order)
    requires WellFormed(names, ids, kept) && CoversNames(names, row) && OrdersIntegers(ord)
    requires SoundClauses(AllGroups(names, ids, kept))
    requires kept != [] && IsMultiBranchOr(kept[|kept| - 1].filter)
    requires var e := kept[|kept| - 1]; BranchMeans(names, ids, e, |e.filter.children| - 1, row, ord)
    ensures GroupsHold(WeldAll(AllGroups(names, ids, kept)), row, ord)
  {
    var clauses, e := AllGroups(names, ids, kept), kept[|kept| - 1];
    assert e in kept;
    BranchHolds(names, ids, e, |e.filter.children| - 1, row, ord);
    assert clauses[|kept| - 1] == ClauseGroup(names, ids, e);
    LastGroupSuffices(clauses, row, ord);
  }

  lemma {:induction false} EscapesHold(names: seq<string>, ids: seq<nat>, kept: seq<FilterEntry>, row: Row, ord: Order)
    requires WellFormed(names, ids, kept) && CoversNames(names, row) && OrdersIntegers(ord)
    requires SoundClauses(AllGroups(names, ids, kept))
    requires forall e :: e in kept ==> !Erases(e.filter)
    requires Escapes(names, ids, kept, row, ord)
    ensures GroupsHold(WeldAll(AllGroups(names, ids, kept)), row, ord)
  {
    if FirstMulti(kept) + 1 < |kept| {
      FirstBranchEscapes(names, ids, kept, row, ord);
    } else {
      LastBranchEscapes(names, ids, kept, row, ord);
    }
  }

  /** Every escaping row is kept, whatever the other filters say of it. */
  lemma {:induction false} UnsafeJoinKeepsEscapes(names: seq<string>, ids: seq<nat>, filters: seq<FilterEntry>, row: Row, ord: Order)
    requires WellFormed(names, ids, filters) && CoversNames(names, row) && OrdersIntegers(ord)
    requires Escapes(names, ids, Kept(filters), row, ord)
    ensures Clauses(names, ids, filters).Ok? && WhereKeeps(Clauses(names, ids, filters).value, row, ord)
  {
    KeptWellFormed(names, ids, filters);
    WhereKeepsGroups(names, ids, filters, row, ord);
    EscapesHold(names, ids, Kept(filters), row, ord);
  }

  // ---------------------------------------------------------------------------
  // Rows with chosen values
  // ---------------------------------------------------------------------------

  ghost predicate DistinctColumns(names: seq<string>, ids: seq<nat>, entries: seq<FilterEntry>) {
    forall i, j :: 0 <= i < j < |entries| && Resolves(names, ids, entries[i]) && Resolves(names, ids, entries[j]) ==>
      NameOf(names, ids, entries[i]) != NameOf(names, ids, entries[j])
  }

  lemma {:induction false} KeptDistinct(names: seq<string>, ids: seq<nat>, filters: seq<FilterEntry>)
    requires DistinctColumns(names, ids, filters)
    ensures DistinctColumns(names, ids, Kept(filters))
  {
    if filters != [] {
      var tail := filters[1..];
      assert forall i :: 0 <= i < |tail| ==> tail[i] == filters[i + 1];
      KeptDistinct(names, ids, tail);
      KeptEntries(tail);
      var kept := Kept(tail);
      forall j | 0 <= j < |kept| && Resolves(names, ids, filters[0]) && Resolves(names, ids, kept[j])
        ensures NameOf(names, ids, filters[0]) != NameOf(names, ids, kept[j])
      {
        assert kept[j] in tail;
        var i :| 0 <= i < |tail| && tail[i] == kept[j];
        assert filters[i + 1] == kept[j];
      }
    }
  }

  ghost predicate EntryNamed(names: seq<string>, ids: seq<nat>, entries: seq<FilterEntry>, m: nat, n: string) {
    m < |entries| && Resolves(names, ids, entries[m]) && NameOf(names, ids, entries[m]) == n
  }

  ghost predicate IsFiltered(names: seq<string>, ids: seq<nat>, entries: seq<FilterEntry>, n: string) {
    exists m: nat :: EntryNamed(names, ids, entries, m, n)
  }

  ghost function EntryFor(names: seq<string>, ids: seq<nat>, entries: seq<FilterEntry>, n: string): (m: nat)
    requires IsFiltered(names, ids, entries, n)
    ensures EntryNamed(names, ids, entries, m, n)
  {
    var m: nat :| EntryNamed(names, ids, entries, m, n);
    m
  }

  /** A row with a chosen value in the column of each entry. */
  lemma {:induction false} RowWith(names: seq<string>, ids: seq<nat>, entries: seq<FilterEntry>, values: seq<Value>)
    returns (row: Row)
    requires DistinctColumns(names, ids, entries) && |values| == |entries|
    requires forall j :: 0 <= j < |entries| ==> Resolves(names, ids, entries[j])
    ensures CoversNames(names, row)
    ensures forall j :: 0 <= j < |entries| ==>
              NameOf(names, ids, entries[j]) in row && row[NameOf(names, ids, entries[j])] == values[j]
  {
    row := map n | n in names ::
      if IsFiltered(names, ids, entries, n) then values[EntryFor(names, ids, entries, n)] else Null;
    forall j | 0 <= j < |entries|
      ensures NameOf(names, ids, entries[j]) in row && row[NameOf(names, ids, entries[j])] == values[j]
    {
      var n := NameOf(names, ids, entries[j]);
      assert EntryNamed(names, ids, entries, j, n);
      assert EntryFor(names, ids, entries, n) == j;
    }
  }

  // ---------------------------------------------------------------------------
  // A row that escapes and that some filter rejects
  // ---------------------------------------------------------------------------

  ghost predicate CanKeep(f: Filter, ord: Order) {
    exists v :: Means(f, v, ord)
  }

  ghost predicate CanReject(f: Filter, ord: Order) {
    exists v :: !Means(f, v, ord)
  }

  /** A filter whose text can go either way, and whose OR has no branch that keeps nothing. */
  ghost predicate Contingent(f: Filter, ord: Order) {
    CanKeep(f, ord) && CanReject(f, ord)
    && (f.ConjunctionOr? ==> forall i :: 0 <= i < |f.children| ==> CanKeep(f.children[i], ord))
  }

  ghost predicate AllContingent(filters: seq<FilterEntry>, ord: Order) {
    forall e :: e in filters ==> Contingent(e.filter, ord)
  }

  ghost function KeptBy(f: Filter, ord: Order): (v: Value)
    requires CanKeep(f, ord)
    ensures Means(f, v, ord)
  {
    var v :| Means(f, v, ord);
    v
  }

  ghost function RejectedBy(f: Filter, ord: Order): (v: Value)
    requires CanReject(f, ord)
    ensures !Means(f, v, ord)
  {
    var v :| !Means(f, v, ord);
    v
  }

  /** What a row that escapes but must be rejected has in the column of the m-th entry. */
  ghost predicate Suits(kept: seq<FilterEntry>, m: nat, v: Value, ord: Order)
    requires m < |kept|
  {
    var i := FirstMulti(kept);
    var f := kept[m].filter;
    if i == |kept| then true
    else if m == i then Means(f.children[if i + 1 < |kept| then 0 else |f.children| - 1], v, ord)
    else Means(f, v, ord) == (m < i && i + 1 < |kept|)
  }

  ghost function SuitableValue(kept: seq<FilterEntry>, m: nat, ord: Order): (v: Value)
    requires m < |kept| && Contingent(kept[m].filter, ord)
    ensures Suits(kept, m, v, ord)
  {
    var i := FirstMulti(kept);
    var f := kept[m].filter;
    assert CanKeep(f, ord);
    if m == i then KeptBy(f.children[if i + 1 < |kept| then 0 else |f.children| - 1], ord)
    else if m < i && i + 1 < |kept| then KeptBy(f, ord)
    else RejectedBy(f, ord)
  }

  lemma {:induction false} SuitableRowEscapes(names: seq<string>, ids: seq<nat>, kept: seq<FilterEntry>, row: Row, ord: Order)
    requires |kept| >= 2 && FirstMulti(kept) < |kept|
    requires forall j :: 0 <= j < |kept| ==> Resolves(names, ids, kept[j]) && NameOf(names, ids, kept[j]) in row
    requires forall j :: 0 <= j < |kept| ==> Suits(kept, j, row[NameOf(names, ids, kept[j])], ord)
    ensures Escapes(names, ids, kept, row, ord)
    ensures var i := FirstMulti(kept); !EntryMeans(names, ids, kept[if i + 1 < |kept| then i + 1 else 0], row, ord)
  {
    var i := FirstMulti(kept);
    assert Suits(kept, i, row[NameOf(names, ids, kept[i])], ord);
    forall m | 0 <= m < i && i + 1 < |kept|
      ensures EntryMeans(names, ids, kept[m], row, ord)
    {
      assert Suits(kept, m, row[NameOf(names, ids, kept[m])], ord);
    }
    var j := if i + 1 < |kept| then i + 1 else 0;
    assert Suits(kept, j, row[NameOf(names, ids, kept[j])], ord);
  }

  /** A row that escapes from the kept entries, one of which rejects it. */
  lemma {:induction false} EscapingRow(names: seq<string>, ids: seq<nat>, kept: seq<FilterEntry>, ord: Order) returns (row: Row)
    requires |kept| >= 2 && FirstMulti(kept) < |kept| && AllContingent(kept, ord) && DistinctColumns(names, ids, kept)
    requires forall j :: 0 <= j < |kept| ==> Resolves(names, ids, kept[j])
    ensures CoversNames(names, row) && Escapes(names, ids, kept, row, ord) && !RowMeant(names, ids, kept, row, ord)
  {
    assert forall m :: 0 <= m < |kept| ==> kept[m] in kept;
    var values := seq(|kept|, m requires 0 <= m < |kept| && Contingent(kept[m].filter, ord) => SuitableValue(kept, m, ord));
    row := RowWith(names, ids, kept, values);
    SuitableRowEscapes(names, ids, kept, row, ord);
  }

  /** An unsafe join over filters that can each go either way returns some row that a filter rejects. */
  lemma {:induction false} SomeRowEscapes(names: seq<string>, ids: seq<nat>, filters: seq<FilterEntry>, ord: Order) returns (row: Row)
    requires WellFormed(names, ids, filters) && OrdersIntegers(ord) && !JoinIsSafe(filters)
    requires DistinctColumns(names, ids, Kept(filters)) && AllContingent(Kept(filters), ord)
    ensures CoversNames(names, row) && Clauses(names, ids, filters).Ok?
    ensures WhereKeeps(Clauses(names, ids, filters).value, row, ord) && !RowAccepted(names, ids, filters, row, ord)
  {
    KeptWellFormed(names, ids, filters);
    UnsafeHasMulti(filters);
    var kept := Kept(filters);
    assert forall j :: 0 <= j < |kept| ==> kept[j] in kept;
    row := EscapingRow(names, ids, kept, ord);
    UnsafeJoinKeepsEscapes(names, ids, filters, row, ord);
    KeptDecide(names, ids, filters, row, ord);
    RowDiffers(names, ids, filters, row, ord);
  }

  // ---------------------------------------------------------------------------
  // When the WHERE clause is exact on all rows
  // ---------------------------------------------------------------------------

  ghost predicate ExactOnAllRows(names: seq<string>, ids: seq<nat>, filters: seq<FilterEntry>, ord: Order)
    requires Clauses(names, ids, filters).Ok?
  {
    forall row | CoversNames(names, row) ::
      WhereKeeps(Clauses(names, ids, filters).value, row, ord) <==> RowAccepted(names, ids, filters, row, ord)
  }

  /**
   * The guard is exact: over filters on distinct columns that can each go either way, without empty ORs, the WHERE clause
   * agrees with the filters on every row if and only if no multi-branch OR is joined to another clause.
   */
  lemma {:induction false} WhereIsExactIffJoinIsSafe(names: seq<string>, ids: seq<nat>, filters: seq<FilterEntry>, ord: Order)
    requires WellFormed(names, ids, filters) && OrdersIntegers(ord) && NoEmptyOrs(filters)
    requires DistinctColumns(names, ids, Kept(filters)) && AllContingent(Kept(filters), ord)
    ensures Clauses(names, ids, filters).Ok?
    ensures ExactOnAllRows(names, ids, filters, ord) <==> JoinIsSafe(filters)
  {
    ClausesOfEntries(names, ids, filters);
    if JoinIsSafe(filters) {
      forall row | CoversNames(names, row)
        ensures WhereKeeps(Clauses(names, ids, filters).value, row, ord) <==> RowAccepted(names, ids, filters, row, ord)
      {
        WhereIsExact(names, ids, filters, row, ord);
      }
    } else {
      var row := SomeRowEscapes(names, ids, filters, ord);
      assert CoversNames(names, row);
    }
  }

  /** A row that the texts of all filters keep and on which a given empty OR leaks. */
  lemma {:induction false} LeakingRow(names: seq<string>, ids: seq<nat>, filters: seq<FilterEntry>, i: nat, ord: Order)
    returns (row: Row)
    requires WellFormed(names, ids, filters) && DistinctColumns(names, ids, filters) && AllContingent(Kept(filters), ord)
    requires i < |filters| && !NonEmptyOrs(filters[i].filter) && Irredundant(filters[i].filter, _ => true, ord)
    ensures CoversNames(names, row) && RowMeant(names, ids, filters, row, ord)
    ensures EntryLeaks(names, ids, filters[i], row, ord)
  {
    KeptEntries(filters);
    forall j | 0 <= j < |filters|
      ensures CanKeep(filters[j].filter, ord) && Resolves(names, ids, filters[j])
    {
      assert filters[j] in filters;
      if Erases(filters[j].filter) {
        assert Means(filters[j].filter, Null, ord);
      } else {
        assert filters[j] in Kept(filters);
      }
    }
    var leak := UnmaskedLeak(filters[i].filter, _ => true, ord);
    LeaksAreTheDifference(filters[i].filter, leak, ord);
    var values := seq(|filters|, j requires 0 <= j < |filters| && CanKeep(filters[j].filter, ord) =>
      if j == i then leak else KeptBy(filters[j].filter, ord));
    row := RowWith(names, ids, filters, values);
    forall e | e in filters
      ensures EntryMeans(names, ids, e, row, ord)
    {
      var j :| 0 <= j < |filters| && filters[j] == e;
      assert row[NameOf(names, ids, filters[j])] == values[j];
    }
  }

  /**
   * The exact condition with empty ORs: over filters on distinct columns whose texts can each go either way and have no
   * masked parts, the WHERE clause agrees with the filters on every row if and only if no multi-branch OR is joined to
   * another clause and no filter holds an empty OR at any depth.
   */
  lemma {:induction false} WhereIsExactIffGuarded(names: seq<string>, ids: seq<nat>, filters: seq<FilterEntry>, ord: Order)
    requires WellFormed(names, ids, filters) && OrdersIntegers(ord)
    requires DistinctColumns(names, ids, filters) && AllContingent(Kept(filters), ord)
    requires forall e :: e in filters ==> Irredundant(e.filter, _ => true, ord)
    ensures Clauses(names, ids, filters).Ok?
    ensures ExactOnAllRows(names, ids, filters, ord) <==> JoinIsSafe(filters) && NoEmptyOrs(filters)
  {
    ClausesOfEntries(names, ids, filters);
    KeptDistinct(names, ids, filters);
    if !JoinIsSafe(filters) {
      var row := SomeRowEscapes(names, ids, filters, ord);
      assert CoversNames(names, row);
    } else if NoEmptyOrs(filters) {
      WhereIsExactIffJoinIsSafe(names, ids, filters, ord);
    } else {
      var i :| 0 <= i < |filters| && !NonEmptyOrs(filters[i].filter);
      var row := LeakingRow(names, ids, filters, i, ord);
      WhereIsExactIffNoLeak(names, ids, filters, row, ord);
      assert CoversNames(names, row) && filters[i] in filters;
    }
  }

  /** A concrete escape: a two-branch OR on "A", joined to a comparison on "B", returns a row with the wrong B. */
  lemma {:induction false} UnsafeJoinExample(ord: Order)
    requires OrdersIntegers(ord)
    ensures var names := ["A", "B"];
            var either := ConjunctionOr([ConstantComparison(CompareEqual, Integer(1)), ConstantComparison(CompareEqual, Integer(2))]);
            var filters := [FilterEntry(0, either), FilterEntry(1, ConstantComparison(CompareEqual, Integer(7)))];
            var row := map["A" := Integer(1), "B" := Integer(0)];
            && Clauses(names, [0, 1], filters).Ok?
            && WhereKeeps(Clauses(names, [0, 1], filters).value, row, ord)
            && !RowAccepted(names, [0, 1], filters, row, ord)
  {
    var names, ids := ["A", "B"], [0, 1];
    var one, two := ConstantComparison(CompareEqual, Integer(1)), ConstantComparison(CompareEqual, Integer(2));
    var either, seven := FilterEntry(0, ConjunctionOr([one, two])), FilterEntry(1, ConstantComparison(CompareEqual, Integer(7)));
    var row := map["A" := Integer(1), "B" := Integer(0)];
    KeptPair(either, seven);
    PairWellFormed(names, ids, either, seven) by {
      assert Representable(one) && Representable(two);
    }
    assert ord(Integer(1), Integer(1)) == Equal && ord(Integer(0), Integer(7)) == Less;
    assert Means(one, Integer(1), ord);
    assert BranchMeans(names, ids, either, 0, row, ord);
    UnsafeJoinKeepsEscapes(names, ids, [either, seven], row, ord);
    assert seven in [either, seven] && !EntryAccepts(names, ids, seven, row, ord);
  }

  lemma {:induction false} KeptPair(a: FilterEntry, b: FilterEntry)
    requires !Erases(a.filter) && !Erases(b.filter)
    ensures Kept([a, b]) == [a, b]
    ensures IsMultiBranchOr(a.filter) ==> FirstMulti([a, b]) == 0
  {
    assert [a, b][1..] == [b] && [b][1..] == [];
    assert Kept([b]) == [b];
  }

  lemma {:induction false} PairWellFormed(names: seq<string>, ids: seq<nat>, a: FilterEntry, b: FilterEntry)
    requires Resolves(names, ids, a) && Resolves(names, ids, b) && "" !in names
    requires Representable(a.filter) && Representable(b.filter)
    ensures WellFormed(names, ids, [a, b])
  {
    assert forall e :: e in [a, b] ==> e == a || e == b;
  }
}
