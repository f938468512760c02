/** What the listing and the schema scan give, by the positions of the relations in the catalog. */
module CatalogListing {
  import opened CatalogCache
  import opened CatalogMetadata
  import opened Wrappers

  /** Positions in increasing order, each below a bound. */
  predicate Increasing(positions: seq<nat>, from: nat, bound: nat) {
    && (forall k :: 0 <= k < |positions| ==> from <= positions[k] < bound)
    && (forall j, k :: 0 <= j < k < |positions| ==> positions[j] < positions[k])
  }

  lemma {:induction false} IncreasingCons(first: nat, rest: seq<nat>, bound: nat)
    requires Increasing(rest, first + 1, bound) && first < bound
    ensures Increasing([first] + rest, first, bound)
  {
    var all := [first] + rest;
    assert forall k :: 1 <= k < |all| ==> all[k] == rest[k - 1];
  }

  predicate IsListed(r: Relation) {
    !r.isSystem && r.name != ""
  }

  /** The listed names are those of the non-system relations that have one, once each and in catalog order. */
  lemma {:induction false} TablesFrom(rs: seq<Relation>, from: nat) returns (at: seq<nat>)
    requires from <= |rs|
    ensures Increasing(at, from, |rs|) && |TableNamesIn(rs[from..])| == |at|
    ensures forall k :: 0 <= k < |at| ==> IsListed(rs[at[k]]) && TableNamesIn(rs[from..])[k] == rs[at[k]].name
    ensures forall i :: from <= i < |rs| && IsListed(rs[i]) ==> i in at
    decreases |rs| - from
  {
    at := [];
    if from < |rs| {
      at := TablesFrom(rs, from + 1);
      assert rs[from..][0] == rs[from] && rs[from..][1..] == rs[from + 1..];
      if IsListed(rs[from]) {
        IncreasingCons(from, at, |rs|);
        at := [from] + at;
      }
    }
  }

  lemma {:induction false} TablesByPosition(m: Server) returns (at: seq<nat>)
    ensures Increasing(at, 0, |m.relations|) && |TableNames(m)| == |at|
    ensures forall k :: 0 <= k < |at| ==> IsListed(m.relations[at[k]]) && TableNames(m)[k] == m.relations[at[k]].name
    ensures forall i :: 0 <= i < |m.relations| && IsListed(m.relations[i]) ==> i in at
  {
    at := TablesFrom(m.relations, 0);
    assert m.relations[0..] == m.relations;
  }

  /** Which positions hold user tables with columns, in order. */
  ghost predicate ListsTables(m: Server, at: seq<nat>, from: nat, withColumns: bool) {
    && Increasing(at, from, |m.relations|)
    && (forall k :: 0 <= k < |at| ==>
          !m.relations[at[k]].isSystem && (m.relations[at[k]].fields != []) == withColumns)
    && (forall i :: from <= i < |m.relations| && !m.relations[i].isSystem && (m.relations[i].fields != []) == withColumns ==>
          i in at)
  }

  lemma {:induction false} ListsStep(m: Server, rest: seq<nat>, from: nat, withColumns: bool) returns (at: seq<nat>)
    requires from < |m.relations| && ListsTables(m, rest, from + 1, withColumns)
    ensures ListsTables(m, at, from, withColumns)
    ensures var r := m.relations[from];
            at == if !r.isSystem && (r.fields != []) == withColumns then [from] + rest else rest
  {
    at := rest;
    var r := m.relations[from];
    if !r.isSystem && (r.fields != []) == withColumns {
      IncreasingCons(from, rest, |m.relations|);
      at := [from] + rest;
      assert forall k :: 1 <= k < |at| ==> at[k] == rest[k - 1];
      assert at[0] == from;
    }
  }

  lemma {:induction false} FreshHead(m: Server, from: nat)
    requires WellFormed(m) && from < |m.relations|
    ensures var r := m.relations[from];
            && (Fresh(m, r.name).Some? <==> r.fields != [])
            && TableNamesIn(m.relations[from..])
               == (if r.isSystem then [] else [r.name]) + TableNamesIn(m.relations[from + 1..])
  {
    FieldsOfRelation(m.relations, from);
    NoColumnsNoFields(m, m.relations[from].fields);
    assert m.relations[from..][0] == m.relations[from] && m.relations[from..][1..] == m.relations[from + 1..];
  }

  /** The entries are those of the relations at the given positions. */
  ghost predicate EntriesOf(m: Server, at: seq<nat>, entries: seq<Entry>) {
    |entries| == |at|
    && forall k :: 0 <= k < |at| ==> at[k] < |m.relations| && Fresh(m, m.relations[at[k]].name) == Some(entries[k])
  }

  lemma {:induction false} EntriesCons(m: Server, first: nat, at: seq<nat>, entry: Entry, entries: seq<Entry>)
    requires EntriesOf(m, at, entries) && first < |m.relations| && Fresh(m, m.relations[first].name) == Some(entry)
    ensures EntriesOf(m, [first] + at, [entry] + entries)
  {
  }

  lemma {:induction false} FreshEntriesCons(m: Server, name: string, names: seq<string>)
    ensures FreshEntries(m, [name] + names)
         == (if Fresh(m, name).Some? then [Fresh(m, name).value] else []) + FreshEntries(m, names)
  {
    assert ([name] + names)[1..] == names;
  }

  lemma {:induction false} FreshFrom(m: Server, from: nat) returns (full: seq<nat>)
    requires WellFormed(m) && from <= |m.relations|
    ensures ListsTables(m, full, from, true)
    ensures EntriesOf(m, full, FreshEntries(m, TableNamesIn(m.relations[from..])))
    decreases |m.relations| - from
  {
    full := [];
    if from < |m.relations| {
      var rest := FreshFrom(m, from + 1);
      full := ListsStep(m, rest, from, true);
      FreshHead(m, from);
      var r, names := m.relations[from], TableNamesIn(m.relations[from + 1..]);
      FreshEntriesCons(m, r.name, names);
      if !r.isSystem && r.fields != [] {
        EntriesCons(m, from, rest, Fresh(m, r.name).value, FreshEntries(m, names));
      } else {
        assert [] + names == names && [] + FreshEntries(m, names) == FreshEntries(m, names);
      }
    }
  }

  lemma {:induction false} EmptyFrom(m: Server, from: nat) returns (empty: seq<nat>)
    requires WellFormed(m) && from <= |m.relations|
    ensures ListsTables(m, empty, from, false)
    ensures EmptyTables(m, TableNamesIn(m.relations[from..])) == |empty|
    decreases |m.relations| - from
  {
    empty := [];
    if from < |m.relations| {
      var rest := EmptyFrom(m, from + 1);
      empty := ListsStep(m, rest, from, false);
      FreshHead(m, from);
      var r, names := m.relations[from], TableNamesIn(m.relations[from + 1..]);
      assert !r.isSystem ==> ([r.name] + names)[1..] == names;
      assert r.isSystem ==> [] + names == names;
    }
  }

  lemma {:induction false} FreshIsNamed(m: Server, i: nat)
    requires WellFormed(m) && i < |m.relations| && Fresh(m, m.relations[i].name).Some?
    ensures var entry := Fresh(m, m.relations[i].name).value;
            entry.name == m.relations[i].name && entry.columns == TableColumns(m, m.relations[i].name)
  {
  }

  /**
   * After any history, without a clash with a user table, the schema scan calls back one entry for each non-system
   * relation with fields, in catalog order, under its own distinct name with its own columns, and it makes two metadata
   * queries plus one for each non-system relation without fields.
   */
  lemma {:induction false} ScanByPosition(m: Server, ops: seq<Operation>) returns (full: seq<nat>, empty: seq<nat>)
    requires WellFormed(m) && !UserClash(m)
    ensures ListsTables(m, full, 0, true) && ListsTables(m, empty, 0, false)
    ensures var s := ScanSchema(m, Run(m, map[], ops));
            && |s.entries| == |full| && s.queries == 2 + |empty|
            && (forall k :: 0 <= k < |full| ==>
                  s.entries[k].name == m.relations[full[k]].name
                  && s.entries[k].columns == TableColumns(m, m.relations[full[k]].name))
            && (forall j, k :: 0 <= j < k < |full| ==> s.entries[j].name != s.entries[k].name)
  {
    full := FreshFrom(m, 0);
    empty := EmptyFrom(m, 0);
    assert m.relations[0..] == m.relations;
    ScanSchemaIsComplete(m, ops);
    forall k | 0 <= k < |full|
      ensures var entries := FreshEntries(m, TableNames(m));
              entries[k].name == m.relations[full[k]].name
              && entries[k].columns == TableColumns(m, m.relations[full[k]].name)
    {
      FreshIsNamed(m, full[k]);
    }
  }
}
