/** The catalog cache on values: its operations, its runs, and when it agrees with the per-table query. */
module CatalogCache {
  import opened CatalogMetadata
  import opened Wrappers

  datatype Entry = Entry(name: string, columns: seq<Column>)

  /** Entries under their case-insensitive keys. */
  type Cache = map<string, Entry>

  /** What the simple per-table query says of a name: no columns means no such table. */
  function Fresh(m: Server, name: string): Option<Entry> {
    if TableColumns(m, name) == [] then None else Some(Entry(name, TableColumns(m, name)))
  }

  datatype Looked = Looked(cache: Cache, found: Option<Entry>)

  function Lookup(m: Server, cache: Cache, name: string): Looked {
    if Key(name) in cache then Looked(cache, Some(cache[Key(name)]))
    else if Fresh(m, name).None? then Looked(cache, None)
    else Looked(cache[Key(name) := Fresh(m, name).value], Fresh(m, name))
  }

  function LoadTable(m: Server, cache: Cache, table: string): Cache {
    var columns := BulkColumns(m, AllFields(m), Key(table));
    if Key(table) in cache || columns == [] then cache else cache[Key(table) := Entry(table, columns)]
  }

  function LoadTables(m: Server, cache: Cache, tables: seq<string>): Cache
    decreases tables
  {
    if tables == [] then cache else LoadTables(m, LoadTable(m, cache, tables[0]), tables[1..])
  }

  function LoadAll(m: Server, cache: Cache): Cache {
    LoadTables(m, cache, TableNames(m))
  }

  datatype Operation = LookupTable(name: string) | LoadAllTables | ClearTable(name: string)

  function Apply(m: Server, cache: Cache, op: Operation): Cache {
    match op
    case LookupTable(name) => Lookup(m, cache, name).cache
    case LoadAllTables => LoadAll(m, cache)
    case ClearTable(name) => cache - {Key(name)}
  }

  function Run(m: Server, cache: Cache, ops: seq<Operation>): Cache
    decreases ops
  {
    if ops == [] then cache else Run(m, Apply(m, cache, ops[0]), ops[1..])
  }

  // ---------------------------------------------------------------------------
  // Coherence
  // ---------------------------------------------------------------------------

  /** Every entry is what the per-table query gives for the entry's own name. */
  ghost predicate Coherent(m: Server, cache: Cache) {
    forall k :: k in cache ==> Key(cache[k].name) == k && Fresh(m, cache[k].name) == Some(cache[k])
  }

  /** Two relations with the same name up to case, one of them with columns. */
  ghost predicate Clash(m: Server) {
    exists i, j :: 0 <= i < |m.relations| && 0 <= j < |m.relations| && i != j
                   && Key(m.relations[i].name) == Key(m.relations[j].name) && m.relations[i].fields != []
  }

  /** No other relation with columns has the i-th relation's name up to case. */
  ghost predicate Alone(m: Server, i: nat)
    requires i < |m.relations|
  {
    forall j :: 0 <= j < |m.relations| && j != i && Key(m.relations[j].name) == Key(m.relations[i].name) ==>
      m.relations[j].fields == []
  }

  /** A clash with a user table. */
  ghost predicate UserClash(m: Server) {
    exists i: nat :: i < |m.relations| && !m.relations[i].isSystem && !Alone(m, i)
  }

  lemma {:induction false} NoClashAllAlone(m: Server)
    ensures Clash(m) <==> exists i: nat :: i < |m.relations| && !Alone(m, i)
    ensures UserClash(m) ==> Clash(m)
  {
    if i: nat :| i < |m.relations| && !Alone(m, i) {
      var j :| 0 <= j < |m.relations| && j != i && Key(m.relations[j].name) == Key(m.relations[i].name)
               && m.relations[j].fields != [];
      assert Clash(m);
    }
    if Clash(m) {
      var i, j :| 0 <= i < |m.relations| && 0 <= j < |m.relations| && i != j
                  && Key(m.relations[i].name) == Key(m.relations[j].name) && m.relations[i].fields != [];
      assert !Alone(m, j);
    }
  }

  lemma {:induction false} NoColumnsNoFields(m: Server, fields: seq<Field>)
    ensures Columns(m, fields) == [] <==> fields == []
  {
    assert |Columns(m, fields)| == |fields|;
  }

  lemma {:induction false} TableNamesAreUserTables(rs: seq<Relation>, name: string)
    requires name in TableNamesIn(rs)
    ensures exists i :: 0 <= i < |rs| && rs[i].name == name && !rs[i].isSystem
  {
    if rs[0].isSystem || rs[0].name != name {
      TableNamesAreUserTables(rs[1..], name);
      var i :| 0 <= i < |rs[1..]| && rs[1..][i].name == name && !rs[1..][i].isSystem;
      assert rs[i + 1] == rs[1..][i];
    }
  }

  lemma {:induction false} UserTablesAreListed(rs: seq<Relation>, i: nat)
    requires i < |rs| && !rs[i].isSystem && rs[i].name != ""
    ensures rs[i].name in TableNamesIn(rs)
  {
    if i > 0 {
      UserTablesAreListed(rs[1..], i - 1);
    }
  }

  /** Without clashes, the bulk query gives a user table its own columns. */
  lemma {:induction false} BulkIsOwn(m: Server, table: string)
    requires WellFormed(m) && !UserClash(m) && table in TableNames(m)
    ensures BulkColumns(m, AllFields(m), Key(table)) == TableColumns(m, table)
  {
    TableNamesAreUserTables(m.relations, table);
    var i: nat :| i < |m.relations| && m.relations[i].name == table && !m.relations[i].isSystem;
    BulkAgreesIffUnmerged(m, i);
    assert Alone(m, i);
    assert !Merges(m.relations, i);
  }

  lemma {:induction false} LoadTableCoherent(m: Server, cache: Cache, table: string)
    requires WellFormed(m) && !UserClash(m) && table in TableNames(m) && Coherent(m, cache)
    ensures Coherent(m, LoadTable(m, cache, table))
    ensures TableColumns(m, table) != [] ==> Key(table) in LoadTable(m, cache, table)
  {
    BulkIsOwn(m, table);
  }

  /** A bulk load keeps what is cached. */
  lemma {:induction false} LoadTablesKeep(m: Server, cache: Cache, tables: seq<string>)
    ensures forall k :: k in cache ==> k in LoadTables(m, cache, tables) && LoadTables(m, cache, tables)[k] == cache[k]
    decreases tables
  {
    if tables != [] {
      LoadTablesKeep(m, LoadTable(m, cache, tables[0]), tables[1..]);
    }
  }

  lemma {:induction false} LoadTablesCoherent(m: Server, cache: Cache, tables: seq<string>)
    requires WellFormed(m) && !UserClash(m) && Coherent(m, cache)
    requires forall t :: t in tables ==> t in TableNames(m)
    ensures Coherent(m, LoadTables(m, cache, tables))
    ensures forall t :: t in tables && TableColumns(m, t) != [] ==> Key(t) in LoadTables(m, cache, tables)
    decreases tables
  {
    if tables != [] {
      LoadTableCoherent(m, cache, tables[0]);
      LoadTablesCoherent(m, LoadTable(m, cache, tables[0]), tables[1..]);
      LoadTablesKeep(m, LoadTable(m, cache, tables[0]), tables[1..]);
      assert tables == [tables[0]] + tables[1..];
    }
  }

  lemma {:induction false} ApplyCoherent(m: Server, cache: Cache, op: Operation)
    requires WellFormed(m) && !UserClash(m) && Coherent(m, cache)
    ensures Coherent(m, Apply(m, cache, op))
  {
    if op.LoadAllTables? {
      LoadTablesCoherent(m, cache, TableNames(m));
    }
  }

  /** Over every run each cached entry is what the server's own query gives, unless a clash involves a user table. */
  lemma {:induction false} RunCoherent(m: Server, cache: Cache, ops: seq<Operation>)
    requires WellFormed(m) && !UserClash(m) && Coherent(m, cache)
    ensures Coherent(m, Run(m, cache, ops))
    decreases ops
  {
    if ops != [] {
      ApplyCoherent(m, cache, ops[0]);
      RunCoherent(m, Apply(m, cache, ops[0]), ops[1..]);
    }
  }

  lemma {:induction false} SameKeySameRelation(m: Server, i: nat, name: string)
    requires WellFormed(m) && i < |m.relations| && Alone(m, i)
    requires Fresh(m, name).Some? && Key(name) == Key(m.relations[i].name)
    ensures name == m.relations[i].name
  {
    NoColumnsNoFields(m, FieldsNamed(m.relations, name));
    FieldsOfNoRelation(m.relations, name);
  }

  /** In a coherent cache, looking up an exactly spelled relation without a rival gives what its own query gives. */
  lemma {:induction false} CoherentLookup(m: Server, cache: Cache, i: nat)
    requires WellFormed(m) && i < |m.relations| && Alone(m, i) && Coherent(m, cache)
    ensures Lookup(m, cache, m.relations[i].name).found == Fresh(m, m.relations[i].name)
  {
    var name := m.relations[i].name;
    if Key(name) in cache {
      SameKeySameRelation(m, i, cache[Key(name)].name);
    }
  }

  lemma {:induction false} RunOne(m: Server, cache: Cache, op: Operation)
    ensures Run(m, cache, [op]) == Apply(m, cache, op)
  {
    assert [op][0] == op && [op][1..] == [];
    assert Run(m, Apply(m, cache, op), []) == Apply(m, cache, op);
  }

  /** A clash shows after one lookup: the other relation of the same name up to case gets the wrong answer. */
  lemma {:induction false} ClashShows(m: Server) returns (ops: seq<Operation>, j: nat)
    requires WellFormed(m) && Clash(m)
    ensures j < |m.relations|
    ensures Lookup(m, Run(m, map[], ops), m.relations[j].name).found != Fresh(m, m.relations[j].name)
  {
    var i: nat;
    i, j :| i < |m.relations| && j < |m.relations| && i != j
            && Key(m.relations[i].name) == Key(m.relations[j].name) && m.relations[i].fields != [];
    ops := [LookupTable(m.relations[i].name)];
    FieldsOfRelation(m.relations, i);
    NoColumnsNoFields(m, m.relations[i].fields);
    RunOne(m, map[], ops[0]);
    assert m.relations[i].name != m.relations[j].name;
  }

  /**
   * The cache is transparent, that is every exactly spelled relation looks the same after every history, if and
   * only if no relation with columns shares its name up to case with another relation.
   */
  lemma {:induction false} HistoryIndependentIffNoClash(m: Server)
    requires WellFormed(m)
    ensures (forall ops: seq<Operation>, i: nat | i < |m.relations| ::
               Lookup(m, Run(m, map[], ops), m.relations[i].name).found == Fresh(m, m.relations[i].name))
            <==> !Clash(m)
  {
    if Clash(m) {
      var ops, j := ClashShows(m);
    } else {
      NoClashAllAlone(m);
      forall ops: seq<Operation>, i: nat | i < |m.relations|
        ensures Lookup(m, Run(m, map[], ops), m.relations[i].name).found == Fresh(m, m.relations[i].name)
      {
        RunCoherent(m, map[], ops);
        CoherentLookup(m, Run(m, map[], ops), i);
      }
    }
  }

  /** A concrete clash: after a lookup of "T", a lookup of the relation "t" answers with T's columns. */
  lemma {:induction false} ClashExample(typeOf: (int, int, int, int, int) -> LogicalType, column: Field, other: Field)
    ensures var m := Server([Relation("T", false, [column]), Relation("t", false, [other])], typeOf);
            && WellFormed(m)
            && Lookup(m, Run(m, map[], [LookupTable("T")]), "t").found == Fresh(m, "T")
            && Fresh(m, "T") != None && Fresh(m, "t") != None && Fresh(m, "t") != Fresh(m, "T")
  {
    var big, small := Relation("T", false, [column]), Relation("t", false, [other]);
    var m := Server([big, small], typeOf);
    assert m.relations[0] == big && m.relations[1] == small;
    FieldsOfRelation(m.relations, 0);
    FieldsOfRelation(m.relations, 1);
    NoColumnsNoFields(m, big.fields);
    NoColumnsNoFields(m, small.fields);
    assert Key("T") == Key("t");
    RunOne(m, map[], LookupTable("T"));
  }

  // ---------------------------------------------------------------------------
  // What a history leaves in the cache
  // ---------------------------------------------------------------------------

  /** An operation after which a key is cached: the lookup of a relation with columns, or the bulk load of a user table with columns. */
  ghost predicate Fills(m: Server, op: Operation, key: string) {
    match op
    case LookupTable(name) => Key(name) == key && Fresh(m, name).Some?
    case LoadAllTables => exists i :: 0 <= i < |m.relations| && Contributes(m.relations[i], key)
    case ClearTable(_) => false
  }

  predicate Clears(op: Operation, key: string) {
    op.ClearTable? && Key(op.name) == key
  }

  predicate NeverCleared(ops: seq<Operation>, key: string) {
    forall i :: 0 <= i < |ops| ==> !Clears(ops[i], key)
  }

  /** The i-th operation filled the key, and none cleared it since. */
  ghost predicate FilledAt(m: Server, ops: seq<Operation>, key: string, i: nat) {
    i < |ops| && Fills(m, ops[i], key) && forall j :: i < j < |ops| ==> !Clears(ops[j], key)
  }

  ghost predicate Filled(m: Server, ops: seq<Operation>, key: string) {
    exists i: nat :: FilledAt(m, ops, key, i)
  }

  lemma {:induction false} LoadTablesFill(m: Server, cache: Cache, tables: seq<string>, key: string)
    ensures key in LoadTables(m, cache, tables)
            <==> key in cache || exists t :: t in tables && Key(t) == key && BulkColumns(m, AllFields(m), key) != []
    decreases tables
  {
    if tables != [] {
      LoadTablesFill(m, LoadTable(m, cache, tables[0]), tables[1..], key);
      assert tables == [tables[0]] + tables[1..];
    }
  }

  lemma {:induction false} LoadAllFills(m: Server, cache: Cache, key: string)
    requires WellFormed(m)
    ensures key in LoadAll(m, cache) <==> key in cache || Fills(m, LoadAllTables, key)
  {
    LoadTablesFill(m, cache, TableNames(m), key);
    BulkElsewhere(m, m.relations, key);
    if i :| 0 <= i < |m.relations| && Contributes(m.relations[i], key) {
      UserTablesAreListed(m.relations, i);
    }
  }

  lemma {:induction false} StepFills(m: Server, cache: Cache, op: Operation, key: string)
    requires WellFormed(m)
    ensures key in Apply(m, cache, op) <==> Fills(m, op, key) || (key in cache && !Clears(op, key))
  {
    if op.LoadAllTables? {
      LoadAllFills(m, cache, key);
    }
  }

  lemma {:induction false} FilledLater(m: Server, op: Operation, ops: seq<Operation>, key: string, i: nat)
    ensures FilledAt(m, [op] + ops, key, i + 1) <==> FilledAt(m, ops, key, i)
  {
    var all := [op] + ops;
    assert forall j :: 0 <= j < |ops| ==> all[j + 1] == ops[j];
    assert forall j :: 1 <= j < |all| ==> ops[j - 1] == all[j];
  }

  lemma {:induction false} FilledFirst(m: Server, op: Operation, ops: seq<Operation>, key: string)
    ensures FilledAt(m, [op] + ops, key, 0) <==> Fills(m, op, key) && NeverCleared(ops, key)
    ensures NeverCleared([op] + ops, key) <==> !Clears(op, key) && NeverCleared(ops, key)
  {
    var all := [op] + ops;
    assert forall j :: 0 <= j < |ops| ==> all[j + 1] == ops[j];
    assert forall j :: 1 <= j < |all| ==> ops[j - 1] == all[j];
  }

  lemma {:induction false} FilledCons(m: Server, op: Operation, ops: seq<Operation>, key: string)
    ensures Filled(m, [op] + ops, key) <==> Filled(m, ops, key) || (Fills(m, op, key) && NeverCleared(ops, key))
    ensures NeverCleared([op] + ops, key) <==> !Clears(op, key) && NeverCleared(ops, key)
  {
    FilledFirst(m, op, ops, key);
    if i: nat :| FilledAt(m, [op] + ops, key, i) {
      if i > 0 {
        FilledLater(m, op, ops, key, i - 1);
      }
    }
    if i: nat :| FilledAt(m, ops, key, i) {
      FilledLater(m, op, ops, key, i);
    }
  }

  /** A key is cached after a history exactly when some operation filled it and none cleared it since. */
  lemma {:induction false} CachedIffFilled(m: Server, cache: Cache, ops: seq<Operation>, key: string)
    requires WellFormed(m)
    ensures key in Run(m, cache, ops) <==> Filled(m, ops, key) || (key in cache && NeverCleared(ops, key))
    decreases ops
  {
    if ops != [] {
      assert ops == [ops[0]] + ops[1..];
      FilledCons(m, ops[0], ops[1..], key);
      StepFills(m, cache, ops[0], key);
      CachedIffFilled(m, Apply(m, cache, ops[0]), ops[1..], key);
    }
  }

  /**
   * Any spelling, after any history: something is found exactly when the name is that of a relation with columns, or some
   * operation left a name it spells up to case in the cache; and then it is a relation of that spelling with its own columns.
   */
  lemma {:induction false} OtherSpellings(m: Server, ops: seq<Operation>, name: string)
    requires WellFormed(m) && !UserClash(m)
    ensures var found := Lookup(m, Run(m, map[], ops), name).found;
            && (found.Some? <==> Fresh(m, name).Some? || Filled(m, ops, Key(name)))
            && (found.Some? ==> Key(found.value.name) == Key(name) && Fresh(m, found.value.name) == found)
  {
    RunCoherent(m, map[], ops);
    CachedIffFilled(m, map[], ops, Key(name));
  }

  /** So only the exact spelling is history-independent: any other finds nothing at first and the table after a bulk load. */
  lemma {:induction false} SpellingDependsOnHistory(m: Server, i: nat, name: string)
    requires WellFormed(m) && i < |m.relations| && !m.relations[i].isSystem && m.relations[i].fields != [] && !UserClash(m)
    requires Key(name) == Key(m.relations[i].name) && name != m.relations[i].name
    ensures Lookup(m, Run(m, map[], []), name).found == None
    ensures Lookup(m, Run(m, map[], [LoadAllTables]), name).found == Fresh(m, m.relations[i].name) != None
  {
    assert Alone(m, i);
    FieldsOfRelation(m.relations, i);
    NoColumnsNoFields(m, m.relations[i].fields);
    if Fresh(m, name).Some? {
      SameKeySameRelation(m, i, name);
    }
    RunOne(m, map[], LoadAllTables);
    LoadTablesCoherent(m, map[], TableNames(m));
    UserTablesAreListed(m.relations, i);
    SameKeySameRelation(m, i, LoadAll(m, map[])[Key(name)].name);
  }

  // ---------------------------------------------------------------------------
  // Scanning the schema
  // ---------------------------------------------------------------------------

  datatype Scanned = Scanned(cache: Cache, entries: seq<Entry>, queries: nat)

  /** Looking up every listed table, with the entries called back and the per-table queries made. */
  function ScanTables(m: Server, cache: Cache, tables: seq<string>): Scanned
    decreases tables
  {
    if tables == [] then Scanned(cache, [], 0)
    else
      var looked := Lookup(m, cache, tables[0]);
      var more := ScanTables(m, looked.cache, tables[1..]);
      Scanned(more.cache,
              (if looked.found.Some? then [looked.found.value] else []) + more.entries,
              (if Key(tables[0]) in cache then 0 else 1) + more.queries)
  }

  /** The schema scan: the table list and the bulk query, then one lookup per table. */
  function ScanSchema(m: Server, cache: Cache): Scanned {
    var s := ScanTables(m, LoadAll(m, cache), TableNames(m));
    s.(queries := 2 + s.queries)
  }

  /** The tables with columns, each as its own query gives it, in catalog order. */
  function FreshEntries(m: Server, tables: seq<string>): seq<Entry> {
    if tables == [] then []
    else (if Fresh(m, tables[0]).Some? then [Fresh(m, tables[0]).value] else []) + FreshEntries(m, tables[1..])
  }

  function EmptyTables(m: Server, tables: seq<string>): nat {
    if tables == [] then 0 else (if Fresh(m, tables[0]).None? then 1 else 0) + EmptyTables(m, tables[1..])
  }

  lemma {:induction false} ScanTablesExact(m: Server, cache: Cache, tables: seq<string>)
    requires WellFormed(m) && !UserClash(m) && Coherent(m, cache)
    requires forall t :: t in tables ==> t in TableNames(m) && (TableColumns(m, t) != [] ==> Key(t) in cache)
    ensures ScanTables(m, cache, tables) == Scanned(cache, FreshEntries(m, tables), EmptyTables(m, tables))
  {
    if tables != [] {
      var t := tables[0];
      assert t in tables && forall u :: u in tables[1..] ==> u in tables;
      TableNamesAreUserTables(m.relations, t);
      var i: nat :| i < |m.relations| && m.relations[i].name == t && !m.relations[i].isSystem;
      CoherentLookup(m, cache, i);
      ScanTablesExact(m, cache, tables[1..]);
    }
  }

  /**
   * From whatever a history left in the cache, the schema scan calls back exactly once for each user table with
   * columns, in catalog order, and costs two metadata queries plus one for each user table without columns.
   */
  lemma {:induction false} ScanSchemaIsComplete(m: Server, ops: seq<Operation>)
    requires WellFormed(m) && !UserClash(m)
    ensures var s := ScanSchema(m, Run(m, map[], ops));
            && s.entries == FreshEntries(m, TableNames(m))
            && s.queries == 2 + EmptyTables(m, TableNames(m))
  {
    RunCoherent(m, map[], ops);
    LoadTablesCoherent(m, Run(m, map[], ops), TableNames(m));
    ScanTablesExact(m, LoadAll(m, Run(m, map[], ops)), TableNames(m));
  }

  lemma {:induction false} ScanCallsBackAtLeast(m: Server, cache: Cache, tables: seq<string>)
    ensures |ScanTables(m, cache, tables).entries| >= |FreshEntries(m, tables)|
    decreases tables
  {
    if tables != [] {
      ScanCallsBackAtLeast(m, Lookup(m, cache, tables[0]).cache, tables[1..]);
    }
  }

  /** A scan that calls back the right entries calls back, for each table, the entry cached under its key. */
  lemma {:induction false} RightScanForcesEntry(m: Server, cache: Cache, tables: seq<string>, t: string)
    requires t in tables && Key(t) in cache && ScanTables(m, cache, tables).entries == FreshEntries(m, tables)
    ensures Fresh(m, t) == Some(cache[Key(t)])
    decreases tables
  {
    var looked := Lookup(m, cache, tables[0]);
    var called := if looked.found.Some? then [looked.found.value] else [];
    var right := if Fresh(m, tables[0]).Some? then [Fresh(m, tables[0]).value] else [];
    var scan, expected := ScanTables(m, looked.cache, tables[1..]).entries, FreshEntries(m, tables[1..]);
    assert called + scan == right + expected;
    ScanCallsBackAtLeast(m, looked.cache, tables[1..]);
    assert |called| == |right|;
    assert called == (called + scan)[..|called|] == right && scan == (called + scan)[|called|..] == expected;
    if tables[0] != t {
      RightScanForcesEntry(m, looked.cache, tables[1..], t);
    }
  }

  /** A clash with a user table spoils a schema scan: after a lookup of its rival, the rival is called back for it. */
  lemma {:induction false} ClashSpoilsScan(m: Server) returns (ops: seq<Operation>)
    requires WellFormed(m) && UserClash(m)
    ensures ScanSchema(m, Run(m, map[], ops)).entries != FreshEntries(m, TableNames(m))
  {
    var i: nat :| i < |m.relations| && !m.relations[i].isSystem && !Alone(m, i);
    var j: nat :| j < |m.relations| && j != i && Key(m.relations[j].name) == Key(m.relations[i].name) && m.relations[j].fields != [];
    var table, rival := m.relations[i].name, m.relations[j].name;
    assert table != rival;
    ops := [LookupTable(rival)];
    FieldsOfRelation(m.relations, j);
    NoColumnsNoFields(m, m.relations[j].fields);
    RunOne(m, map[], ops[0]);
    var cache := Run(m, map[], ops);
    assert Key(table) in cache && cache[Key(table)].name == rival;
    LoadTablesKeep(m, cache, TableNames(m));
    UserTablesAreListed(m.relations, i);
    if ScanSchema(m, cache).entries == FreshEntries(m, TableNames(m)) {
      RightScanForcesEntry(m, LoadAll(m, cache), TableNames(m), table);
    }
  }

  /** The schema scan is right after every history if and only if no clash involves a user table. */
  lemma {:induction false} ScanIsRightIffNoUserClash(m: Server)
    requires WellFormed(m)
    ensures (forall ops: seq<Operation> :: ScanSchema(m, Run(m, map[], ops)).entries == FreshEntries(m, TableNames(m)))
            <==> !UserClash(m)
  {
    if UserClash(m) {
      var ops := ClashSpoilsScan(m);
    } else {
      forall ops: seq<Operation>
        ensures ScanSchema(m, Run(m, map[], ops)).entries == FreshEntries(m, TableNames(m))
      {
        ScanSchemaIsComplete(m, ops);
      }
    }
  }
}
