/** A transaction's cache and lazy connection, and the schema drivers over them. */
module CatalogTransaction {
  import opened CatalogCache
  import opened CatalogMetadata
  import opened Connections
  import opened Wrappers

  /** A catalog entry: callers keep references to it. */
  class TableEntry {
    const name: string
    const columns: seq<Column>

    constructor (name: string, columns: seq<Column>)
      ensures this.name == name && this.columns == columns
    {
      this.name := name;
      this.columns := columns;
    }

    function View(): Entry {
      Entry(name, columns)
    }
  }

  /** What the called-back entries hold. */
  function Views(entries: seq<TableEntry>): seq<Entry> {
    seq(|entries|, i requires 0 <= i < |entries| => entries[i].View())
  }

  lemma {:induction false} ViewsSnoc(entries: seq<TableEntry>, entry: TableEntry)
    ensures Views(entries + [entry]) == Views(entries) + [entry.View()]
  {
  }

  /** A scan's result behind what was called back and queried before it. */
  function Prefixed(entries: seq<Entry>, queries: nat, s: Scanned): Scanned {
    Scanned(s.cache, entries + s.entries, queries + s.queries)
  }

  /** What one lookup calls back. */
  function CalledBack(m: Server, cache: Cache, name: string): seq<Entry> {
    var found := Lookup(m, cache, name).found;
    if found.Some? then [found.value] else []
  }

  lemma {:induction false} ScanStep(m: Server, cache: Cache, tables: seq<string>, before: seq<Entry>, queries: nat)
    requires tables != []
    ensures Prefixed(before, queries, ScanTables(m, cache, tables))
         == Prefixed(before + CalledBack(m, cache, tables[0]),
                     queries + if Key(tables[0]) in cache then 0 else 1,
                     ScanTables(m, Lookup(m, cache, tables[0]).cache, tables[1..]))
  {
    var called, more := CalledBack(m, cache, tables[0]), ScanTables(m, Lookup(m, cache, tables[0]).cache, tables[1..]);
    assert before + (called + more.entries) == before + called + more.entries;
  }

  datatype Exception = ConnectFailed

  class FirebirdTransaction {
    const client: FirebirdClient
    const connection: FirebirdConnection
    var entries: map<string, TableEntry>

    constructor (client: FirebirdClient)
      ensures this.client == client && entries == map[] && Cached() == map[]
      ensures fresh(connection) && connection.client == client && connection.conn == None
    {
      this.client := client;
      connection := new FirebirdConnection(client);
      entries := map[];
    }

    /** The cache's contents, as values. */
    function Cached(): Cache
      reads this
    {
      map k | k in entries :: entries[k].View()
    }

    ghost predicate Valid()
      reads this, connection, client
    {
      connection.client == client && client.Valid() && connection.Owned() <= client.live
    }

    /** What every operation on the cache keeps: whatever is cached under a key stays the same object. */
    twostate predicate EntriesStay(new except: set<string>)
      reads this
    {
      forall k :: k in old(entries) && k !in except ==> k in entries && entries[k] == old(entries[k])
    }

    /** Opens the connection on first use, through a temporary that is moved from and destroyed. */
    method GetConnection(connects: bool) returns (r: Result<Handle, Exception>)
      requires Valid()
      modifies connection, client
      ensures Valid() && client.queries == old(client.queries)
      ensures old(connection.conn).Some? ==>
                r == Ok(old(connection.conn).value) && connection.conn == old(connection.conn)
                && client.live == old(client.live) && client.issued == old(client.issued)
      ensures old(connection.conn).None? && connects ==>
                r == Ok(old(client.issued)) && connection.conn == Some(old(client.issued))
                && client.live == old(client.live) + {old(client.issued)} && client.issued == old(client.issued) + 1
      ensures old(connection.conn).None? && !connects ==>
                r.Err? && connection.conn == None
                && client.live == old(client.live) && client.issued == old(client.issued)
      ensures r.Ok? ==> connection.conn == Some(r.value)
    {
      if connection.conn.None? {
        var temporary := new FirebirdConnection(client);
        var handle := client.Connect(connects);
        if handle.None? {
          return Err(ConnectFailed);
        }
        temporary.conn := handle;
        connection.MoveFrom(temporary);
        temporary.Close();
      }
      return Ok(connection.conn.value);
    }

    method MakeTableEntry(name: string, v: ColumnVectors) returns (entry: TableEntry)
      requires |v.names| == |v.types|
      modifies this
      ensures fresh(entry) && entry.name == name && CatalogMetadata.Holds(v, entry.columns)
      ensures entries == old(entries)[Key(name) := entry]
    {
      var columns := [];
      for i := 0 to |v.names|
        invariant |columns| == i && forall k :: 0 <= k < i ==> columns[k] == Column(v.names[k], v.types[k])
        invariant entries == old(entries)
      {
        columns := columns + [Column(v.names[i], v.types[i])];
      }
      entry := new TableEntry(name, columns);
      entries := entries[Key(name) := entry];
    }

    /** Looks a table up in the cache, then on the server; null when there is no such table. */
    method GetCatalogEntry(name: string, connects: bool) returns (r: Result<TableEntry?, Exception>)
      requires Valid()
      modifies this, connection, client
      ensures Valid() && EntriesStay({})
      ensures r.Err? <==> Key(name) !in old(entries) && old(connection.conn).None? && !connects
      ensures r.Err? ==> entries == old(entries) && connection.conn == None
      ensures r.Ok? && Key(name) !in old(entries) ==> connection.conn.Some?
      ensures r.Ok? ==>
                var looked := Lookup(client.server, old(Cached()), name);
                && Cached() == looked.cache
                && (if r.value == null then looked.found == None else looked.found == Some(r.value.View()))
                && (r.value != null ==> Key(name) in entries && entries[Key(name)] == r.value)
      ensures client.queries == old(client.queries) + if r.Ok? && Key(name) !in old(entries) then 1 else 0
      ensures Key(name) in old(entries) ==> connection.conn == old(connection.conn) && client.live == old(client.live)
      ensures client.live - connection.Owned() == old(client.live) - old(connection.Owned())
      ensures old(connection.conn).Some? ==> connection.conn == old(connection.conn)
      ensures connection.conn != old(connection.conn) ==> connection.conn == Some(old(client.issued))
      ensures client.issued >= old(client.issued)
    {
      if Key(name) in entries {
        return Ok(entries[Key(name)]);
      }
      var handle := GetConnection(connects);
      if handle.Err? {
        return Err(handle.error);
      }
      var columns := client.GetTableColumns(handle.value, name);
      if columns.names == [] {
        assert TableColumns(client.server, name) == [];
        return Ok(null);
      }
      var entry := MakeTableEntry(name, columns);
      assert entry.columns == TableColumns(client.server, name);
      assert Cached() == old(Cached())[Key(name) := entry.View()];
      return Ok(entry);
    }

    /** One table of the bulk load: cached already, without columns, or cached now. */
    method LoadEntry(table: string, all: map<string, ColumnVectors>)
      requires forall k :: k in all <==> BulkColumns(client.server, AllFields(client.server), k) != []
      requires forall k :: k in all ==> CatalogMetadata.Holds(all[k], BulkColumns(client.server, AllFields(client.server), k))
      modifies this
      ensures EntriesStay({}) && Cached() == LoadTable(client.server, old(Cached()), table)
    {
      if Key(table) !in entries && Key(table) in all && all[Key(table)].names != [] {
        var entry := MakeTableEntry(table, all[Key(table)]);
        assert entry.columns == BulkColumns(client.server, AllFields(client.server), Key(table));
        assert Cached() == old(Cached())[Key(table) := entry.View()];
      }
    }

    /** Bulk-loads every table that is not cached yet. */
    method LoadAllEntries(connects: bool) returns (r: Result<seq<string>, Exception>)
      requires Valid()
      modifies this, connection, client
      ensures Valid() && EntriesStay({})
      ensures r.Err? <==> old(connection.conn).None? && !connects
      ensures r.Err? ==> entries == old(entries) && connection.conn == None
      ensures r.Ok? ==> r.value == TableNames(client.server) && Cached() == LoadAll(client.server, old(Cached()))
      ensures r.Ok? ==> connection.conn.Some?
      ensures client.queries == old(client.queries) + if r.Ok? then 2 else 0
      ensures client.live - connection.Owned() == old(client.live) - old(connection.Owned())
      ensures old(connection.conn).Some? ==> connection.conn == old(connection.conn)
      ensures connection.conn != old(connection.conn) ==> connection.conn == Some(old(client.issued))
      ensures client.issued >= old(client.issued)
    {
      var handle := GetConnection(connects);
      if handle.Err? {
        return Err(handle.error);
      }
      var tables := client.GetTables(handle.value);
      var all := client.GetAllTableColumns(handle.value);
      assert tables[0..] == tables;
      for i := 0 to |tables|
        modifies this
        invariant EntriesStay({})
        invariant LoadTables(client.server, Cached(), tables[i..]) == LoadAll(client.server, old(Cached()))
      {
        assert tables[i..][0] == tables[i] && tables[i..][1..] == tables[i + 1..];
        LoadEntry(tables[i], all);
      }
      return Ok(tables);
    }

    method ClearTableEntry(name: string)
      modifies this
      ensures entries == old(entries) - {Key(name)} && Cached() == old(Cached()) - {Key(name)}
      ensures EntriesStay({Key(name)})
    {
      entries := entries - {Key(name)};
    }

    /** One table of the schema scan, on the connection the bulk load opened: its entry, if any, is called back. */
    method VisitTable(name: string, before: seq<TableEntry>, connects: bool) returns (called: seq<TableEntry>)
      requires Valid() && connection.conn.Some?
      modifies this, connection, client
      ensures Valid() && connection.conn.Some? && EntriesStay({})
      ensures Cached() == Lookup(client.server, old(Cached()), name).cache
      ensures Views(called) == Views(before) + CalledBack(client.server, old(Cached()), name)
      ensures client.queries == old(client.queries) + if Key(name) in old(Cached()) then 0 else 1
    {
      var found := GetCatalogEntry(name, connects);
      called := before;
      if found.value != null {
        ViewsSnoc(called, found.value);
        called := called + [found.value];
      }
    }

    /** The loop of the schema scan: the entries it calls back for a list of tables. */
    method VisitTables(tables: seq<string>, connects: bool) returns (called: seq<TableEntry>)
      requires Valid() && connection.conn.Some?
      modifies this, connection, client
      ensures Valid() && EntriesStay({})
      ensures var scanned := ScanTables(client.server, old(Cached()), tables);
              && Cached() == scanned.cache && Views(called) == scanned.entries
              && client.queries == old(client.queries) + scanned.queries
    {
      called := [];
      ghost var whole := ScanTables(client.server, Cached(), tables);
      assert tables[0..] == tables;
      for i := 0 to |tables|
        invariant Valid() && connection.conn.Some? && EntriesStay({}) && client.queries >= old(client.queries)
        invariant whole == Prefixed(Views(called), client.queries - old(client.queries),
                                    ScanTables(client.server, Cached(), tables[i..]))
      {
        assert tables[i..][0] == tables[i] && tables[i..][1..] == tables[i + 1..];
        ScanStep(client.server, Cached(), tables[i..], Views(called), client.queries - old(client.queries));
        called := VisitTable(tables[i], called, connects);
      }
    }

    /** The schema scan: what it calls back, and what it costs. */
    method Scan(connects: bool) returns (r: Result<seq<TableEntry>, Exception>)
      requires Valid()
      modifies this, connection, client
      ensures Valid() && EntriesStay({})
      ensures r.Err? <==> old(connection.conn).None? && !connects
      ensures r.Err? ==> entries == old(entries)
      ensures r.Ok? ==>
                var scanned := ScanSchema(client.server, old(Cached()));
                && Cached() == scanned.cache && Views(r.value) == scanned.entries
                && client.queries == old(client.queries) + scanned.queries
    {
      var loaded := LoadAllEntries(connects);
      if loaded.Err? {
        return Err(loaded.error);
      }
      var called := VisitTables(loaded.value, connects);
      return Ok(called);
    }

    /** Schema lookup: only tables are found, through the cache. */
    method LookupEntry(isTable: bool, name: string, connects: bool) returns (r: Result<TableEntry?, Exception>)
      requires Valid()
      modifies this, connection, client
      ensures Valid() && EntriesStay({})
      ensures !isTable ==> r == Ok(null) && entries == old(entries) && client.queries == old(client.queries)
      ensures isTable && r.Ok? ==>
                var looked := Lookup(client.server, old(Cached()), name);
                Cached() == looked.cache
                && if r.value == null then looked.found == None else looked.found == Some(r.value.View())
    {
      if !isTable {
        return Ok(null);
      }
      r := GetCatalogEntry(name, connects);
    }

    /** One attempt of a history. */
    method Attempted(attempt: Attempt)
      requires Valid()
      modifies this, connection, client
      ensures Valid() && EntriesStay(ClearedKeys([attempt]))
      ensures var ops := GotThrough(client.server, old(Cached()), old(connection.conn).Some?, [attempt]);
              Cached() == Run(client.server, old(Cached()), ops)
      ensures connection.conn.Some? <==> OpenAfter(old(Cached()), old(connection.conn).Some?, attempt)
      ensures client.live - connection.Owned() == old(client.live) - old(connection.Owned())
      ensures connection.conn != old(connection.conn) ==> connection.conn == Some(old(client.issued))
      ensures client.issued >= old(client.issued)
    {
      assert [attempt][0] == attempt && [attempt][1..] == [];
      RunOne(client.server, Cached(), attempt.op);
      assert Run(client.server, Cached(), []) == Cached();
      match attempt.op {
        case LookupTable(name) => var _ := GetCatalogEntry(name, attempt.connects);
        case LoadAllTables => var _ := LoadAllEntries(attempt.connects);
        case ClearTable(name) =>
          assert Key(name) in ClearedKeys([attempt]);
          ClearTableEntry(name);
      }
    }

    /**
     * Any history of operations, with connects failing anywhere: the cache follows the value-level run of the operations
     * that got through, and every entry handed out stays the very object cached under its name until that name is cleared.
     */
    method Replay(attempts: seq<Attempt>)
      requires Valid()
      modifies this, connection, client
      ensures Valid() && EntriesStay(ClearedKeys(attempts))
      ensures var ops := GotThrough(client.server, old(Cached()), old(connection.conn).Some?, attempts);
              Cached() == Run(client.server, old(Cached()), ops)
    {
      assert attempts[0..] == attempts;
      ghost var ops := GotThrough(client.server, Cached(), connection.conn.Some?, attempts);
      for i := 0 to |attempts|
        invariant Valid() && EntriesStay(ClearedKeys(attempts))
        invariant Run(client.server, Cached(), GotThrough(client.server, Cached(), connection.conn.Some?, attempts[i..]))
               == Run(client.server, old(Cached()), ops)
      {
        assert attempts[i..][0] == attempts[i] && attempts[i..][1..] == attempts[i + 1..];
        GotThroughStep(client.server, Cached(), connection.conn.Some?, attempts[i..]);
        assert ClearedKeys([attempts[i]]) <= ClearedKeys(attempts);
        Attempted(attempts[i]);
      }
    }
  }

  function ClearedKeys(attempts: seq<Attempt>): set<string> {
    set i | 0 <= i < |attempts| && attempts[i].op.ClearTable? :: Key(attempts[i].op.name)
  }

  /** An operation, and whether the server would accept a connection during it. */
  datatype Attempt = Attempt(op: Operation, connects: bool)

  /** Clears and cached lookups need no connection. */
  predicate NeedsConnection(cache: Cache, op: Operation) {
    op.LoadAllTables? || (op.LookupTable? && Key(op.name) !in cache)
  }

  predicate OpenAfter(cache: Cache, open: bool, attempt: Attempt) {
    open || (NeedsConnection(cache, attempt.op) && attempt.connects)
  }

  /** The operations of a history that do not fail for want of a connection, which is kept once it is open. */
  function GotThrough(m: Server, cache: Cache, open: bool, attempts: seq<Attempt>): seq<Operation>
    decreases attempts
  {
    if attempts == [] then []
    else
      var attempt := attempts[0];
      if NeedsConnection(cache, attempt.op) && !open && !attempt.connects then GotThrough(m, cache, open, attempts[1..])
      else
        [attempt.op] + GotThrough(m, Apply(m, cache, attempt.op), OpenAfter(cache, open, attempt), attempts[1..])
  }

  lemma {:induction false} GotThroughStep(m: Server, cache: Cache, open: bool, attempts: seq<Attempt>)
    requires attempts != []
    ensures var next := Run(m, cache, GotThrough(m, cache, open, [attempts[0]]));
            var more := GotThrough(m, next, OpenAfter(cache, open, attempts[0]), attempts[1..]);
            Run(m, cache, GotThrough(m, cache, open, attempts)) == Run(m, next, more)
  {
    assert [attempts[0]][1..] == [];
    var attempt := attempts[0];
    if NeedsConnection(cache, attempt.op) && !open && !attempt.connects {
      assert GotThrough(m, cache, open, [attempt]) == [];
    } else {
      assert GotThrough(m, cache, open, [attempt]) == [attempt.op] + [] == [attempt.op];
      RunOne(m, cache, attempt.op);
      var more := GotThrough(m, Apply(m, cache, attempt.op), OpenAfter(cache, open, attempt), attempts[1..]);
      assert ([attempt.op] + more)[1..] == more;
    }
  }
}
