/** Introspection connections: handles of the client library, and the one owner of each. */
module Connections {
  import opened CatalogMetadata
  import opened Wrappers

  /** A handle of the client library; no two connects ever return the same one. */
  type Handle = nat

  /** The client library: the handles it has open, how many it ever opened, and the metadata queries it ran. */
  class FirebirdClient {
    const server: Server
    var live: set<Handle>
    var issued: nat
    var queries: nat
    /** How many handles were released. */
    ghost var released: nat

    constructor (server: Server)
      ensures this.server == server && live == {} && issued == 0 && queries == 0 && released == 0 && Valid()
    {
      this.server := server;
      live := {};
      issued := 0;
      queries := 0;
      released := 0;
    }

    /** Every handle ever issued is either open or was released, once. */
    ghost predicate Valid()
      reads this
    {
      (forall h :: h in live ==> h < issued) && |live| + released == issued
    }

    /** fb_connect: a new handle, or none when the server refuses. */
    method Connect(connects: bool) returns (h: Option<Handle>)
      requires Valid()
      modifies this
      ensures Valid() && queries == old(queries)
      ensures !connects ==> h == None && live == old(live) && issued == old(issued)
      ensures connects ==> h == Some(old(issued)) && issued == old(issued) + 1 && live == old(live) + {old(issued)}
      ensures h.Some? ==> h.value !in old(live)
    {
      if !connects {
        return None;
      }
      live := live + {issued};
      issued := issued + 1;
      return Some(issued - 1);
    }

    /** fb_disconnect: the handle must be open, so releasing it twice is ruled out. */
    method Disconnect(h: Handle)
      requires Valid() && h in live
      modifies this
      ensures Valid() && live == old(live) - {h} && issued == old(issued) && queries == old(queries)
    {
      live := live - {h};
      released := released + 1;
    }

    /** fb_list_tables. */
    method GetTables(ghost h: Handle) returns (names: seq<string>)
      requires h in live
      modifies this
      ensures names == TableNames(server)
      ensures live == old(live) && issued == old(issued) && released == old(released) && queries == old(queries) + 1
    {
      queries := queries + 1;
      return TableNames(server);
    }

    method GetTableColumns(ghost h: Handle, name: string) returns (v: ColumnVectors)
      requires h in live
      modifies this
      ensures CatalogMetadata.Holds(v, TableColumns(server, name))
      ensures live == old(live) && issued == old(issued) && released == old(released) && queries == old(queries) + 1
    {
      queries := queries + 1;
      v := ReadTableColumns(server, name);
    }

    method GetAllTableColumns(ghost h: Handle) returns (result: map<string, ColumnVectors>)
      requires h in live
      modifies this
      ensures forall k :: k in result <==> BulkColumns(server, AllFields(server), k) != []
      ensures forall k :: k in result ==> CatalogMetadata.Holds(result[k], BulkColumns(server, AllFields(server), k))
      ensures live == old(live) && issued == old(issued) && released == old(released) && queries == old(queries) + 1
    {
      queries := queries + 1;
      result := CatalogMetadata.GetAllTableColumns(server);
    }
  }

  /** FirebirdConnection: owns at most one handle. */
  class FirebirdConnection {
    const client: FirebirdClient
    var conn: Option<Handle>

    constructor (client: FirebirdClient)
      ensures this.client == client && conn == None
    {
      this.client := client;
      conn := None;
    }

    function Owned(): set<Handle>
      reads this
    {
      if conn.Some? then {conn.value} else {}
    }

    method Close()
      requires client.Valid() && Owned() <= client.live
      modifies this, client
      ensures client.Valid() && conn == None
      ensures client.live == old(client.live) - old(Owned())
      ensures client.issued == old(client.issued) && client.queries == old(client.queries)
    {
      if conn.Some? {
        client.Disconnect(conn.value);
        conn := None;
      }
    }

    /** Move assignment: releases the own handle, takes over the other's. */
    method MoveFrom(other: FirebirdConnection)
      requires client.Valid() && other.client == client
      requires Owned() <= client.live && other.Owned() <= client.live
      requires this != other ==> Owned() !! other.Owned()
      modifies this, other, client
      ensures client.Valid() && conn == old(other.conn)
      ensures this != other ==> other.conn == None && client.live == old(client.live) - old(Owned())
      ensures this == other ==> client.live == old(client.live)
      ensures client.issued == old(client.issued) && client.queries == old(client.queries)
      ensures Owned() <= client.live
    {
      if this != other {
        Close();
        conn := other.conn;
        other.conn := None;
      }
    }
  }
}
