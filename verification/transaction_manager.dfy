/** The transaction manager: who owns which connection over every run of the catalog. */
module TransactionManager {
  import CatalogCache
  import opened CatalogMetadata
  import opened CatalogTransaction
  import opened Connections
  import opened Wrappers

  /** A transaction's cache, and whether its connection was opened. */
  datatype Session = Session(cache: CatalogCache.Cache, open: bool)

  /** A session after one more attempt, which fails when it needs a connection and none is to be had. */
  function Continued(m: Server, s: Session, attempt: Attempt): Session {
    if NeedsConnection(s.cache, attempt.op) && !s.open && !attempt.connects then s
    else Session(CatalogCache.Apply(m, s.cache, attempt.op), OpenAfter(s.cache, s.open, attempt))
  }

  lemma {:induction false} SingleAttempt(m: Server, s: Session, attempt: Attempt)
    ensures CatalogCache.Run(m, s.cache, GotThrough(m, s.cache, s.open, [attempt])) == Continued(m, s, attempt).cache
    ensures OpenAfter(s.cache, s.open, attempt) <==> Continued(m, s, attempt).open
  {
    assert [attempt][1..] == [];
    CatalogCache.RunOne(m, s.cache, attempt.op);
    assert [attempt.op] + [] == [attempt.op];
    assert CatalogCache.Run(m, s.cache, []) == s.cache;
  }

  class FirebirdTransactionManager {
    const client: FirebirdClient
    var transactions: set<FirebirdTransaction>

    constructor (server: Server)
      ensures Valid() && transactions == {} && fresh(client) && client.server == server && client.live == {}
    {
      client := new FirebirdClient(server);
      transactions := {};
    }

    /** The open handles are exactly those of active transactions, and each has one owner. */
    ghost predicate Valid()
      reads this, client, set t | t in transactions :: t.connection
    {
      && client.Valid()
      && (forall t :: t in transactions ==> t.client == client && t.connection.client == client)
      && (forall t, u :: t in transactions && u in transactions && t != u ==>
            t.connection != u.connection && t.connection.Owned() !! u.connection.Owned())
      && (forall t :: t in transactions ==> t.connection.Owned() <= client.live)
      && (forall h :: h in client.live ==> exists t :: t in transactions && h in t.connection.Owned())
    }

    /** A step inside one transaction that swaps that transaction's handle keeps every owner. */
    twostate lemma {:induction false} OwnersKept(t: FirebirdTransaction)
      requires old(Valid()) && t in transactions && transactions == old(transactions)
      requires client.Valid() && t.connection.Owned() <= client.live
      requires client.live - t.connection.Owned() == old(client.live) - old(t.connection.Owned())
      requires forall u :: u in transactions && u != t ==> u.connection.conn == old(u.connection.conn)
      ensures Valid()
    {
      forall u | u in transactions && u != t
        ensures u.connection.Owned() <= client.live && u.connection.Owned() !! t.connection.Owned()
      {
        assert old(u.connection.Owned()) <= old(client.live) - old(t.connection.Owned());
      }
      forall h | h in client.live
        ensures exists u :: u in transactions && h in u.connection.Owned()
      {
        if h !in t.connection.Owned() {
          assert h in old(client.live) - old(t.connection.Owned());
          var u :| u in old(transactions) && h in old(u.connection.Owned());
          assert u != t && h in u.connection.Owned();
        }
      }
    }

    method StartTransaction() returns (t: FirebirdTransaction)
      requires Valid()
      modifies this
      ensures Valid() && fresh(t) && fresh(t.connection) && transactions == old(transactions) + {t}
      ensures t.connection.conn == None && t.Cached() == map[]
    {
      t := new FirebirdTransaction(client);
      transactions := transactions + {t};
    }

    /** Forgetting a transaction that owns no handle keeps every owner. */
    twostate lemma {:induction false} OwnersKeptWithout(t: FirebirdTransaction)
      requires old(Valid()) && transactions == old(transactions) - {t}
      requires old(t in transactions ==> t.connection.Owned() == {})
      requires client.Valid() && client.live == old(client.live)
      requires forall u :: u in transactions ==> u.connection.conn == old(u.connection.conn)
      ensures Valid()
    {
      forall h | h in client.live
        ensures exists u :: u in transactions && h in u.connection.Owned()
      {
        var u :| u in old(transactions) && h in old(u.connection.Owned());
        assert u in transactions && h in u.connection.Owned();
      }
    }

    /** The destructor of an active transaction releases its handle. */
    method Destroy(t: FirebirdTransaction)
      requires Valid() && t in transactions
      modifies t.connection, client
      ensures Valid() && t.connection.conn == None
      ensures client.live == old(client.live) - old(t.connection.Owned())
      ensures forall u :: u in transactions && u != t ==> u.connection.conn == old(u.connection.conn)
    {
      t.connection.Close();
      OwnersKept(t);
    }

    /** Erasing a transaction destroys it, and with it its connection. */
    method Erase(t: FirebirdTransaction)
      requires Valid()
      modifies this, t.connection, client
      ensures Valid() && transactions == old(transactions) - {t}
      ensures t in old(transactions) ==> client.live == old(client.live) - old(t.connection.Owned())
      ensures t !in old(transactions) ==> client.live == old(client.live)
      ensures forall u :: u in transactions ==> u.connection.conn == old(u.connection.conn)
    {
      if t in transactions {
        EraseActive(t);
      } else {
        assert transactions - {t} == transactions;
      }
    }

    method EraseActive(t: FirebirdTransaction)
      requires Valid() && t in transactions
      modifies this, t.connection, client
      ensures Valid() && transactions == old(transactions) - {t}
      ensures client.live == old(client.live) - old(t.connection.Owned())
      ensures forall u :: u in transactions ==> u.connection.conn == old(u.connection.conn)
    {
      Destroy(t);
      Forget(t);
    }

    method Forget(t: FirebirdTransaction)
      requires Valid() && t in transactions && t.connection.conn == None
      modifies this
      ensures Valid() && transactions == old(transactions) - {t} && client.live == old(client.live)
      ensures forall u :: u in transactions ==> u.connection.conn == old(u.connection.conn)
    {
      transactions := transactions - {t};
      OwnersKeptWithout(t);
    }

    method CommitTransaction(t: FirebirdTransaction)
      requires Valid()
      modifies this, t.connection, client
      ensures Valid() && transactions == old(transactions) - {t}
      ensures t in old(transactions) ==> client.live == old(client.live) - old(t.connection.Owned())
      ensures t !in old(transactions) ==> client.live == old(client.live)
      ensures forall u :: u in transactions ==> u.connection.conn == old(u.connection.conn)
    {
      Erase(t);
    }

    method RollbackTransaction(t: FirebirdTransaction)
      requires Valid()
      modifies this, t.connection, client
      ensures Valid() && transactions == old(transactions) - {t}
      ensures t in old(transactions) ==> client.live == old(client.live) - old(t.connection.Owned())
      ensures t !in old(transactions) ==> client.live == old(client.live)
      ensures forall u :: u in transactions ==> u.connection.conn == old(u.connection.conn)
    {
      Erase(t);
    }

    /** One operation inside an active transaction. */
    method Perform(t: FirebirdTransaction, attempt: Attempt)
      requires Valid() && t in transactions
      modifies t, t.connection, client
      ensures Valid()
      ensures var before := Session(old(t.Cached()), old(t.connection.conn).Some?);
              Session(t.Cached(), t.connection.conn.Some?) == Continued(client.server, before, attempt)
    {
      SingleAttempt(client.server, Session(t.Cached(), t.connection.conn.Some?), attempt);
      t.Attempted(attempt);
      OwnersKept(t);
    }
  }
}
