/** Whole runs of the transaction manager, by their actions alone. */
module TransactionRuns {
  import CatalogCache
  import opened CatalogMetadata
  import opened CatalogTransaction
  import opened Connections
  import opened TransactionManager
  import opened Wrappers

  datatype Action =
    | Start
    | LookupTable(i: nat, name: string, connects: bool)
    | LoadTables(i: nat, connects: bool)
    | ClearTable(i: nat, name: string)
    | Commit(i: nat)
    | Rollback(i: nat)

  // ---------------------------------------------------------------------------
  // What a run should leave, by its actions alone
  // ---------------------------------------------------------------------------

  /** How many transactions were started. */
  function Starts(actions: seq<Action>): nat {
    if actions == [] then 0
    else Starts(actions[..|actions| - 1]) + if actions[|actions| - 1].Start? then 1 else 0
  }

  /** The k-th transaction was started, and neither committed nor rolled back since. */
  ghost predicate IsActive(actions: seq<Action>, k: nat) {
    exists i :: 0 <= i < |actions| && actions[i].Start? && Starts(actions[..i]) == k
                && forall j :: i < j < |actions| ==> actions[j] != Commit(k) && actions[j] != Rollback(k)
  }

  lemma {:induction false} ActiveStep(before: seq<Action>, action: Action, k: nat)
    ensures IsActive(before + [action], k)
            <==> (action.Start? && k == Starts(before))
                 || (IsActive(before, k) && action != Commit(k) && action != Rollback(k))
  {
    var all, n := before + [action], |before|;
    assert all[..n] == before && all[n] == action;
    assert forall i :: 0 <= i < n ==> all[i] == before[i] && all[..i] == before[..i];
    if i :| 0 <= i < n && before[i].Start? && Starts(before[..i]) == k
            && forall j :: i < j < n ==> before[j] != Commit(k) && before[j] != Rollback(k) {
      assert all[i].Start? && Starts(all[..i]) == k;
    }
  }

  lemma {:induction false} ActiveWasStarted(actions: seq<Action>, k: nat)
    requires IsActive(actions, k)
    ensures k < Starts(actions)
  {
    var front, last := actions[..|actions| - 1], actions[|actions| - 1];
    assert actions == front + [last];
    ActiveStep(front, last, k);
    if IsActive(front, k) {
      ActiveWasStarted(front, k);
    }
  }

  /** What an action does inside the k-th transaction, if anything. */
  function AttemptOn(action: Action, k: nat): Option<Attempt> {
    match action
    case LookupTable(i, name, connects) => if i == k then Some(Attempt(CatalogCache.LookupTable(name), connects)) else None
    case LoadTables(i, connects) => if i == k then Some(Attempt(CatalogCache.LoadAllTables, connects)) else None
    case ClearTable(i, name) => if i == k then Some(Attempt(CatalogCache.ClearTable(name), false)) else None
    case _ => None
  }

  /** The session of the k-th transaction: all actions on it while it was active. */
  ghost function SessionOf(m: Server, actions: seq<Action>, k: nat): Session
    decreases |actions|
  {
    if actions == [] then Session(map[], false)
    else
      var before := SessionOf(m, actions[..|actions| - 1], k);
      var attempt := AttemptOn(actions[|actions| - 1], k);
      if attempt.Some? && IsActive(actions[..|actions| - 1], k) then Continued(m, before, attempt.value) else before
  }

  lemma {:induction false} SessionStep(m: Server, before: seq<Action>, action: Action, k: nat)
    ensures var attempt := AttemptOn(action, k);
            SessionOf(m, before + [action], k)
            == if attempt.Some? && IsActive(before, k) then Continued(m, SessionOf(m, before, k), attempt.value)
               else SessionOf(m, before, k)
  {
    var all := before + [action];
    assert all[..|all| - 1] == before && all[|all| - 1] == action;
  }

  // ---------------------------------------------------------------------------
  // The runs themselves
  // ---------------------------------------------------------------------------

  /** The active transactions are those that the actions started and did not finish. */
  ghost predicate ActiveAre(active: set<FirebirdTransaction>, started: seq<FirebirdTransaction>, actions: seq<Action>) {
    && |started| == Starts(actions)
    && (forall j, k :: 0 <= j < k < |started| ==> started[j] != started[k])
    && (forall t :: t in active ==> t in started)
    && (forall k: nat :: k < |started| ==> (started[k] in active <==> IsActive(actions, k)))
  }

  /** Each transaction holds what the actions on it left. */
  ghost predicate SessionsAre(m: Server, started: seq<FirebirdTransaction>, actions: seq<Action>)
    reads set t | t in started, set t | t in started :: t.connection
  {
    forall k: nat :: k < |started| ==>
      && started[k].Cached() == SessionOf(m, actions, k).cache
      && (IsActive(actions, k) ==> (started[k].connection.conn.Some? <==> SessionOf(m, actions, k).open))
  }

  /** The manager and the transactions it ever started are what the actions say. */
  ghost predicate Reflects(manager: FirebirdTransactionManager, started: seq<FirebirdTransaction>, actions: seq<Action>)
    reads manager, manager.client, set t | t in manager.transactions :: t.connection
    reads set t | t in started, set t | t in started :: t.connection
  {
    && manager.Valid()
    && ActiveAre(manager.transactions, started, actions)
    && SessionsAre(manager.client.server, started, actions)
  }

  lemma {:induction false} StartedIsActive(active: set<FirebirdTransaction>, started: seq<FirebirdTransaction>, before: seq<Action>,
                                          t: FirebirdTransaction)
    requires ActiveAre(active, started, before) && t !in started
    ensures ActiveAre(active + {t}, started + [t], before + [Start])
  {
    var after := started + [t];
    assert (before + [Start])[..|before|] == before;
    assert t !in active;
    forall k: nat | k < |after|
      ensures after[k] in active + {t} <==> IsActive(before + [Start], k)
    {
      ActiveStep(before, Start, k);
      if k < |started| {
        assert after[k] == started[k];
      }
    }
  }

  lemma {:induction false} FinishedIsInactive(active: set<FirebirdTransaction>, started: seq<FirebirdTransaction>,
                                             before: seq<Action>, action: Action, k: nat)
    requires ActiveAre(active, started, before) && (action == Commit(k) || action == Rollback(k))
    ensures ActiveAre(if k < |started| then active - {started[k]} else active, started, before + [action])
  {
    assert (before + [action])[..|before|] == before;
    forall j: nat | j < |started|
      ensures IsActive(before + [action], j) <==> IsActive(before, j) && j != k
    {
      ActiveStep(before, action, j);
    }
  }

  lemma {:induction false} OthersStayActive(active: set<FirebirdTransaction>, started: seq<FirebirdTransaction>,
                                           before: seq<Action>, action: Action)
    requires ActiveAre(active, started, before) && (action.LookupTable? || action.LoadTables? || action.ClearTable?)
    ensures ActiveAre(active, started, before + [action])
    ensures forall k: nat :: IsActive(before + [action], k) <==> IsActive(before, k)
  {
    assert (before + [action])[..|before|] == before;
    forall k: nat
      ensures IsActive(before + [action], k) <==> IsActive(before, k)
    {
      ActiveStep(before, action, k);
    }
  }

  lemma {:induction false} SessionsStay(m: Server, started: seq<FirebirdTransaction>, before: seq<Action>, action: Action)
    requires SessionsAre(m, started, before) && |started| == Starts(before)
    requires action.Start? || action.Commit? || action.Rollback?
    ensures SessionsAre(m, started, before + [action])
  {
    forall k: nat | k < |started|
      ensures SessionOf(m, before + [action], k) == SessionOf(m, before, k)
      ensures IsActive(before + [action], k) ==> IsActive(before, k)
    {
      SessionStep(m, before, action, k);
      ActiveStep(before, action, k);
    }
  }

  method StartOne(manager: FirebirdTransactionManager, started: seq<FirebirdTransaction>, ghost before: seq<Action>)
    returns (after: seq<FirebirdTransaction>)
    requires Reflects(manager, started, before)
    modifies manager
    ensures Reflects(manager, after, before + [Start])
    ensures |after| == |started| + 1 && after[..|started|] == started
    ensures fresh(after[|started|]) && fresh(after[|started|].connection)
  {
    SessionsStay(manager.client.server, started, before, Start);
    var t := manager.StartTransaction();
    after := started + [t];
    StartedIsActive(old(manager.transactions), started, before, t);
    SessionsSnoc(manager.client.server, started, before, t);
  }

  lemma {:induction false} SessionsSnoc(m: Server, started: seq<FirebirdTransaction>, before: seq<Action>, t: FirebirdTransaction)
    requires SessionsAre(m, started, before + [Start]) && |started| == Starts(before)
    requires t.Cached() == map[] && t.connection.conn.None?
    ensures SessionsAre(m, started + [t], before + [Start])
  {
    var after := started + [t];
    NeverTouched(m, before, |started|);
    SessionStep(m, before, Start, |started|);
    assert forall k :: 0 <= k < |started| ==> after[k] == started[k];
  }

  /** Nothing happens inside a transaction before it is started. */
  lemma {:induction false} NeverTouched(m: Server, actions: seq<Action>, k: nat)
    requires k >= Starts(actions)
    ensures SessionOf(m, actions, k) == Session(map[], false)
    decreases |actions|
  {
    if actions != [] {
      var front := actions[..|actions| - 1];
      NeverTouched(m, front, k);
      if IsActive(front, k) {
        ActiveWasStarted(front, k);
      }
    }
  }

  /** Before the last action on the k-th transaction is performed: the others are up to date, the k-th is one attempt behind. */
  ghost predicate OneBehind(m: Server, started: seq<FirebirdTransaction>, actions: seq<Action>, k: nat, attempt: Attempt)
    reads set t | t in started, set t | t in started :: t.connection
  {
    && k < |started|
    && (forall j: nat :: j < |started| && j != k ==>
          started[j].Cached() == SessionOf(m, actions, j).cache
          && (IsActive(actions, j) ==> (started[j].connection.conn.Some? <==> SessionOf(m, actions, j).open)))
    && SessionOf(m, actions, k)
       == Continued(m, Session(started[k].Cached(), started[k].connection.conn.Some?), attempt)
  }

  lemma {:induction false} IsOneBehind(m: Server, started: seq<FirebirdTransaction>, before: seq<Action>, action: Action, k: nat,
                                      attempt: Attempt)
    requires SessionsAre(m, started, before) && AttemptOn(action, k) == Some(attempt)
    ensures k < |started| && IsActive(before, k) ==> OneBehind(m, started, before + [action], k, attempt)
    ensures !IsActive(before, k) ==> SessionsAre(m, started, before + [action])
  {
    forall j: nat | j < |started|
      ensures IsActive(before + [action], j) <==> IsActive(before, j)
      ensures SessionOf(m, before + [action], j)
           == if j == k && IsActive(before, k) then Continued(m, SessionOf(m, before, k), attempt) else SessionOf(m, before, j)
    {
      ActiveStep(before, action, j);
      SessionStep(m, before, action, j);
    }
  }

  method PerformAt(manager: FirebirdTransactionManager, started: seq<FirebirdTransaction>, k: nat, attempt: Attempt,
                   ghost actions: seq<Action>)
    requires manager.Valid() && ActiveAre(manager.transactions, started, actions)
    requires OneBehind(manager.client.server, started, actions, k, attempt) && started[k] in manager.transactions
    modifies manager.client, set t | t in started, set t | t in started :: t.connection
    ensures Reflects(manager, started, actions)
  {
    manager.Perform(started[k], attempt);
    forall j: nat | j < |started| && j != k
      ensures started[j].Cached() == old(started[j].Cached())
      ensures IsActive(actions, j) ==> started[j].connection.conn == old(started[j].connection.conn)
    {
      assert started[j] != started[k];
    }
  }

  method PerformOne(manager: FirebirdTransactionManager, started: seq<FirebirdTransaction>, k: nat, attempt: Attempt,
                    action: Action, ghost before: seq<Action>)
    requires Reflects(manager, started, before) && AttemptOn(action, k) == Some(attempt)
    modifies manager.client, set t | t in started, set t | t in started :: t.connection
    ensures Reflects(manager, started, before + [action])
  {
    OthersStayActive(manager.transactions, started, before, action);
    IsOneBehind(manager.client.server, started, before, action, k, attempt);
    if k < |started| && started[k] in manager.transactions {
      PerformAt(manager, started, k, attempt, before + [action]);
    } else if k >= |started| {
      NotYetActive(before, k);
    }
  }

  lemma {:induction false} NotYetActive(actions: seq<Action>, k: nat)
    requires k >= Starts(actions)
    ensures !IsActive(actions, k)
  {
    if IsActive(actions, k) {
      ActiveWasStarted(actions, k);
    }
  }

  method FinishOne(manager: FirebirdTransactionManager, started: seq<FirebirdTransaction>, k: nat, commits: bool,
                   ghost before: seq<Action>)
    requires Reflects(manager, started, before)
    modifies manager, manager.client, set t | t in started :: t.connection
    ensures Reflects(manager, started, before + [if commits then Commit(k) else Rollback(k)])
  {
    ghost var action := if commits then Commit(k) else Rollback(k);
    FinishedIsInactive(manager.transactions, started, before, action, k);
    SessionsStay(manager.client.server, started, before, action);
    if k < |started| {
      FinishAt(manager, started, k, commits, before + [action]);
    }
  }

  method FinishAt(manager: FirebirdTransactionManager, started: seq<FirebirdTransaction>, k: nat, commits: bool,
                  ghost actions: seq<Action>)
    requires manager.Valid() && k < |started| && SessionsAre(manager.client.server, started, actions)
    requires ActiveAre(manager.transactions - {started[k]}, started, actions)
    modifies manager, manager.client, set t | t in started :: t.connection
    ensures Reflects(manager, started, actions)
  {
    Finish(manager, started[k], commits);
    forall j: nat | j < |started|
      ensures started[j].Cached() == old(started[j].Cached())
      ensures IsActive(actions, j) ==> started[j].connection.conn == old(started[j].connection.conn)
    {
      assert IsActive(actions, j) ==> started[j] in manager.transactions;
    }
  }

  method Finish(manager: FirebirdTransactionManager, t: FirebirdTransaction, commits: bool)
    requires manager.Valid()
    modifies manager, t.connection, manager.client
    ensures manager.Valid() && manager.transactions == old(manager.transactions) - {t}
    ensures forall u :: u in manager.transactions ==> u.connection.conn == old(u.connection.conn)
  {
    if commits {
      manager.CommitTransaction(t);
    } else {
      manager.RollbackTransaction(t);
    }
  }

  method Act(manager: FirebirdTransactionManager, started: seq<FirebirdTransaction>, action: Action, ghost before: seq<Action>)
    returns (after: seq<FirebirdTransaction>)
    requires Reflects(manager, started, before)
    modifies manager, manager.client, set t | t in started, set t | t in started :: t.connection
    ensures Reflects(manager, after, before + [action])
    ensures forall t :: t in after && t !in started ==> fresh(t) && fresh(t.connection)
  {
    after := started;
    match action {
      case Start =>
        after := StartOne(manager, started, before);
        assert forall t :: t in after ==> t in after[..|started|] || t == after[|started|];
      case LookupTable(k, name, connects) =>
        PerformOne(manager, started, k, Attempt(CatalogCache.LookupTable(name), connects), action, before);
      case LoadTables(k, connects) =>
        PerformOne(manager, started, k, Attempt(CatalogCache.LoadAllTables, connects), action, before);
      case ClearTable(k, name) =>
        PerformOne(manager, started, k, Attempt(CatalogCache.ClearTable(name), false), action, before);
      case Commit(k) =>
        FinishOne(manager, started, k, true, before);
      case Rollback(k) =>
        FinishOne(manager, started, k, false, before);
    }
  }

  /**
   * Any run of a new manager, with connects failing at any point: the active transactions are those started and neither
   * committed nor rolled back, each with the cache and connection its own actions leave, and every handle ever opened is
   * owned by one of them or was released once.
   */
  method RunAll(server: Server, actions: seq<Action>)
    returns (manager: FirebirdTransactionManager, started: seq<FirebirdTransaction>)
    ensures manager.client.server == server && Reflects(manager, started, actions)
    ensures manager.transactions == {} ==> manager.client.live == {} && manager.client.released == manager.client.issued
  {
    manager := new FirebirdTransactionManager(server);
    started := [];
    for i := 0 to |actions|
      invariant manager.client.server == server && Reflects(manager, started, actions[..i])
      invariant fresh(manager) && fresh(manager.client)
      invariant forall t :: t in started ==> fresh(t) && fresh(t.connection)
    {
      assert actions[..i + 1] == actions[..i] + [actions[i]];
      started := Act(manager, started, actions[i], actions[..i]);
    }
    assert actions[..|actions|] == actions;
  }
}
