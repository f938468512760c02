/** Whole runs of the scan's methods: they follow the protocol, so what they emit is a prefix of the server's rows. */
module ScanRuns {
  import opened ScanCursor
  import opened ScanProtocol
  import opened StreamingScan

  /** What DuckDB's threads do: initialise a local state, or call the scan with one. */
  datatype Event = Init(connects: bool) | Call(i: nat)

  /** The events as protocol steps, when some threads are initialised already. */
  function Expand(events: seq<Event>, threads: nat): seq<Action> {
    if events == [] then []
    else
      match events[0]
      case Init(connects) => [Claim, Open(threads, connects)] + Expand(events[1..], threads + 1)
      case Call(i) => [Action.Call(i)] + Expand(events[1..], threads)
  }

  function RowAt(output: DataChunk, i: nat): seq<OutCell>
    requires output.Shaped() && i < VECTOR_SIZE
    reads output.valid, output.data
  {
    seq(|output.types|, c requires 0 <= c < |output.types| reads output.valid, output.data => output.At(c, i))
  }

  /** The rows a reader sees in a chunk. */
  function Contents(output: DataChunk): OutRows
    requires output.Shaped() && output.size <= VECTOR_SIZE
    reads output, output.valid, output.data
  {
    var n := output.size;
    seq(n, i requires 0 <= i < n reads output.valid, output.data => RowAt(output, i))
  }

  lemma {:induction false} RowsAreWide(w: Setting, l: Local)
    requires l.fetched <= |w.rows|
    ensures var outcome := ScanOnce(w.types, w.rows, l);
            outcome.Chunk? ==> forall i :: 0 <= i < |outcome.rows| ==> |outcome.rows[i]| == |w.types|
  {
  }

  /** One call of the scan with a new chunk. */
  method CallScan(local: LocalState, w: Setting) returns (ok: bool, emitted: OutRows)
    requires local.Valid() && (local.cursor != null ==> local.cursor.rows == w.rows)
    modifies local, local.cursor, if local.cursor == null then {} else {local.cursor.scratch}
    ensures local.cursor == old(local.cursor)
    ensures match ScanOnce(w.types, w.rows, old(local.View()))
            case Threw => !ok
            case Chunk(after, rows) => ok && local.Valid() && local.View() == after && emitted == rows
  {
    var output := new DataChunk(w.types);
    ghost var outcome := ScanOnce(w.types, w.rows, local.View());
    assert local.cursor == null ==> outcome == ScanOnce(w.types, [], local.View());
    RowsAreWide(w, local.View());
    ok := FirebirdScan(local, output);
    emitted := [];
    if ok {
      emitted := Contents(output);
      forall i | 0 <= i < |emitted|
        ensures emitted[i] == outcome.rows[i]
      {
        assert emitted[i] == RowAt(output, i);
      }
    }
  }

  /** The local states are those of the protocol's threads, and at most one of them has a cursor. */
  ghost predicate Follows(s: Protocol, claimed: bool, locals: seq<LocalState>, w: Setting)
    reads locals, set l | l in locals :: l.cursor
  {
    && s.claimed == claimed && (!claimed ==> locals == [])
    && |locals| == |s.threads|
    && (forall i :: 0 <= i < |locals| ==>
          && locals[i].Valid() && s.threads[i] == Ready(locals[i].View())
          && (locals[i].cursor != null ==> locals[i].cursor.rows == w.rows))
    && (forall i, j :: 0 <= i < j < |locals| ==>
          locals[i] != locals[j] && (locals[i].cursor == null || locals[j].cursor == null))
  }

  /** The protocol after one event. */
  function After(s: Protocol, e: Event, w: Setting): (r: Protocol)
    requires InRange(s, w)
    ensures InRange(r, w)
  {
    match e
    case Init(connects) => Step(Step(s, Claim, w), Open(|s.threads|, connects), w)
    case Call(i) => Step(s, Action.Call(i), w)
  }

  function NextCount(s: Protocol, e: Event): nat {
    if e.Init? then |s.threads| + 1 else |s.threads|
  }

  lemma {:induction false} ExpandStep(s: Protocol, events: seq<Event>, w: Setting)
    requires InRange(s, w) && events != []
    ensures Steps(s, Expand(events, |s.threads|), w) == Steps(After(s, events[0], w), Expand(events[1..], NextCount(s, events[0])), w)
  {
    var n := |s.threads|;
    match events[0] {
      case Init(connects) =>
        var all, more := Expand(events, n), Expand(events[1..], n + 1);
        assert all[0] == Claim && all[1..] == [Open(n, connects)] + more;
        assert all[1..][0] == Open(n, connects) && all[1..][1..] == more;
        assert Steps(s, all, w) == Steps(Step(s, Claim, w), all[1..], w);
      case Call(i) =>
        assert Expand(events, n)[1..] == Expand(events[1..], n);
    }
  }

  lemma {:induction false} AbortedStays(s: Protocol, actions: seq<Action>, w: Setting)
    requires InRange(s, w) && s.aborted
    ensures Steps(s, actions, w) == s
    decreases actions
  {
    if actions != [] {
      AbortedStays(s, actions[1..], w);
    }
  }

  /** One initialisation, on a scan in step with the protocol. */
  method InitThread(global: GlobalState, locals: seq<LocalState>, w: Setting, connects: bool, ghost s: Protocol)
    returns (after: seq<LocalState>, ok: bool)
    requires InRange(s, w) && !s.aborted && Follows(s, global.claimed, locals, w)
    modifies global
    ensures var r := After(s, Init(connects), w);
            && r.aborted == !ok && r.chunks == s.chunks
            && (ok ==> Follows(r, global.claimed, after, w))
    ensures ok ==> |after| == |locals| + 1 && after[..|locals|] == locals && fresh(after[|locals|])
    ensures ok && after[|locals|].cursor != null ==>
              fresh(after[|locals|].cursor) && fresh(after[|locals|].cursor.scratch)
  {
    after := locals;
    var local := FirebirdInitLocal(global, w.rows, connects);
    ok := local.Some?;
    if ok {
      after := locals + [local.value];
    }
  }

  /** One call of the scan, on a scan in step with the protocol. */
  method CallThread(locals: seq<LocalState>, i: nat, w: Setting, ghost s: Protocol, ghost claimed: bool)
    returns (ok: bool, emitted: OutRows)
    requires InRange(s, w) && !s.aborted && Follows(s, claimed, locals, w) && i < |locals|
    modifies locals[i], locals[i].cursor, if locals[i].cursor == null then {} else {locals[i].cursor.scratch}
    ensures forall j :: 0 <= j < |locals| ==> locals[j].cursor == old(locals[j].cursor)
    ensures var r := After(s, Event.Call(i), w);
            && r.aborted == !ok && r.chunks == (if ok then s.chunks + [emitted] else s.chunks)
            && (ok ==> Follows(r, claimed, locals, w))
  {
    ok, emitted := CallScan(locals[i], w);
    assert forall j :: 0 <= j < |locals| && j != i ==> locals[j] != locals[i];
  }

  /** The local states, their cursors and their buffers all belong to a set of objects. */
  ghost predicate OwnedBy(locals: seq<LocalState>, owned: set<object>)
    reads locals
  {
    forall i :: 0 <= i < |locals| ==>
      && locals[i] in owned
      && (locals[i].cursor != null ==> locals[i].cursor in owned && locals[i].cursor.scratch in owned)
  }

  /** One event, on a scan in step with the protocol. */
  method RunEvent(global: GlobalState, locals: seq<LocalState>, w: Setting, e: Event, ghost s: Protocol, ghost owned: set<object>)
    returns (after: seq<LocalState>, ok: bool, emitted: seq<OutRows>, ghost added: set<object>)
    requires InRange(s, w) && !s.aborted && Follows(s, global.claimed, locals, w)
    requires OwnedBy(locals, owned) && global !in owned
    modifies global, owned
    ensures var r := After(s, e, w);
            && r.aborted == !ok && r.chunks == s.chunks + emitted
            && (ok ==> Follows(r, global.claimed, after, w))
    ensures fresh(added) && (ok ==> OwnedBy(after, owned + added))
  {
    after, ok, emitted, added := locals, true, [], {};
    match e {
      case Init(connects) =>
        after, ok := InitThread(global, locals, w, connects, s);
        if ok {
          var l := after[|locals|];
          added := {l};
          if l.cursor != null {
            added := {l, l.cursor, l.cursor.scratch};
          }
        }
      case Call(i) =>
        if i < |locals| {
          var chunk;
          ok, chunk := CallThread(locals, i, w, s, global.claimed);
          emitted := if ok then [chunk] else [];
        }
    }
  }

  /** After an event the protocol goes on from the new number of threads; after an exception it does not go on. */
  lemma {:induction false} Continued(s: Protocol, e: Event, more: seq<Event>, w: Setting) returns (r: Protocol)
    requires InRange(s, w) && !s.aborted
    ensures r == After(s, e, w)
    ensures Steps(r, Expand(more, |r.threads|), w) == Steps(r, Expand(more, NextCount(s, e)), w)
  {
    r := After(s, e, w);
    if r.aborted {
      AbortedStays(r, Expand(more, |r.threads|), w);
      AbortedStays(r, Expand(more, NextCount(s, e)), w);
    }
  }

  /**
   * Any run of the methods, under any schedule and with connects failing anywhere: it makes the steps of the protocol,
   * and what all its threads together emitted is a prefix of the server's rows, each once and in order.
   */
  method RunScan(w: Setting, events: seq<Event>) returns (chunks: seq<OutRows>, aborted: bool, ghost delivered: nat)
    ensures var s := Steps(START, Expand(events, 0), w);
            chunks == s.chunks && aborted == s.aborted
    ensures DeliveredUpTo(chunks, delivered, w)
  {
    var global := new GlobalState();
    var locals: seq<LocalState> := [];
    ghost var s, owned: set<object> := START, {};
    chunks, aborted := [], false;
    assert events[0..] == events;
    for k := 0 to |events|
      invariant InRange(s, w) && s.aborted == aborted && s.chunks == chunks
      invariant Steps(s, Expand(events[k..], |s.threads|), w) == Steps(START, Expand(events, 0), w)
      invariant !aborted ==> Follows(s, global.claimed, locals, w) && OwnedBy(locals, owned)
      invariant fresh(global) && fresh(owned) && global !in owned
    {
      if aborted {
        AbortedStays(s, Expand(events[k..], |s.threads|), w);
        AbortedStays(s, Expand(events[k + 1..], |s.threads|), w);
        continue;
      }
      assert events[k..][0] == events[k] && events[k..][1..] == events[k + 1..];
      ExpandStep(s, events[k..], w);
      var ok, emitted;
      ghost var added;
      locals, ok, emitted, added := RunEvent(global, locals, w, events[k], s, owned);
      owned := owned + added;
      s := Continued(s, events[k], events[k + 1..], w);
      aborted, chunks := !ok, chunks + emitted;
    }
    delivered := DeliveredIsPrefix(Expand(events, 0), w);
  }
}
