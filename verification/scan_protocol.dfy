/** The scan as a step system: any number of threads, any interleaving, possible connection and fetch errors. */
module ScanProtocol {
  import opened ScanCursor
  import opened StreamingScan

  /** A caller of the scan: between its claim and its cursor, or with a local state. */
  datatype Thread = Opening | Ready(local: Local)

  datatype Protocol = Protocol(claimed: bool, threads: seq<Thread>, chunks: seq<OutRows>, aborted: bool)

  datatype Action =
    | Claim                          // FirebirdInitLocal, its locked part
    | Open(i: nat, connects: bool)   // FirebirdInitLocal, opening the cursor after the lock
    | Call(i: nat)                   // one call of FirebirdScan

  /** One scan: the output types and the server's rows, both fixed. */
  datatype Setting = Setting(types: seq<ColumnType>, rows: seq<Fetch>)

  const START := Protocol(false, [], [], false)

  predicate InRange(s: Protocol, w: Setting) {
    forall i :: 0 <= i < |s.threads| && s.threads[i].Ready? ==> s.threads[i].local.fetched <= |w.rows|
  }

  /** One step; after an exception the query is aborted and nothing runs any more. */
  function Step(s: Protocol, a: Action, w: Setting): (r: Protocol)
    requires InRange(s, w)
    ensures InRange(r, w)
  {
    if s.aborted then s
    else
      match a
      case Claim =>
        if s.claimed then s.(threads := s.threads + [Ready(Local(false, 0, true))])
        else s.(claimed := true, threads := s.threads + [Opening])
      case Open(i, connects) =>
        if i >= |s.threads| || !s.threads[i].Opening? then s
        else if connects then s.(threads := s.threads[i := Ready(Local(true, 0, false))])
        else s.(aborted := true)
      case Call(i) =>
        if i >= |s.threads| || !s.threads[i].Ready? then s
        else
          match ScanOnce(w.types, w.rows, s.threads[i].local)
          case Threw => s.(aborted := true)
          case Chunk(local, emitted) => s.(threads := s.threads[i := Ready(local)], chunks := s.chunks + [emitted])
  }

  function Steps(s: Protocol, actions: seq<Action>, w: Setting): (r: Protocol)
    requires InRange(s, w)
    ensures InRange(r, w)
    decreases actions
  {
    if actions == [] then s else Steps(Step(s, actions[0], w), actions[1..], w)
  }

  function Flat(chunks: seq<OutRows>): OutRows {
    if chunks == [] then [] else Flat(chunks[..|chunks| - 1]) + chunks[|chunks| - 1]
  }

  // ---------------------------------------------------------------------------
  // The invariant
  // ---------------------------------------------------------------------------

  predicate HoldsScan(t: Thread) {
    t.Opening? || t.local.hasCursor
  }

  /** All rows before a position convert, and the chunks so far are exactly those rows. */
  predicate DeliveredUpTo(chunks: seq<OutRows>, n: nat, w: Setting) {
    && n <= |w.rows|
    && (forall k :: 0 <= k < n ==> Convertible(w.types, w.rows[k]))
    && Flat(chunks) == OutRowsOf(w.types, w.rows[..n])
  }

  ghost predicate Invariant(s: Protocol, w: Setting) {
    && InRange(s, w)
    && (!s.claimed ==> s.threads == [])
    && (forall i, j :: 0 <= i < j < |s.threads| ==> !(HoldsScan(s.threads[i]) && HoldsScan(s.threads[j])))
    && (forall i :: 0 <= i < |s.threads| && !HoldsScan(s.threads[i]) ==> s.threads[i].local.done)
    && (forall i :: 0 <= i < |s.threads| && s.threads[i].Ready? && s.threads[i].local.hasCursor ==>
          DeliveredUpTo(s.chunks, s.threads[i].local.fetched, w)
          && (s.threads[i].local.done ==> s.threads[i].local.fetched == |w.rows|))
    && ((forall i :: 0 <= i < |s.threads| && s.threads[i].Ready? ==> !s.threads[i].local.hasCursor) ==> Flat(s.chunks) == [])
  }

  lemma {:induction false} FlatSnoc(chunks: seq<OutRows>, chunk: OutRows)
    ensures Flat(chunks + [chunk]) == Flat(chunks) + chunk
  {
    assert (chunks + [chunk])[..|chunks|] == chunks;
  }

  /** A chunk continues the rows delivered before it. */
  lemma {:induction false} ChunkContinues(chunks: seq<OutRows>, l: Local, w: Setting)
    requires l.hasCursor && !l.done && DeliveredUpTo(chunks, l.fetched, w)
    ensures match ScanOnce(w.types, w.rows, l)
            case Threw => true
            case Chunk(after, emitted) =>
              && DeliveredUpTo(chunks + [emitted], after.fetched, w)
              && after.hasCursor && (after.done ==> after.fetched == |w.rows|)
              && (emitted == [] <==> l.fetched == |w.rows|) && (emitted == [] ==> after.done)
  {
    var n := Run(w.types, w.rows, l.fetched, VECTOR_SIZE);
    var end := l.fetched + n;
    if ScanOnce(w.types, w.rows, l).Chunk? {
      FlatSnoc(chunks, OutRowsOf(w.types, w.rows[l.fetched..end]));
      assert w.rows[..end] == w.rows[..l.fetched] + w.rows[l.fetched..end];
      assert OutRowsOf(w.types, w.rows[..end])
          == OutRowsOf(w.types, w.rows[..l.fetched]) + OutRowsOf(w.types, w.rows[l.fetched..end]);
    }
  }

  lemma {:induction false} StepKeepsInvariant(s: Protocol, a: Action, w: Setting)
    requires Invariant(s, w)
    ensures Invariant(Step(s, a, w), w)
  {
    if !s.aborted {
      match a {
        case Claim => ClaimKeeps(s, w);
        case Open(i, connects) => OpenKeeps(s, i, connects, w);
        case Call(i) => CallKeeps(s, i, w);
      }
    }
  }

  lemma {:induction false} ClaimKeeps(s: Protocol, w: Setting)
    requires Invariant(s, w) && !s.aborted
    ensures Invariant(Step(s, Claim, w), w)
  {
    var r := Step(s, Claim, w);
    assert forall i :: 0 <= i < |s.threads| ==> r.threads[i] == s.threads[i];
  }

  lemma {:induction false} OpenKeeps(s: Protocol, i: nat, connects: bool, w: Setting)
    requires Invariant(s, w) && !s.aborted
    ensures Invariant(Step(s, Open(i, connects), w), w)
  {
    if i < |s.threads| && s.threads[i].Opening? && connects {
      var r := Step(s, Open(i, connects), w);
      assert forall j :: 0 <= j < |s.threads| && j != i ==> r.threads[j] == s.threads[j] && !HoldsScan(s.threads[j]);
      assert w.rows[..0] == [];
      assert r.threads[i].local.hasCursor;
    }
  }

  lemma {:induction false} CallKeeps(s: Protocol, i: nat, w: Setting)
    requires Invariant(s, w) && !s.aborted
    ensures Invariant(Step(s, Call(i), w), w)
  {
    if i < |s.threads| && s.threads[i].Ready? && ScanOnce(w.types, w.rows, s.threads[i].local).Chunk? {
      var l := s.threads[i].local;
      if l.hasCursor && !l.done {
        HolderCallKeeps(s, i, w);
      } else {
        FlatSnoc(s.chunks, []);
        assert Flat(s.chunks) + [] == Flat(s.chunks);
        assert Step(s, Call(i), w).threads == s.threads;
      }
    }
  }

  lemma {:induction false} HolderCallKeeps(s: Protocol, i: nat, w: Setting)
    requires Invariant(s, w) && !s.aborted && i < |s.threads| && s.threads[i].Ready?
    requires s.threads[i].local.hasCursor && !s.threads[i].local.done
    requires ScanOnce(w.types, w.rows, s.threads[i].local).Chunk?
    ensures Invariant(Step(s, Call(i), w), w)
  {
    var r := Step(s, Call(i), w);
    ChunkContinues(s.chunks, s.threads[i].local, w);
    assert forall j :: 0 <= j < |s.threads| && j != i ==> r.threads[j] == s.threads[j] && !HoldsScan(s.threads[j]);
    assert r.threads[i].Ready? && r.threads[i].local.hasCursor;
  }

  lemma {:induction false} RunsKeepInvariant(s: Protocol, actions: seq<Action>, w: Setting)
    requires Invariant(s, w)
    ensures Invariant(Steps(s, actions, w), w)
    decreases actions
  {
    if actions != [] {
      StepKeepsInvariant(s, actions[0], w);
      RunsKeepInvariant(Step(s, actions[0], w), actions[1..], w);
    }
  }

  // ---------------------------------------------------------------------------
  // Exactly-once delivery
  // ---------------------------------------------------------------------------

  /**
   * In every run at most one thread holds the scan, and what all threads together emitted is a prefix of the
   * server's rows, each once and in order.
   */
  lemma {:induction false} DeliveredIsPrefix(actions: seq<Action>, w: Setting) returns (n: nat)
    ensures var s := Steps(START, actions, w);
            && (forall i, j :: 0 <= i < j < |s.threads| ==> !(HoldsScan(s.threads[i]) && HoldsScan(s.threads[j])))
            && DeliveredUpTo(s.chunks, n, w)
  {
    assert w.rows[..0] == [];
    RunsKeepInvariant(START, actions, w);
    var s := Steps(START, actions, w);
    if i :| 0 <= i < |s.threads| && s.threads[i].Ready? && s.threads[i].local.hasCursor {
      n := s.threads[i].local.fetched;
    } else {
      n := 0;
    }
  }

  /**
   * Once a call of the thread that holds the cursor delivers no rows, every row of the server has been delivered,
   * and every row was convertible; before that the call delivers at least one row or throws.
   */
  lemma {:induction false} EmptyChunkMeansAllDelivered(actions: seq<Action>, i: nat, w: Setting)
    requires var s := Steps(START, actions, w);
             !s.aborted && i < |s.threads| && s.threads[i].Ready? && s.threads[i].local.hasCursor
    ensures var s := Steps(START, actions, w);
            var r := Step(s, Call(i), w);
            !r.aborted && r.chunks[|s.chunks|] == [] <==> DeliveredUpTo(s.chunks, |w.rows|, w)
  {
    assert w.rows[..0] == [];
    RunsKeepInvariant(START, actions, w);
    var s := Steps(START, actions, w);
    var l := s.threads[i].local;
    if l.done {
      assert l.fetched == |w.rows|;
    } else {
      ChunkContinues(s.chunks, l, w);
      if DeliveredUpTo(s.chunks, |w.rows|, w) {
        assert |OutRowsOf(w.types, w.rows[..l.fetched])| == |OutRowsOf(w.types, w.rows[..|w.rows|])|;
      }
    }
  }

  /** A thread without the cursor never delivers a row. */
  lemma {:induction false} OthersDeliverNothing(actions: seq<Action>, i: nat, w: Setting)
    requires var s := Steps(START, actions, w);
             i < |s.threads| && s.threads[i].Ready? && !s.threads[i].local.hasCursor
    ensures var s := Steps(START, actions, w);
            Flat(Step(s, Call(i), w).chunks) == Flat(s.chunks)
  {
    var s := Steps(START, actions, w);
    FlatSnoc(s.chunks, []);
    assert Flat(s.chunks) + [] == Flat(s.chunks);
  }

  // ---------------------------------------------------------------------------
  // Chunk arithmetic
  // ---------------------------------------------------------------------------

  ghost predicate AllConvertible(w: Setting) {
    forall k :: 0 <= k < |w.rows| ==> Convertible(w.types, w.rows[k])
  }

  function Least(a: nat, b: nat): nat {
    if a < b then a else b
  }

  lemma {:induction false} RunToTheEnd(w: Setting, from: nat, limit: nat)
    requires AllConvertible(w) && from <= |w.rows|
    ensures Run(w.types, w.rows, from, limit) == Least(limit, |w.rows| - from)
    decreases limit
  {
    if limit != 0 && from < |w.rows| {
      RunToTheEnd(w, from + 1, limit - 1);
    }
  }

  lemma {:induction false} RunStops(w: Setting, from: nat, limit: nat)
    requires from <= |w.rows|
    ensures var n := Run(w.types, w.rows, from, limit);
            && n <= limit && from + n <= |w.rows|
            && (forall k :: from <= k < from + n ==> Convertible(w.types, w.rows[k]))
            && (n < limit && from + n < |w.rows| ==> !Convertible(w.types, w.rows[from + n]))
    decreases limit
  {
    if limit != 0 && from < |w.rows| && Convertible(w.types, w.rows[from]) {
      RunStops(w, from + 1, limit - 1);
    }
  }

  /** What one call does: it throws exactly when one of the next V rows does not convert, and otherwise delivers them all. */
  lemma {:induction false} OneCall(w: Setting, l: Local)
    requires l.fetched <= |w.rows|
    ensures l.done || !l.hasCursor ==> ScanOnce(w.types, w.rows, l) == Chunk(l, [])
    ensures l.hasCursor && !l.done ==>
              var end := Least(l.fetched + 2048, |w.rows|);
              if forall k :: l.fetched <= k < end ==> Convertible(w.types, w.rows[k]) then
                ScanOnce(w.types, w.rows, l)
                == Chunk(Local(true, end, |w.rows| < l.fetched + 2048), OutRowsOf(w.types, w.rows[l.fetched..end]))
              else ScanOnce(w.types, w.rows, l) == Threw
  {
    RunStops(w, l.fetched, VECTOR_SIZE);
  }

  /** The local state after a number of calls, on rows that all convert. */
  function AfterCalls(w: Setting, calls: nat): (l: Local)
    ensures l.hasCursor && l.fetched <= |w.rows|
  {
    if calls == 0 then Local(true, 0, false)
    else
      var l := AfterCalls(w, calls - 1);
      match ScanOnce(w.types, w.rows, l)
      case Chunk(after, _) => after
      case Threw => l
  }

  /** The cursor has fetched a full chunk a call until the rows run out; the last non-full chunk ends the scan. */
  lemma {:induction false} FetchedAfterCalls(w: Setting, calls: nat)
    requires AllConvertible(w)
    ensures AfterCalls(w, calls) == Local(true, Least(calls * VECTOR_SIZE, |w.rows|), |w.rows| < calls * VECTOR_SIZE)
  {
    if calls > 0 {
      FetchedAfterCalls(w, calls - 1);
      RunToTheEnd(w, AfterCalls(w, calls - 1).fetched, VECTOR_SIZE);
    }
  }

  /**
   * The scan of n rows: call number k + 1 delivers the rows from k * V on, at most V of them, and delivers some
   * exactly for the first ceil(n / V) calls; all those chunks but the last are full.
   */
  lemma {:induction false} ChunkSizes(w: Setting, k: nat)
    requires AllConvertible(w)
    ensures var n := |w.rows|;
            var chunks := (n + VECTOR_SIZE - 1) / VECTOR_SIZE;
            match ScanOnce(w.types, w.rows, AfterCalls(w, k))
            case Threw => false
            case Chunk(_, emitted) =>
              && emitted == OutRowsOf(w.types, w.rows[Least(k * VECTOR_SIZE, n)..Least((k + 1) * VECTOR_SIZE, n)])
              && (emitted != [] <==> k < chunks)
              && (k + 1 < chunks ==> |emitted| == VECTOR_SIZE)
  {
    FetchedAfterCalls(w, k);
    RunToTheEnd(w, AfterCalls(w, k).fetched, VECTOR_SIZE);
    assert w.rows[|w.rows|..|w.rows|] == [];
  }
}
