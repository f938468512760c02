/** The scan protocol: one thread claims the scan, and its chunks deliver the server's rows exactly once. */
module StreamingScan {
  import opened ScanCursor
  import opened Wrappers

  type OutRows = seq<seq<OutCell>>

  // ---------------------------------------------------------------------------
  // What one call of the scan delivers
  // ---------------------------------------------------------------------------

  /** The number of convertible rows from a position, up to a limit. */
  function Run(types: seq<ColumnType>, rows: seq<Fetch>, from: nat, limit: nat): (n: nat)
    ensures n <= limit && (from <= |rows| ==> from + n <= |rows|)
    ensures from <= |rows| ==> forall k :: from <= k < from + n ==> Convertible(types, rows[k])
    decreases |rows| - from
  {
    if limit == 0 || from >= |rows| || !Convertible(types, rows[from]) then 0
    else 1 + Run(types, rows, from + 1, limit - 1)
  }

  function OutRowsOf(types: seq<ColumnType>, rows: seq<Fetch>): OutRows
    requires forall k :: 0 <= k < |rows| ==> Convertible(types, rows[k])
  {
    seq(|rows|, k requires 0 <= k < |rows| => OutRow(types, rows[k]))
  }

  /** A local state: whether it opened a cursor, how many rows that fetched, whether the scan is over for it. */
  datatype Local = Local(hasCursor: bool, fetched: nat, done: bool)

  /** The outcome of one call: the next local state and the rows of the chunk, or an exception. */
  datatype Outcome = Chunk(local: Local, rows: OutRows) | Threw

  function ScanOnce(types: seq<ColumnType>, rows: seq<Fetch>, l: Local): Outcome
    requires l.fetched <= |rows|
  {
    if l.done || !l.hasCursor then Chunk(l, [])
    else
      var n := Run(types, rows, l.fetched, VECTOR_SIZE);
      var end := l.fetched + n;
      if n < VECTOR_SIZE && end < |rows| then Threw
      else Chunk(Local(true, end, n < VECTOR_SIZE), OutRowsOf(types, rows[l.fetched..end]))
  }

  // ---------------------------------------------------------------------------
  // The calls themselves
  // ---------------------------------------------------------------------------

  class GlobalState {
    var claimed: bool

    constructor ()
      ensures !claimed
    {
      claimed := false;
    }
  }

  class LocalState {
    var cursor: FbCursor?
    var done: bool

    constructor ()
      ensures cursor == null && !done
    {
      cursor := null;
      done := false;
    }

    function View(): Local
      reads this, cursor
    {
      Local(cursor != null, if cursor == null then 0 else cursor.fetched, done)
    }

    /** The cursor has reported its end exactly when this state is done with it. */
    ghost predicate Valid()
      reads this, cursor
    {
      cursor != null ==> cursor.fetched <= |cursor.rows| && cursor.ends == if done then 1 else 0
    }
  }

  /**
   * FirebirdInitLocal: the first caller claims the scan under the lock and opens a cursor, which may fail;
   * every later caller gets a state that is done.
   */
  method FirebirdInitLocal(global: GlobalState, rows: seq<Fetch>, connects: bool) returns (local: Option<LocalState>)
    modifies global
    ensures global.claimed
    ensures old(global.claimed) ==> local.Some? && local.value.View() == Local(false, 0, true)
    ensures !old(global.claimed) ==> (local.Some? <==> connects)
    ensures !old(global.claimed) && connects ==>
              && local.value.View() == Local(true, 0, false)
              && local.value.cursor.rows == rows && fresh(local.value.cursor) && fresh(local.value.cursor.scratch)
    ensures local.Some? ==> fresh(local.value) && local.value.Valid()
  {
    var result := new LocalState();
    if global.claimed {
      result.done := true;
      return Some(result);
    }
    global.claimed := true;
    if !connects {
      return None;
    }
    result.cursor := new FbCursor(rows);
    return Some(result);
  }

  /** The first rows of a chunk hold the converted rows from a position on. */
  predicate Filled(output: DataChunk, rows: seq<Fetch>, start: nat, count: nat)
    requires output.Shaped() && count <= VECTOR_SIZE && start + count <= |rows|
    requires forall k :: start <= k < start + count ==> Convertible(output.types, rows[k])
    reads output.valid, output.data
  {
    forall c, i :: 0 <= c < |output.types| && 0 <= i < count ==> output.At(c, i) == OutRow(output.types, rows[start + i])[c]
  }

  /** The rows of a chunk from an index on are still as DuckDB handed them out. */
  predicate Clean(output: DataChunk, from: nat)
    requires output.Shaped()
    reads output.valid
  {
    forall c, i :: 0 <= c < |output.types| && from <= i < VECTOR_SIZE ==> output.valid[c, i]
  }

  /** Writes the cursor's current row behind the rows already in the chunk. */
  method AppendRow(cursor: FbCursor, output: DataChunk, ghost rows: seq<Fetch>, ghost start: nat, count: nat)
    returns (ok: bool)
    requires output.Shaped() && count < VECTOR_SIZE && start + count < |rows|
    requires cursor.current.Some? && rows[start + count] == Row(cursor.current.value)
    requires forall k :: start <= k < start + count ==> Convertible(output.types, rows[k])
    requires Clean(output, count) && Filled(output, rows, start, count)
    modifies cursor.scratch, output.valid, output.data
    ensures ok == Convertible(output.types, rows[start + count])
    ensures ok ==> Clean(output, count + 1) && Filled(output, rows, start, count + 1)
  {
    ok := WriteRow(cursor, output, count);
    if ok {
      forall c, i | 0 <= c < |output.types| && 0 <= i < count + 1
        ensures output.At(c, i) == OutRow(output.types, rows[start + i])[c]
      {
        if i < count {
          assert output.At(c, i) == old(output.At(c, i));
        }
      }
    }
  }

  datatype FillEnd = ChunkFull | EndOfData | Failed

  /** The row loop: it stops at a full chunk, at the end of the data, or at an exception. */
  method FillChunk(cursor: FbCursor, output: DataChunk) returns (count: nat, end: FillEnd)
    requires cursor.fetched <= |cursor.rows| && output.Shaped() && Clean(output, 0)
    modifies cursor, cursor.scratch, output.valid, output.data
    ensures var start, n := old(cursor.fetched), Run(output.types, cursor.rows, old(cursor.fetched), VECTOR_SIZE);
            && end == (if n == VECTOR_SIZE then ChunkFull else if start + n == |cursor.rows| then EndOfData else Failed)
            && (end != Failed ==> count == n && cursor.fetched == start + n && Filled(output, cursor.rows, start, n))
    ensures cursor.ends == old(cursor.ends) + if end == EndOfData then 1 else 0
  {
    ghost var start, types, rows := cursor.fetched, output.types, cursor.rows;
    count := 0;
    while count < VECTOR_SIZE
      invariant count <= VECTOR_SIZE && cursor.ends == old(cursor.ends)
      invariant cursor.fetched == start + count <= |rows|
      invariant Run(types, rows, start, VECTOR_SIZE) == count + Run(types, rows, start + count, VECTOR_SIZE - count)
      invariant Clean(output, count)
      invariant forall k :: start <= k < start + count ==> Convertible(types, rows[k])
      invariant Filled(output, rows, start, count)
    {
      var rc := cursor.Next();
      if rc < 0 {
        return count, Failed;
      }
      if rc != 1 {
        return count, EndOfData;
      }
      var ok := AppendRow(cursor, output, rows, start, count);
      if !ok {
        return count, Failed;
      }
      count := count + 1;
    }
    return count, ChunkFull;
  }

  /**
   * FirebirdScan: fills one chunk from the cursor. The cursor is not touched once it has reported its end, and
   * every cell of the chunk is the server's.
   */
  method FirebirdScan(local: LocalState, output: DataChunk) returns (ok: bool)
    requires local.Valid() && output.Shaped() && Clean(output, 0)
    modifies local, local.cursor, if local.cursor == null then {} else {local.cursor.scratch}
    modifies output, output.valid, output.data
    ensures ok ==> local.Valid()
    ensures local.cursor == old(local.cursor)
    ensures old(local.done) && local.cursor != null ==>
              local.cursor.ends == old(local.cursor.ends) && local.cursor.fetched == old(local.cursor.fetched)
    ensures var rows := if local.cursor == null then [] else local.cursor.rows;
            match ScanOnce(output.types, rows, old(local.View()))
            case Threw => !ok
            case Chunk(after, emitted) =>
              && ok && local.View() == after
              && output.size == |emitted| <= VECTOR_SIZE
              && forall c, i :: 0 <= c < |output.types| && 0 <= i < |emitted| ==> output.At(c, i) == emitted[i][c]
  {
    if local.done || local.cursor == null {
      output.size := 0;
      return true;
    }
    var count, end := FillChunk(local.cursor, output);
    if end == Failed {
      return false;
    }
    if end == EndOfData {
      local.done := true;
    }
    output.size := count;
    return true;
  }
}
