/** The streaming cursor, its one scratch buffer, and the cells a scan copies out of it. */
module ScanCursor {
  import opened SqlText
  import opened Wrappers

  const VECTOR_SIZE: nat := 2048

  /** A string of bytes, one character a byte. */
  type Bytes = string

  /** A floating-point value, with the texts and numbers the libraries print and cast it to. */
  datatype Float = Float(text: Bytes, truncated: int)

  /** A date and time, with its text and its distances from 1970-01-01 and from midnight. */
  datatype Stamp = Stamp(text: Bytes, days: int, timeMicros: int, stampMicros: int)

  datatype SqlType =
    | Null
    | Text(text: Bytes)
    | Binary(bytes: Bytes)
    | Integer(i: int)
    | Floating(f: Float)
    | Boolean(b: bool)
    | Timestamp(t: Stamp)

  type Cells = seq<SqlType>

  /** One item of the row iterator: a row, or a fetch error. */
  datatype Fetch = Row(cells: Cells) | Failure

  datatype ColumnType =
    | SmallIntColumn
    | IntegerColumn
    | BigIntColumn
    | FloatColumn
    | DoubleColumn
    | BooleanColumn
    | DateColumn
    | TimeColumn
    | TimestampColumn
    | VarcharColumn
    | BlobColumn
    | OtherColumn

  datatype Number = OfFloat(f: Float) | OfInteger(i: int) | Zero

  datatype OutCell =
    | NullCell
    | IntegerCell(i: int)
    | NumberCell(n: Number)
    | BooleanCell(b: bool)
    | BytesCell(bytes: Bytes)

  // ---------------------------------------------------------------------------
  // What each output cell must hold
  // ---------------------------------------------------------------------------

  /** A cast to a signed integer of the given number of values: it wraps around. */
  function Wrap(i: int, values: int): int
    requires values > 0
  {
    (i + values / 2) % values - values / 2
  }

  function CellI64(v: SqlType): int {
    match v
    case Integer(i) => i
    case Floating(f) => f.truncated
    case Boolean(b) => if b then 1 else 0
    case _ => 0
  }

  function CellF64(v: SqlType): Number {
    match v
    case Floating(f) => OfFloat(f)
    case Integer(i) => OfInteger(i)
    case _ => Zero
  }

  function CellBool(v: SqlType): bool {
    match v
    case Boolean(b) => b
    case Integer(i) => i != 0
    case _ => false
  }

  function IntegerText(i: int): Bytes {
    if i < 0 then "-" + Digits(-i) else Digits(i)
  }

  function CellText(v: SqlType): Bytes {
    match v
    case Text(s) => s
    case Binary(b) => b
    case Integer(i) => IntegerText(i)
    case Floating(f) => f.text
    case Boolean(b) => if b then "true" else "false"
    case Timestamp(t) => t.text
    case Null => ""
  }

  function CellBlob(v: SqlType): Bytes {
    match v
    case Binary(b) => b
    case Text(s) => s
    case _ => ""
  }

  /** The cell a scan must put in a column of a type; None where it throws. */
  function Converted(t: ColumnType, v: SqlType): Option<OutCell> {
    if v == Null then Some(NullCell)
    else
      match t
      case SmallIntColumn => Some(IntegerCell(Wrap(CellI64(v), 0x1_0000)))
      case IntegerColumn => Some(IntegerCell(Wrap(CellI64(v), 0x1_0000_0000)))
      case BigIntColumn => Some(IntegerCell(CellI64(v)))
      case FloatColumn => Some(NumberCell(CellF64(v)))
      case DoubleColumn => Some(NumberCell(CellF64(v)))
      case BooleanColumn => Some(BooleanCell(CellBool(v)))
      case DateColumn => Some(IntegerCell(if v.Timestamp? then v.t.days else 0))
      case TimeColumn => Some(IntegerCell(if v.Timestamp? then v.t.timeMicros else 0))
      case TimestampColumn => Some(IntegerCell(if v.Timestamp? then v.t.stampMicros else 0))
      case VarcharColumn => Some(BytesCell(CellText(v)))
      case BlobColumn => Some(BytesCell(CellBlob(v)))
      case OtherColumn => None
  }

  /** A column past the end of the row reads as NULL. */
  function CellAt(cells: Cells, c: nat): SqlType {
    if c < |cells| then cells[c] else Null
  }

  predicate Convertible(types: seq<ColumnType>, f: Fetch) {
    f.Row? && forall c :: 0 <= c < |types| ==> Converted(types[c], CellAt(f.cells, c)).Some?
  }

  /** The output row of a fetched row. */
  function OutRow(types: seq<ColumnType>, f: Fetch): seq<OutCell>
    requires Convertible(types, f)
  {
    seq(|types|, c requires 0 <= c < |types| => Converted(types[c], CellAt(f.cells, c)).value)
  }

  // ---------------------------------------------------------------------------
  // The cursor
  // ---------------------------------------------------------------------------

  /** The byte buffer that every text and blob accessor clears and refills. */
  class Buffer {
    var bytes: Bytes

    constructor ()
      ensures bytes == ""
    {
      bytes := "";
    }
  }

  class FbCursor {
    const rows: seq<Fetch>
    const scratch: Buffer
    var fetched: nat
    var current: Option<Cells>
    /** How often the end of the data was reported. */
    ghost var ends: nat

    constructor (rows: seq<Fetch>)
      ensures this.rows == rows && fetched == 0 && current == None && ends == 0
      ensures fresh(scratch)
    {
      this.rows := rows;
      scratch := new Buffer();
      fetched := 0;
      current := None;
      ends := 0;
    }

    /** fb_cursor_next: 1 for a row, 0 at the end of the data, -1 on an error. */
    method Next() returns (rc: int)
      modifies this
      ensures old(fetched) == |rows| ==> rc == 0 && fetched == |rows| && current == None && ends == old(ends) + 1
      ensures old(fetched) < |rows| ==>
                && fetched == old(fetched) + 1 && ends == old(ends)
                && match rows[old(fetched)]
                   case Row(cells) => rc == 1 && current == Some(cells)
                   case Failure => rc == -1 && current == None
      ensures old(fetched) > |rows| ==> rc == 0 && fetched == old(fetched) && ends == old(ends) + 1
    {
      if fetched >= |rows| {
        current := None;
        ends := ends + 1;
        return 0;
      }
      var item := rows[fetched];
      fetched := fetched + 1;
      match item {
        case Row(cells) =>
          current := Some(cells);
          return 1;
        case Failure =>
          current := None;
          return -1;
      }
    }

    /** The current row's cell; NULL when there is none. */
    function Cell(c: nat): SqlType
      reads this
    {
      if current.None? then Null else CellAt(current.value, c)
    }

    /** fb_cell_text: a pointer into the scratch buffer, or null. */
    method FbCellText(c: nat) returns (pointer: Buffer?, length: nat)
      modifies scratch
      ensures Cell(c) == Null ==> pointer == null && length == 0
      ensures Cell(c) != Null ==> pointer == scratch && length == |scratch.bytes| && scratch.bytes == CellText(Cell(c))
    {
      if current.None? || c >= |current.value| {
        return null, 0;
      }
      scratch.bytes := "";
      match current.value[c] {
        case Text(s) => scratch.bytes := scratch.bytes + s;
        case Binary(b) => scratch.bytes := scratch.bytes + b;
        case Integer(i) => scratch.bytes := scratch.bytes + IntegerText(i);
        case Floating(f) => scratch.bytes := scratch.bytes + f.text;
        case Boolean(b) => scratch.bytes := scratch.bytes + if b then "true" else "false";
        case Timestamp(t) => scratch.bytes := scratch.bytes + t.text;
        case Null => return null, 0;
      }
      return scratch, |scratch.bytes|;
    }

    /** fb_cell_blob: the same contract for binary columns. */
    method FbCellBlob(c: nat) returns (pointer: Buffer?, length: nat)
      modifies scratch
      ensures !Cell(c).Binary? && !Cell(c).Text? ==> pointer == null && length == 0
      ensures Cell(c).Binary? || Cell(c).Text? ==>
                pointer == scratch && length == |scratch.bytes| && scratch.bytes == CellBlob(Cell(c))
    {
      if current.None? || c >= |current.value| {
        return null, 0;
      }
      scratch.bytes := "";
      match current.value[c] {
        case Binary(b) => scratch.bytes := scratch.bytes + b;
        case Text(s) => scratch.bytes := scratch.bytes + s;
        case _ => return null, 0;
      }
      return scratch, |scratch.bytes|;
    }
  }

  // ---------------------------------------------------------------------------
  // The output chunk
  // ---------------------------------------------------------------------------

  /** Output vectors: a validity mask and data, one row of each array per column. */
  class DataChunk {
    const types: seq<ColumnType>
    const valid: array2<bool>
    const data: array2<OutCell>
    var size: nat

    /** A chunk as DuckDB hands it out: every cell marked valid. */
    constructor (types: seq<ColumnType>)
      ensures this.types == types && Shaped() && fresh(valid) && fresh(data)
      ensures forall c, i :: 0 <= c < |types| && 0 <= i < VECTOR_SIZE ==> valid[c, i]
    {
      this.types := types;
      valid := new bool[|types|, VECTOR_SIZE]((_, _) => true);
      data := new OutCell[|types|, VECTOR_SIZE]((_, _) => NullCell);
      size := 0;
    }

    predicate Shaped() {
      valid.Length0 == data.Length0 == |types| && valid.Length1 == data.Length1 == VECTOR_SIZE
    }

    /** What a reader sees in a cell. */
    function At(c: nat, i: nat): OutCell
      requires Shaped() && c < |types| && i < VECTOR_SIZE
      reads valid, data
    {
      if valid[c, i] then data[c, i] else NullCell
    }

    /** AddString: a copy of the bytes behind a pointer. */
    static function Copied(pointer: Buffer?, length: nat): Bytes
      requires pointer != null ==> length <= |pointer.bytes|
      reads pointer
    {
      if pointer == null then "" else pointer.bytes[..length]
    }
  }

  /** One cell of the row loop; false when the column's type is not supported. */
  method WriteCell(cursor: FbCursor, output: DataChunk, c: nat, i: nat) returns (ok: bool)
    requires output.Shaped() && c < |output.types| && i < VECTOR_SIZE && output.valid[c, i]
    modifies cursor.scratch, output.valid, output.data
    ensures var cell := Converted(output.types[c], cursor.Cell(c));
            ok == cell.Some? && (ok ==> output.At(c, i) == cell.value)
    ensures forall d, k :: 0 <= d < |output.types| && 0 <= k < VECTOR_SIZE && (d != c || k != i) ==>
              output.valid[d, k] == old(output.valid[d, k]) && output.data[d, k] == old(output.data[d, k])
  {
    var v := cursor.Cell(c);
    if v == Null {
      output.valid[c, i] := false;
      return true;
    }
    match output.types[c] {
      case SmallIntColumn => output.data[c, i] := IntegerCell(Wrap(CellI64(v), 0x1_0000));
      case IntegerColumn => output.data[c, i] := IntegerCell(Wrap(CellI64(v), 0x1_0000_0000));
      case BigIntColumn => output.data[c, i] := IntegerCell(CellI64(v));
      case FloatColumn => output.data[c, i] := NumberCell(CellF64(v));
      case DoubleColumn => output.data[c, i] := NumberCell(CellF64(v));
      case BooleanColumn => output.data[c, i] := BooleanCell(CellBool(v));
      case DateColumn => output.data[c, i] := IntegerCell(if v.Timestamp? then v.t.days else 0);
      case TimeColumn => output.data[c, i] := IntegerCell(if v.Timestamp? then v.t.timeMicros else 0);
      case TimestampColumn => output.data[c, i] := IntegerCell(if v.Timestamp? then v.t.stampMicros else 0);
      case VarcharColumn =>
        var pointer, length := cursor.FbCellText(c);
        output.data[c, i] := BytesCell(DataChunk.Copied(pointer, length));
      case BlobColumn =>
        var pointer, length := cursor.FbCellBlob(c);
        output.data[c, i] := BytesCell(DataChunk.Copied(pointer, length));
      case OtherColumn => return false;
    }
    return true;
  }

  /** All the cells of one row: each holds its own column's value, although the columns share one buffer. */
  method WriteRow(cursor: FbCursor, output: DataChunk, i: nat) returns (ok: bool)
    requires output.Shaped() && i < VECTOR_SIZE && cursor.current.Some?
    requires forall c :: 0 <= c < |output.types| ==> output.valid[c, i]
    modifies cursor.scratch, output.valid, output.data
    ensures ok == Convertible(output.types, Row(cursor.current.value))
    ensures ok ==> forall c :: 0 <= c < |output.types| ==>
              output.At(c, i) == OutRow(output.types, Row(cursor.current.value))[c]
    ensures forall d, k :: 0 <= d < |output.types| && 0 <= k < VECTOR_SIZE && k != i ==>
              output.valid[d, k] == old(output.valid[d, k]) && output.data[d, k] == old(output.data[d, k])
  {
    ghost var cells := cursor.current.value;
    for c := 0 to |output.types|
      invariant forall d :: 0 <= d < c ==>
                  Converted(output.types[d], CellAt(cells, d)) == Some(output.At(d, i))
      invariant forall d :: c <= d < |output.types| ==> output.valid[d, i]
      invariant forall d, k :: 0 <= d < |output.types| && 0 <= k < VECTOR_SIZE && k != i ==>
                  output.valid[d, k] == old(output.valid[d, k]) && output.data[d, k] == old(output.data[d, k])
    {
      ok := WriteCell(cursor, output, c, i);
      if !ok {
        return false;
      }
    }
    return true;
  }

  /** Why each cell must be copied at once: two texts taken before copying are both the second one. */
  method TwoTextsShareOneBuffer(cursor: FbCursor, c: nat, d: nat) returns (first: Buffer?, second: Buffer?)
    requires cursor.Cell(c) != Null && cursor.Cell(d) != Null
    modifies cursor.scratch
    ensures first == second == cursor.scratch && first.bytes == CellText(cursor.Cell(d))
  {
    var length;
    first, length := cursor.FbCellText(c);
    second, length := cursor.FbCellText(d);
  }
}
