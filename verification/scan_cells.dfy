/** What arrives in an output cell, stated by the column's type and the server's value alone. */
module ScanCells {
  import opened ScanCursor
  import opened SqlText
  import opened Wrappers

  /** The whole number an integer column takes from a value: 0 from texts, bytes and timestamps. */
  predicate IsWhole(v: SqlType, n: int) {
    match v
    case Integer(i) => n == i
    case Floating(f) => n == f.truncated
    case Boolean(b) => (b && n == 1) || (!b && n == 0)
    case _ => n == 0
  }

  /** The number in the range -half .. half - 1 that agrees with n up to a multiple of 2 * half. */
  predicate FitsAs(n: int, half: int, i: int)
    requires half > 0
  {
    -half <= i < half && (n - i) % (2 * half) == 0
  }

  /** A decimal number: a minus sign when negative, then digits without leading zeros. */
  predicate IsDecimal(n: int, text: Bytes) {
    var digits := if n < 0 && text != "" && text[0] == '-' then text[1..] else text;
    && (n < 0 ==> text != "" && text[0] == '-')
    && digits != "" && AllDigits(digits) && (|digits| > 1 ==> digits[0] != '0')
    && NatOf(digits) == if n < 0 then -n else n
  }

  predicate IsText(v: SqlType, text: Bytes) {
    match v
    case Null => false
    case Text(s) => text == s
    case Binary(b) => text == b
    case Integer(i) => IsDecimal(i, text)
    case Floating(f) => text == f.text
    case Boolean(b) => (b && text == "true") || (!b && text == "false")
    case Timestamp(t) => text == t.text
  }

  /** The output cell that a value of the server must give in a column of a type. */
  ghost predicate Arrives(t: ColumnType, v: SqlType, cell: OutCell) {
    if v.Null? then cell == NullCell
    else
      match t
      case SmallIntColumn => cell.IntegerCell? && exists n :: IsWhole(v, n) && FitsAs(n, 0x8000, cell.i)
      case IntegerColumn => cell.IntegerCell? && exists n :: IsWhole(v, n) && FitsAs(n, 0x8000_0000, cell.i)
      case BigIntColumn => cell.IntegerCell? && IsWhole(v, cell.i)
      case FloatColumn => IsNumber(v, cell)
      case DoubleColumn => IsNumber(v, cell)
      case BooleanColumn =>
        if v.Boolean? then cell == BooleanCell(v.b) else cell == BooleanCell(v.Integer? && v.i != 0)
      case DateColumn => cell == IntegerCell(if v.Timestamp? then v.t.days else 0)
      case TimeColumn => cell == IntegerCell(if v.Timestamp? then v.t.timeMicros else 0)
      case TimestampColumn => cell == IntegerCell(if v.Timestamp? then v.t.stampMicros else 0)
      case VarcharColumn => cell.BytesCell? && IsText(v, cell.bytes)
      case BlobColumn => cell.BytesCell? && if v.Text? || v.Binary? then IsText(v, cell.bytes) else cell.bytes == ""
      case OtherColumn => false
  }

  predicate IsNumber(v: SqlType, cell: OutCell) {
    cell == NumberCell(if v.Floating? then OfFloat(v.f) else if v.Integer? then OfInteger(v.i) else Zero)
  }

  lemma {:induction false} WrapFits(n: int, half: int, i: int)
    requires half > 0
    ensures FitsAs(n, half, i) <==> i == Wrap(n, 2 * half)
  {
    var m := 2 * half;
    assert m / 2 == half;
    var q := (n + half) / m;
    assert n + half == q * m + (n + half) % m;
    assert n - Wrap(n, m) == q * m;
    MultipleHasNoRest(q, m);
    if FitsAs(n, half, i) {
      var p := (n - i) / m;
      assert n - i == p * m;
      assert i - Wrap(n, m) == q * m - p * m == (q - p) * m;
      NoMultipleBetween(q - p, m);
    }
  }

  lemma {:induction false} MultipleHasNoRest(q: int, m: int)
    requires m > 0
    ensures (q * m) % m == 0
  {
    var r := (q * m) % m;
    assert q * m == ((q * m) / m) * m + r;
    assert r == (q - (q * m) / m) * m;
    NoMultipleBetween(q - (q * m) / m, m);
  }

  lemma {:induction false} NoMultipleBetween(q: int, m: int)
    requires m > 0 && -m < q * m < m
    ensures q == 0
  {
    assert q >= 1 ==> q * m >= m;
    assert q <= -1 ==> q * m <= -m;
  }

  /** Digits without leading zeros are the printed form of the number they denote. */
  lemma {:induction false} DigitsAreCanonical(s: string)
    requires s != "" && AllDigits(s) && (|s| > 1 ==> s[0] != '0')
    ensures Digits(NatOf(s)) == s
  {
    var front, last := s[..|s| - 1], s[|s| - 1];
    if front == "" {
      assert NatOf(s) == last as int - '0' as int;
      assert s == [last];
    } else {
      DigitsAreCanonical(front);
      PositiveFront(front);
      assert NatOf(s) / 10 == NatOf(front) && NatOf(s) % 10 == last as int - '0' as int;
      assert s == front + [last];
    }
  }

  lemma {:induction false} PositiveFront(s: string)
    requires s != "" && AllDigits(s) && s[0] != '0'
    ensures NatOf(s) > 0
  {
    if |s| > 1 {
      PositiveFront(s[..|s| - 1]);
    } else {
      assert s[..0] == "";
    }
  }

  lemma {:induction false} DecimalIsPrinted(n: int, text: Bytes)
    ensures IsDecimal(n, text) <==> text == IntegerText(n)
  {
    var size: nat := if n < 0 then -n else n;
    DigitsRoundTrip(size);
    NoLeadingZero(size);
    assert IntegerText(n) == (if n < 0 then "-" else "") + Digits(size);
    if n < 0 {
      assert ("-" + Digits(size))[1..] == Digits(size);
      if IsDecimal(n, text) {
        DigitsAreCanonical(text[1..]);
        assert text == "-" + text[1..];
      }
    } else if IsDecimal(n, text) {
      DigitsAreCanonical(text);
    }
  }

  lemma {:induction false} TextIsPrinted(v: SqlType, text: Bytes)
    requires !v.Null?
    ensures IsText(v, text) <==> text == CellText(v)
  {
    if v.Integer? {
      DecimalIsPrinted(v.i, text);
    }
  }

  /** The scan's conversion gives exactly the cell that must arrive, and none exactly for a value in an unsupported column. */
  lemma {:induction false} ConversionIsExact(t: ColumnType, v: SqlType, cell: OutCell)
    ensures Converted(t, v) == Some(cell) <==> Arrives(t, v, cell)
    ensures Converted(t, v) == None <==> t == OtherColumn && !v.Null?
  {
    if !v.Null? {
      match t {
        case SmallIntColumn =>
          assert IsWhole(v, CellI64(v));
          if cell.IntegerCell? { WrapFits(CellI64(v), 0x8000, cell.i); }
        case IntegerColumn =>
          assert IsWhole(v, CellI64(v));
          if cell.IntegerCell? { WrapFits(CellI64(v), 0x8000_0000, cell.i); }
        case VarcharColumn =>
          if cell.BytesCell? { TextIsPrinted(v, cell.bytes); }
        case _ =>
      }
    }
  }

  /** Every cell of an output row is the one that must arrive; a column past the end of the row arrives as NULL. */
  lemma {:induction false} RowArrives(types: seq<ColumnType>, cells: Cells)
    ensures Convertible(types, Row(cells))
            <==> forall c :: 0 <= c < |types| && types[c] == OtherColumn ==> c >= |cells| || cells[c].Null?
    ensures Convertible(types, Row(cells)) ==>
              var out := OutRow(types, Row(cells));
              |out| == |types|
              && forall c :: 0 <= c < |types| ==> Arrives(types[c], if c < |cells| then cells[c] else SqlType.Null, out[c])
  {
    forall c | 0 <= c < |types|
      ensures Converted(types[c], CellAt(cells, c)) == None
              <==> types[c] == OtherColumn && !(if c < |cells| then cells[c] else SqlType.Null).Null?
      ensures Converted(types[c], CellAt(cells, c)).Some? ==>
                Arrives(types[c], if c < |cells| then cells[c] else SqlType.Null, Converted(types[c], CellAt(cells, c)).value)
    {
      var made := Converted(types[c], CellAt(cells, c));
      ConversionIsExact(types[c], CellAt(cells, c), if made.Some? then made.value else NullCell);
    }
  }
}
