/** Table filters, what they accept, and their translation into a WHERE fragment. */
module TableFilters {
  import opened SqlText
  import opened SqlValues
  import opened Wrappers

  datatype ExpressionType =
    | CompareEqual
    | CompareNotEqual
    | CompareLessThan
    | CompareGreaterThan
    | CompareLessThanOrEqual
    | CompareGreaterThanOrEqual
    | OtherExpression

  datatype Filter =
    | ConstantComparison(comparison: ExpressionType, constant: Value)
    | IsNull
    | IsNotNull
    | InFilter(values: seq<Value>)
    | ConjunctionAnd(children: seq<Filter>)
    | ConjunctionOr(children: seq<Filter>)
    | OptionalFilter(child: Filter)
    | DynamicFilter
    | BloomFilter
    | UnsupportedFilter

  /** The NotImplementedExceptions thrown while a scan's SQL is built. */
  datatype PushdownError =
    | UnsupportedComparison(col: string)
    | UnsupportedInValue(col: string)
    | IncompleteOr(col: string)
    | UnsupportedFilterType
    | UnknownColumn
    | VirtualColumn

  datatype Translation = Text(text: string) | Skipped | Throws(error: PushdownError)

  // ---------------------------------------------------------------------------
  // Direct meaning: the two-valued test a filter stands for
  // ---------------------------------------------------------------------------

  function OpOf(t: ExpressionType): Option<CompareOp> {
    match t
    case CompareEqual => Some(Eq)
    case CompareNotEqual => Some(Ne)
    case CompareLessThan => Some(Lt)
    case CompareGreaterThan => Some(Gt)
    case CompareLessThanOrEqual => Some(Le)
    case CompareGreaterThanOrEqual => Some(Ge)
    case OtherExpression => None
  }

  /** What a comparison asks of the order of the column and the constant. */
  predicate Compares(t: ExpressionType, o: Ordering) {
    match t
    case CompareEqual => o == Equal
    case CompareNotEqual => o == Less || o == Greater
    case CompareLessThan => o == Less
    case CompareGreaterThan => o == Greater
    case CompareLessThanOrEqual => o == Less || o == Equal
    case CompareGreaterThanOrEqual => o == Greater || o == Equal
    case OtherExpression => false
  }

  ghost predicate Accepts(f: Filter, v: Value, ord: Order) {
    match f
    case ConstantComparison(t, c) => v != Null && c != Null && Compares(t, ord(v, c))
    case IsNull => v == Null
    case IsNotNull => v != Null
    case InFilter(values) => v != Null && exists c :: c in values && c != Null && ord(v, c) == Equal
    case ConjunctionAnd(children) => forall child :: child in children ==> Accepts(child, v, ord)
    case ConjunctionOr(children) => exists child :: child in children && Accepts(child, v, ord)
    case OptionalFilter(_) => true
    case DynamicFilter => true
    case BloomFilter => true
    case UnsupportedFilter => false
  }

  // ---------------------------------------------------------------------------
  // Which filters can be represented, and which are optimization-only
  // ---------------------------------------------------------------------------

  predicate IsLiteral(v: Value) {
    !v.Null? && !v.Opaque?
  }

  /** Nothing of the filter reaches the SQL text. */
  predicate Erases(f: Filter) {
    match f
    case ConjunctionAnd(children) => forall child :: child in children ==> Erases(child)
    case ConjunctionOr(children) => children == []
    case OptionalFilter(_) => true
    case DynamicFilter => true
    case BloomFilter => true
    case _ => false
  }

  /** Every required node has an SQL form, and no branch of an OR erases. */
  predicate Representable(f: Filter) {
    match f
    case ConstantComparison(t, c) => t != OtherExpression && IsLiteral(c)
    case InFilter(values) => forall v :: v in values ==> IsLiteral(v)
    case ConjunctionAnd(children) => forall child :: child in children ==> Representable(child)
    case ConjunctionOr(children) => forall child :: child in children ==> Representable(child) && !Erases(child)
    case UnsupportedFilter => false
    case _ => true
  }

  /** No conjunction OR is empty. */
  predicate NonEmptyOrs(f: Filter) {
    match f
    case ConjunctionAnd(children) => forall child :: child in children ==> NonEmptyOrs(child)
    case ConjunctionOr(children) => children != [] && forall child :: child in children ==> NonEmptyOrs(child)
    case _ => true
  }

  // ---------------------------------------------------------------------------
  // The texts of literals and of leaf filters
  // ---------------------------------------------------------------------------

  function FirebirdCompareOp(t: ExpressionType): string {
    match t
    case CompareEqual => "="
    case CompareNotEqual => "<>"
    case CompareLessThan => "<"
    case CompareGreaterThan => ">"
    case CompareLessThanOrEqual => "<="
    case CompareGreaterThanOrEqual => ">="
    case OtherExpression => ""
  }

  function FormatLiteral(v: Value): (r: Option<string>)
    ensures r.Some? <==> IsLiteral(v)
  {
    match v
    case Null => None
    case Boolean(b) => Some(if b then "TRUE" else "FALSE")
    case Integer(n) => Some(if n < 0 then "-" + Digits(-n) else Digits(n))
    case Double(negative, magnitude) => Some((if negative then "-" else "") + magnitude)
    case Varchar(s) => Some(Quoted(s, '\''))
    case Date(text) => Some("DATE '" + text + "'")
    case Time(text) => Some("TIME '" + text + "'")
    case Timestamp(text) => Some("TIMESTAMP '" + text + "'")
    case Opaque(_) => None
  }

  function FormatLiterals(values: seq<Value>): (r: Option<seq<string>>)
    ensures r.Some? ==> |r.value| == |values|
  {
    if values == [] then Some([])
    else
      var first :- FormatLiteral(values[0]);
      var more :- FormatLiterals(values[1..]);
      Some([first] + more)
  }

  // ---------------------------------------------------------------------------
  // Translation
  // ---------------------------------------------------------------------------

  function Translate(f: Filter, col: string): Translation
    decreases f, 1
  {
    match f
    case ConstantComparison(t, c) =>
      if FirebirdCompareOp(t) == "" || FormatLiteral(c).None? then Throws(UnsupportedComparison(col))
      else Text(col + " " + FirebirdCompareOp(t) + " " + FormatLiteral(c).value)
    case IsNull => Text(col + " IS NULL")
    case IsNotNull => Text(col + " IS NOT NULL")
    case InFilter(values) =>
      if values == [] then Text("1 = 0")
      else if FormatLiterals(values).None? then Throws(UnsupportedInValue(col))
      else Text(col + " IN (" + Join(FormatLiterals(values).value, ", ") + ")")
    case ConjunctionAnd(children) => Joined(Parts(children, col, true), " AND ")
    case ConjunctionOr(children) => Joined(Parts(children, col, false), " OR ")
    case OptionalFilter(_) => Skipped
    case DynamicFilter => Skipped
    case BloomFilter => Skipped
    case UnsupportedFilter => Throws(UnsupportedFilterType)
  }

  function Joined(parts: Result<seq<string>, PushdownError>, separator: string): Translation {
    match parts
    case Err(e) => Throws(e)
    case Ok(texts) => if texts == [] then Skipped else Text(Join(texts, separator))
  }

  /** The parenthesised texts of a conjunction's children; a skipped child is dropped only when allowed. */
  function Parts(children: seq<Filter>, col: string, mayDrop: bool): Result<seq<string>, PushdownError>
    decreases children, 0
  {
    if children == [] then Ok([])
    else
      match Translate(children[0], col)
      case Throws(e) => Err(e)
      case Skipped => if mayDrop then Parts(children[1..], col, mayDrop) else Err(IncompleteOr(col))
      case Text(part) => Push("(" + part + ")", Parts(children[1..], col, mayDrop))
  }

  function Push(part: string, more: Result<seq<string>, PushdownError>): Result<seq<string>, PushdownError> {
    match more
    case Err(e) => Err(e)
    case Ok(parts) => Ok([part] + parts)
  }

  function PushAll(parts: seq<string>, more: Result<seq<string>, PushdownError>): Result<seq<string>, PushdownError> {
    match more
    case Err(e) => Err(e)
    case Ok(rest) => Ok(parts + rest)
  }

  method FormatInList(values: seq<Value>) returns (r: Option<seq<string>>)
    ensures r == FormatLiterals(values)
  {
    var literals := [];
    ghost var all := FormatLiterals(values);
    assert values[0..] == values && (all.Some? ==> literals + all.value == all.value);
    for i := 0 to |values|
      invariant FormatLiterals(values)
             == if FormatLiterals(values[i..]).None? then None else Some(literals + FormatLiterals(values[i..]).value)
    {
      assert values[i..][0] == values[i] && values[i..][1..] == values[i + 1..];
      var literal := FormatLiteral(values[i]);
      if literal.None? {
        return None;
      }
      ghost var rest := FormatLiterals(values[i + 1..]);
      assert rest.Some? ==> literals + ([literal.value] + rest.value) == literals + [literal.value] + rest.value;
      literals := literals + [literal.value];
    }
    assert literals + [] == literals;
    return Some(literals);
  }

  /** The recursive walk that pushes each child's text and joins what it collected. */
  method TranslateFilter(f: Filter, col: string) returns (r: Translation)
    ensures r == Translate(f, col)
    decreases f
  {
    match f {
      case ConstantComparison(t, c) =>
        var op := FirebirdCompareOp(t);
        var literal := FormatLiteral(c);
        if op == "" || literal.None? {
          return Throws(UnsupportedComparison(col));
        }
        return Text(col + " " + op + " " + literal.value);
      case IsNull => return Text(col + " IS NULL");
      case IsNotNull => return Text(col + " IS NOT NULL");
      case InFilter(values) =>
        if values == [] {
          return Text("1 = 0");
        }
        var literals := FormatInList(values);
        if literals.None? {
          return Throws(UnsupportedInValue(col));
        }
        return Text(col + " IN (" + Join(literals.value, ", ") + ")");
      case ConjunctionAnd(children) =>
        var parts := [];
        ghost var all := Parts(children, col, true);
        assert children[0..] == children && (all.Ok? ==> parts + all.value == all.value);
        for i := 0 to |children|
          invariant Parts(children, col, true) == PushAll(parts, Parts(children[i..], col, true))
        {
          assert children[i..][0] == children[i] && children[i..][1..] == children[i + 1..];
          var part := TranslateFilter(children[i], col);
          if part.Throws? {
            return part;
          }
          if part.Text? {
            ghost var rest := Parts(children[i + 1..], col, true);
            assert rest.Ok? ==> parts + (["(" + part.text + ")"] + rest.value) == parts + ["(" + part.text + ")"] + rest.value;
            parts := parts + ["(" + part.text + ")"];
          }
        }
        assert parts + [] == parts;
        if parts == [] {
          return Skipped;
        }
        return Text(Join(parts, " AND "));
      case ConjunctionOr(children) =>
        var parts := [];
        ghost var all := Parts(children, col, false);
        assert children[0..] == children && (all.Ok? ==> parts + all.value == all.value);
        for i := 0 to |children|
          invariant Parts(children, col, false) == PushAll(parts, Parts(children[i..], col, false))
        {
          assert children[i..][0] == children[i] && children[i..][1..] == children[i + 1..];
          var part := TranslateFilter(children[i], col);
          if part.Throws? {
            return part;
          }
          if part.Skipped? {
            return Throws(IncompleteOr(col));
          }
          ghost var rest := Parts(children[i + 1..], col, false);
          assert rest.Ok? ==> parts + (["(" + part.text + ")"] + rest.value) == parts + ["(" + part.text + ")"] + rest.value;
          parts := parts + ["(" + part.text + ")"];
        }
        assert parts + [] == parts;
        if parts == [] {
          return Skipped;
        }
        return Text(Join(parts, " OR "));
      case OptionalFilter(_) => return Skipped;
      case DynamicFilter => return Skipped;
      case BloomFilter => return Skipped;
      case UnsupportedFilter => return Throws(UnsupportedFilterType);
    }
  }

  // ---------------------------------------------------------------------------
  // Outcomes
  // ---------------------------------------------------------------------------

  lemma {:induction false} LiteralsFormat(values: seq<Value>)
    ensures FormatLiterals(values).Some? <==> forall v :: v in values ==> IsLiteral(v)
  {
    if values != [] {
      LiteralsFormat(values[1..]);
      assert values == [values[0]] + values[1..];
    }
  }

  /** What becomes of each kind of leaf, and with which exception. */
  lemma {:induction false} LeafOutcomes(f: Filter, col: string)
    ensures f.ConstantComparison? ==>
              if f.comparison != OtherExpression && !f.constant.Null? && !f.constant.Opaque? then Translate(f, col).Text?
              else Translate(f, col) == Throws(UnsupportedComparison(col))
    ensures f.InFilter? ==>
              if forall v :: v in f.values ==> !v.Null? && !v.Opaque? then Translate(f, col).Text?
              else Translate(f, col) == Throws(UnsupportedInValue(col))
    ensures f.IsNull? || f.IsNotNull? ==> Translate(f, col).Text?
    ensures f.OptionalFilter? || f.DynamicFilter? || f.BloomFilter? ==> Translate(f, col) == Skipped
    ensures f.UnsupportedFilter? ==> Translate(f, col) == Throws(UnsupportedFilterType)
  {
    if f.InFilter? {
      LiteralsFormat(f.values);
    }
  }

  /** A child at which a conjunction gives up, and the exception: its own, or that of an OR branch that is skipped. */
  predicate Stops(child: Filter, col: string, mayDrop: bool, e: PushdownError) {
    Translate(child, col) == Throws(e) || (!mayDrop && Translate(child, col) == Skipped && e == IncompleteOr(col))
  }

  predicate GoesOn(child: Filter, col: string, mayDrop: bool) {
    Translate(child, col).Text? || (mayDrop && Translate(child, col) == Skipped)
  }

  ghost predicate FirstStop(children: seq<Filter>, col: string, mayDrop: bool, e: PushdownError, i: nat) {
    i < |children| && Stops(children[i], col, mayDrop, e) && forall j :: 0 <= j < i ==> GoesOn(children[j], col, mayDrop)
  }

  lemma {:induction false} PartsStop(children: seq<Filter>, col: string, mayDrop: bool) returns (i: nat)
    ensures i <= |children| && forall j :: 0 <= j < i ==> GoesOn(children[j], col, mayDrop)
    ensures var parts := Parts(children, col, mayDrop);
            && (parts.Err? <==> i < |children|) && (parts.Err? ==> FirstStop(children, col, mayDrop, parts.error, i))
            && (parts.Ok? ==> (parts.value == [] <==> forall child :: child in children ==> Translate(child, col) == Skipped))
    decreases |children|
  {
    if children == [] {
      i := 0;
      assert Parts(children, col, mayDrop) == Ok([]);
    } else if !GoesOn(children[0], col, mayDrop) {
      i := 0;
    } else {
      i := PartsStop(children[1..], col, mayDrop);
      assert children == [children[0]] + children[1..] && children[0] in children;
      i := i + 1;
    }
  }

  /**
   * What becomes of an AND: the exception of its first child that throws, skipped when all children are, text otherwise.
   * And of an OR: the exception of its first child without text, skipped when there is none, text otherwise.
   */
  lemma {:induction false} ConjunctionOutcomes(children: seq<Filter>, col: string)
    ensures var t := Translate(ConjunctionAnd(children), col);
            && (t.Throws? ==> exists i: nat :: FirstStop(children, col, true, t.error, i))
            && (t.Throws? <==> exists child :: child in children && Translate(child, col).Throws?)
            && (t.Skipped? <==> forall child :: child in children ==> Translate(child, col).Skipped?)
    ensures var t := Translate(ConjunctionOr(children), col);
            && (t.Throws? ==> exists i: nat :: FirstStop(children, col, false, t.error, i))
            && (t.Throws? <==> exists child :: child in children && !Translate(child, col).Text?)
            && (t.Skipped? <==> children == [])
  {
    var i := PartsStop(children, col, true);
    var j := PartsStop(children, col, false);
    assert i < |children| ==> children[i] in children;
    assert j < |children| ==> children[j] in children;
  }

  /**
   * The three outcomes: a filter throws exactly when it is not representable, is skipped exactly when it
   * is representable and erases, and gives text otherwise.
   */
  lemma {:induction false} TranslationOutcomes(f: Filter, col: string)
    ensures Translate(f, col).Throws? <==> !Representable(f)
    ensures Translate(f, col).Skipped? <==> Representable(f) && Erases(f)
    decreases f, 1
  {
    match f {
      case InFilter(values) => LiteralsFormat(values);
      case ConjunctionAnd(children) => PartsOutcomes(children, col, true);
      case ConjunctionOr(children) =>
        PartsOutcomes(children, col, false);
        if children == [] {
          assert Parts(children, col, false) == Ok([]);
        }
      case _ =>
    }
  }

  lemma {:induction false} PartsOutcomes(children: seq<Filter>, col: string, mayDrop: bool)
    ensures var parts := Parts(children, col, mayDrop);
            && (parts.Ok? <==> forall child :: child in children ==> Representable(child) && (mayDrop || !Erases(child)))
            && (parts.Ok? ==> (parts.value == [] <==> forall child :: child in children ==> Erases(child)))
            && (parts.Ok? && !mayDrop ==> |parts.value| == |children|)
    decreases children, 0
  {
    if children != [] {
      TranslationOutcomes(children[0], col);
      PartsOutcomes(children[1..], col, mayDrop);
      assert children == [children[0]] + children[1..];
    }
  }

  /**
   * A skipped filter was safe to skip, that is TRUE of every value, exactly when it holds no empty OR;
   * otherwise it is FALSE of every value and skipping it loses the whole restriction.
   */
  lemma {:induction false} SkippedMeansTrue(f: Filter, v: Value, ord: Order)
    requires Erases(f)
    ensures Accepts(f, v, ord) <==> NonEmptyOrs(f)
  {
    if f.ConjunctionAnd? {
      forall child | child in f.children
        ensures Accepts(child, v, ord) <==> NonEmptyOrs(child)
      {
        SkippedMeansTrue(child, v, ord);
      }
    }
  }
}
