/**
 * Search conditions: their trees, a reference parser in which AND binds tighter than OR, and a
 * three-valued evaluator (section 8.12 of ISO/IEC 9075:1992).
 */
module SqlConditions {
  import opened SqlLexer
  import opened SqlText
  import opened SqlValues
  import opened Wrappers

  datatype Operand = Column(name: string) | Constant(value: Value)

  datatype Condition =
    | Compare(op: CompareOp, left: Operand, right: Operand)
    | NullTest(operand: Operand, isNull: bool)
    | In(operand: Operand, items: seq<Operand>)
    | And(terms: seq<Condition>)
    | Or(terms: seq<Condition>)

  function MkAnd(terms: seq<Condition>): Condition {
    if |terms| == 1 then terms[0] else And(terms)
  }

  function MkOr(terms: seq<Condition>): Condition {
    if |terms| == 1 then terms[0] else Or(terms)
  }

  // ---------------------------------------------------------------------------
  // Three-valued evaluation
  // ---------------------------------------------------------------------------

  datatype Truth = True | False | Unknown

  type Row = map<string, Value>

  function OperandValue(x: Operand, row: Row): Value {
    match x
    case Column(name) => if name in row then row[name] else Null
    case Constant(v) => v
  }

  function Compared(op: CompareOp, a: Value, b: Value, ord: Order): Truth {
    if a == Null || b == Null then Unknown
    else if Holds(op, ord(a, b)) then True else False
  }

  function Both(a: Truth, b: Truth): Truth {
    if a == False || b == False then False
    else if a == Unknown || b == Unknown then Unknown
    else True
  }

  function Either(a: Truth, b: Truth): Truth {
    if a == True || b == True then True
    else if a == Unknown || b == Unknown then Unknown
    else False
  }

  function Eval(c: Condition, row: Row, ord: Order): Truth
    decreases c, 0
  {
    match c
    case Compare(op, x, y) => Compared(op, OperandValue(x, row), OperandValue(y, row), ord)
    case NullTest(x, isNull) => if (OperandValue(x, row) == Null) == isNull then True else False
    case In(x, items) => EvalIn(OperandValue(x, row), items, row, ord)
    case And(terms) => EvalAll(terms, row, ord)
    case Or(terms) => EvalAny(terms, row, ord)
  }

  /** x IN (a, b, ...) is x = a OR x = b OR ... */
  function EvalIn(v: Value, items: seq<Operand>, row: Row, ord: Order): Truth {
    if items == [] then False
    else Either(Compared(Eq, v, OperandValue(items[0], row), ord), EvalIn(v, items[1..], row, ord))
  }

  function EvalAll(terms: seq<Condition>, row: Row, ord: Order): (r: Truth)
    ensures r == True <==> forall i :: 0 <= i < |terms| ==> Eval(terms[i], row, ord) == True
    decreases terms, 1
  {
    if terms == [] then True
    else
      var r := Both(Eval(terms[0], row, ord), EvalAll(terms[1..], row, ord));
      assert forall i :: 1 <= i < |terms| ==> terms[i] == terms[1..][i - 1];
      r
  }

  function EvalAny(terms: seq<Condition>, row: Row, ord: Order): (r: Truth)
    ensures r == True <==> exists i :: 0 <= i < |terms| && Eval(terms[i], row, ord) == True
    decreases terms, 1
  {
    if terms == [] then False
    else
      var r := Either(Eval(terms[0], row, ord), EvalAny(terms[1..], row, ord));
      assert forall i :: 1 <= i < |terms| ==> terms[i] == terms[1..][i - 1];
      r
  }

  // ---------------------------------------------------------------------------
  // Parser
  // ---------------------------------------------------------------------------

  datatype Parsed<+T> = Parsed(value: T, rest: seq<Token>)

  predicate StartsWith(tokens: seq<Token>, token: Token) {
    tokens != [] && tokens[0] == token
  }

  function ParseNumber(digits: string, negative: bool): Option<Value> {
    if AllDigits(digits) then
      var n: int := NatOf(digits);
      Some(Integer(if negative then -n else n))
    else if IsMagnitude(digits) then Some(Double(negative, digits))
    else None
  }

  function DateTime(keyword: string, text: string): Option<Value> {
    if '\'' in text then None
    else if keyword == "DATE" then Some(Date(text))
    else if keyword == "TIME" then Some(Time(text))
    else if keyword == "TIMESTAMP" then Some(Timestamp(text))
    else None
  }

  function ParseOperand(tokens: seq<Token>): (r: Option<Parsed<Operand>>)
    ensures r.Some? ==> |r.value.rest| < |tokens|
  {
    if tokens == [] then None
    else
      match tokens[0]
      case Ident(name) => Some(Parsed(Column(name), tokens[1..]))
      case Quote(text) => Some(Parsed(Constant(Varchar(text)), tokens[1..]))
      case Number(digits) =>
        var v :- ParseNumber(digits, false);
        Some(Parsed(Constant(v), tokens[1..]))
      case Symbol(s) =>
        if s == "-" && |tokens| > 1 && tokens[1].Number? then
          var v :- ParseNumber(tokens[1].digits, true);
          Some(Parsed(Constant(v), tokens[2..]))
        else None
      case Word(w) =>
        if w == "TRUE" || w == "FALSE" then Some(Parsed(Constant(Boolean(w == "TRUE")), tokens[1..]))
        else if |tokens| > 1 && tokens[1].Quote? then
          var v :- DateTime(w, tokens[1].text);
          Some(Parsed(Constant(v), tokens[2..]))
        else None
  }

  function ParseOperands(tokens: seq<Token>): (r: Option<Parsed<seq<Operand>>>)
    ensures r.Some? ==> |r.value.rest| < |tokens|
    decreases |tokens|
  {
    var first :- ParseOperand(tokens);
    if StartsWith(first.rest, Symbol(",")) then
      var more :- ParseOperands(first.rest[1..]);
      Some(Parsed([first.value] + more.value, more.rest))
    else Some(Parsed([first.value], first.rest))
  }

  function ComparisonOf(symbol: string): Option<CompareOp> {
    if symbol == "=" then Some(Eq)
    else if symbol == "<>" then Some(Ne)
    else if symbol == "<" then Some(Lt)
    else if symbol == ">" then Some(Gt)
    else if symbol == "<=" then Some(Le)
    else if symbol == ">=" then Some(Ge)
    else None
  }

  /** op value */
  function ParseComparison(left: Operand, symbol: string, tokens: seq<Token>): (r: Option<Parsed<Condition>>)
    ensures r.Some? ==> |r.value.rest| < |tokens|
  {
    var op :- ComparisonOf(symbol);
    var right :- ParseOperand(tokens);
    Some(Parsed(Compare(op, left, right.value), right.rest))
  }

  /** IS [NOT] NULL, after IS */
  function ParseNullTest(left: Operand, tokens: seq<Token>): (r: Option<Parsed<Condition>>)
    ensures r.Some? ==> |r.value.rest| < |tokens|
  {
    if StartsWith(tokens, Word("NULL")) then Some(Parsed(NullTest(left, true), tokens[1..]))
    else if StartsWith(tokens, Word("NOT")) && StartsWith(tokens[1..], Word("NULL")) then
      Some(Parsed(NullTest(left, false), tokens[2..]))
    else None
  }

  /** IN ( value {, value} ), after IN */
  function ParseInPredicate(left: Operand, tokens: seq<Token>): (r: Option<Parsed<Condition>>)
    ensures r.Some? ==> |r.value.rest| < |tokens|
  {
    if !StartsWith(tokens, Symbol("(")) then None
    else
      var items :- ParseOperands(tokens[1..]);
      if StartsWith(items.rest, Symbol(")")) then Some(Parsed(In(left, items.value), items.rest[1..])) else None
  }

  function ParsePredicate(tokens: seq<Token>): (r: Option<Parsed<Condition>>)
    ensures r.Some? ==> |r.value.rest| < |tokens|
  {
    var left :- ParseOperand(tokens);
    if left.rest == [] then None
    else
      match left.rest[0]
      case Symbol(symbol) => ParseComparison(left.value, symbol, left.rest[1..])
      case Word(w) =>
        if w == "IS" then ParseNullTest(left.value, left.rest[1..])
        else if w == "IN" then ParseInPredicate(left.value, left.rest[1..])
        else None
      case _ => None
  }

  function ParsePrimary(tokens: seq<Token>): (r: Option<Parsed<Condition>>)
    ensures r.Some? ==> |r.value.rest| < |tokens|
    decreases |tokens|, 0
  {
    if StartsWith(tokens, Symbol("(")) then
      var inner :- ParseOr(tokens[1..]);
      if StartsWith(inner.rest, Symbol(")")) then Some(Parsed(inner.value, inner.rest[1..])) else None
    else ParsePredicate(tokens)
  }

  /** primary { AND primary } */
  function ParseTerms(tokens: seq<Token>): (r: Option<Parsed<seq<Condition>>>)
    ensures r.Some? ==> |r.value.rest| < |tokens|
    decreases |tokens|, 1
  {
    var first :- ParsePrimary(tokens);
    if StartsWith(first.rest, Word("AND")) then
      var more :- ParseTerms(first.rest[1..]);
      Some(Parsed([first.value] + more.value, more.rest))
    else Some(Parsed([first.value], first.rest))
  }

  /** term { OR term } */
  function ParseDisjuncts(tokens: seq<Token>): (r: Option<Parsed<seq<Condition>>>)
    ensures r.Some? ==> |r.value.rest| < |tokens|
    decreases |tokens|, 2
  {
    var first :- ParseTerms(tokens);
    if StartsWith(first.rest, Word("OR")) then
      var more :- ParseDisjuncts(first.rest[1..]);
      Some(Parsed([MkAnd(first.value)] + more.value, more.rest))
    else Some(Parsed([MkAnd(first.value)], first.rest))
  }

  function ParseOr(tokens: seq<Token>): (r: Option<Parsed<Condition>>)
    ensures r.Some? ==> |r.value.rest| < |tokens|
    decreases |tokens|, 3
  {
    var disjuncts :- ParseDisjuncts(tokens);
    Some(Parsed(MkOr(disjuncts.value), disjuncts.rest))
  }

  /** A whole text read as one search condition. */
  function ReadCondition(text: string): Option<Condition> {
    var tokens :- Lex(text);
    var all :- ParseOr(tokens);
    if all.rest == [] then Some(all.value) else None
  }
}
