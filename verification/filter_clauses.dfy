/** A translated filter's text reads back as the filter's own condition, and means what the filter means. */
module FilterClauses {
  import opened ClauseGroups
  import opened EmptyOrs
  import opened SqlConditions
  import opened SqlLexer
  import opened SqlText
  import opened SqlValues
  import opened TableFilters
  import opened Wrappers

  // ---------------------------------------------------------------------------
  // The condition a filter stands for
  // ---------------------------------------------------------------------------

  function Constants(values: seq<Value>): seq<Operand> {
    seq(|values|, i requires 0 <= i < |values| => Constant(values[i]))
  }

  function LeafCondition(f: Filter, name: string): Condition {
    match f
    case ConstantComparison(t, c) =>
      Compare(if OpOf(t).Some? then OpOf(t).value else Eq, Column(name), Constant(c))
    case IsNull => NullTest(Column(name), true)
    case IsNotNull => NullTest(Column(name), false)
    case InFilter(values) =>
      if values == [] then Compare(Eq, Constant(Integer(1)), Constant(Integer(0)))
      else SqlConditions.In(Column(name), Constants(values))
    case _ => And([])
  }

  /** The filter's tree with the optimization-only children of its ANDs erased. */
  function ConditionFor(f: Filter, name: string): Condition
    decreases f, 1
  {
    match f
    case ConjunctionAnd(children) => MkAnd(KeptConditions(children, name))
    case ConjunctionOr(children) => MkOr(KeptConditions(children, name))
    case _ => LeafCondition(f, name)
  }

  function KeptConditions(children: seq<Filter>, name: string): seq<Condition>
    decreases children, 0
  {
    if children == [] then []
    else (if Erases(children[0]) then [] else [ConditionFor(children[0], name)]) + KeptConditions(children[1..], name)
  }

  // ---------------------------------------------------------------------------
  // Literals
  // ---------------------------------------------------------------------------

  function LiteralTokens(v: Value): seq<Token> {
    match v
    case Boolean(b) => [Word(if b then "TRUE" else "FALSE")]
    case Integer(n) => if n < 0 then [Symbol("-"), Number(Digits(-n))] else [Number(Digits(n))]
    case Double(negative, magnitude) => (if negative then [Symbol("-")] else []) + [Number(magnitude)]
    case Varchar(s) => [Quote(s)]
    case Date(text) => [Word("DATE"), Quote(text)]
    case Time(text) => [Word("TIME"), Quote(text)]
    case Timestamp(text) => [Word("TIMESTAMP"), Quote(text)]
    case Null => []
    case Opaque(_) => []
  }

  lemma {:induction false} NothingDoubled(s: string, quote: char)
    requires quote !in s
    ensures Doubled(s, quote) == s
  {
    if s != "" {
      assert s == [s[0]] + s[1..];
      NothingDoubled(s[1..], quote);
    }
  }

  lemma {:induction false} LexDateTime(keyword: string, text: PlainText)
    requires keyword != "" && forall i :: 0 <= i < |keyword| ==> IsLetter(keyword[i])
    ensures LexesTo(keyword + " '" + text + "'", [Word(keyword), Quote(text)])
  {
    NothingDoubled(text, '\'');
    LexWord(keyword);
    LexString(text);
    LexTwo(keyword, [Word(keyword)], Quoted(text, '\''), [Quote(text)]);
    assert keyword + " '" + text + "'" == keyword + " " + Quoted(text, '\'');
    assert [Word(keyword)] + [Quote(text)] == [Word(keyword), Quote(text)];
  }

  lemma {:induction false} LexInteger(n: int)
    ensures LexesTo(FormatLiteral(Integer(n)).value, LiteralTokens(Integer(n)))
  {
    var text := Digits(if n < 0 then -n else n);
    DigitsAreANumber(text);
    assert FormatLiteral(Integer(n)).value == if n < 0 then "-" + text else text;
    if n < 0 { LexNegative(text); } else { LexNumber(text); }
  }

  lemma {:induction false} LexSigned(negative: bool, text: string)
    requires text != "" && IsDigit(text[0]) && NumberLength(text) == |text|
    ensures LexesTo((if negative then "-" else "") + text, (if negative then [Symbol("-")] else []) + [Number(text)])
  {
    if negative {
      assert [Symbol("-")] + [Number(text)] == [Symbol("-"), Number(text)];
      LexNegative(text);
    } else {
      assert "" + text == text && [] + [Number(text)] == [Number(text)];
      LexNumber(text);
    }
  }

  lemma {:induction false} LexDouble(negative: bool, magnitude: Magnitude)
    ensures var v := Double(negative, magnitude); LexesTo(FormatLiteral(v).value, LiteralTokens(v))
  {
    LexSigned(negative, magnitude);
  }

  lemma {:induction false} LexLiteral(v: Value)
    requires IsLiteral(v)
    ensures LexesTo(FormatLiteral(v).value, LiteralTokens(v))
  {
    match v {
      case Boolean(b) => LexWord(if b then "TRUE" else "FALSE");
      case Integer(n) => LexInteger(n);
      case Double(negative, magnitude) => LexDouble(negative, magnitude);
      case Varchar(s) => LexString(s);
      case Date(text) =>
        LexDateTime("DATE", text);
        assert "DATE '" == "DATE" + " '";
      case Time(text) =>
        LexDateTime("TIME", text);
        assert "TIME '" == "TIME" + " '";
      case Timestamp(text) =>
        LexDateTime("TIMESTAMP", text);
        assert "TIMESTAMP '" == "TIMESTAMP" + " '";
    }
  }

  lemma {:induction false} ParseInteger(n: int, rest: seq<Token>)
    ensures ParseOperand(LiteralTokens(Integer(n)) + rest) == Some(Parsed(Constant(Integer(n)), rest))
  {
    var tokens := LiteralTokens(Integer(n)) + rest;
    DigitsRoundTrip(if n < 0 then -n else n);
    if n < 0 { assert tokens[2..] == rest; } else { assert tokens[1..] == rest; }
  }

  lemma {:induction false} ParseDouble(negative: bool, magnitude: Magnitude, rest: seq<Token>)
    ensures var v := Double(negative, magnitude);
            ParseOperand(LiteralTokens(v) + rest) == Some(Parsed(Constant(v), rest))
  {
    var tokens := LiteralTokens(Double(negative, magnitude)) + rest;
    if negative { assert tokens[2..] == rest; } else { assert tokens[1..] == rest; }
  }

  /** A printed constant reads back as itself, whatever follows. */
  lemma {:induction false} ParseLiteral(v: Value, rest: seq<Token>)
    requires IsLiteral(v)
    ensures ParseOperand(LiteralTokens(v) + rest) == Some(Parsed(Constant(v), rest))
  {
    var tokens := LiteralTokens(v) + rest;
    match v {
      case Boolean(b) => assert tokens[1..] == rest;
      case Integer(n) => ParseInteger(n, rest);
      case Double(negative, magnitude) => ParseDouble(negative, magnitude, rest);
      case Varchar(s) => assert tokens[1..] == rest;
      case Date(text) => assert tokens[2..] == rest;
      case Time(text) => assert tokens[2..] == rest;
      case Timestamp(text) => assert tokens[2..] == rest;
    }
  }

  function LiteralLists(values: seq<Value>): seq<seq<Token>> {
    seq(|values|, i requires 0 <= i < |values| => LiteralTokens(values[i]))
  }

  lemma {:induction false} FormattedAt(values: seq<Value>, i: nat)
    requires FormatLiterals(values).Some? && i < |values|
    ensures IsLiteral(values[i]) && FormatLiterals(values).value[i] == FormatLiteral(values[i]).value
  {
    if i > 0 {
      FormattedAt(values[1..], i - 1);
    }
  }

  lemma {:induction false} LexLiterals(values: seq<Value>)
    requires values != [] && FormatLiterals(values).Some?
    ensures LexesTo(Join(FormatLiterals(values).value, ", "), JoinTokens(LiteralLists(values), COMMA))
  {
    var texts := FormatLiterals(values).value;
    forall i | 0 <= i < |values|
      ensures LexesTo(texts[i], LiteralLists(values)[i])
    {
      FormattedAt(values, i);
      LexLiteral(values[i]);
    }
    LexComma();
    LexJoin(texts, LiteralLists(values), ",", COMMA);
    assert ", " == "," + " ";
  }

  lemma {:induction false} ParseLiterals(values: seq<Value>, rest: seq<Token>)
    requires values != [] && forall v :: v in values ==> IsLiteral(v)
    requires !StartsWith(rest, Symbol(","))
    ensures ParseOperands(JoinTokens(LiteralLists(values), COMMA) + rest) == Some(Parsed(Constants(values), rest))
  {
    forall i | 0 <= i < |values|
      ensures ParsesToOperand(LiteralLists(values)[i], Constants(values)[i])
    {
      forall more
        ensures ParseOperand(LiteralTokens(values[i]) + more) == Some(Parsed(Constant(values[i]), more))
      {
        ParseLiteral(values[i], more);
      }
    }
    ParseOperandList(LiteralLists(values), Constants(values), rest);
  }

  // ---------------------------------------------------------------------------
  // Leaves
  // ---------------------------------------------------------------------------

  predicate IsLeaf(f: Filter) {
    f.ConstantComparison? || f.IsNull? || f.IsNotNull? || f.InFilter?
  }

  function LeafTokens(f: Filter, name: string): seq<Token> {
    match f
    case ConstantComparison(t, c) => [Ident(name)] + [Symbol(FirebirdCompareOp(t))] + LiteralTokens(c)
    case IsNull => [Ident(name)] + [Word("IS")] + [Word("NULL")]
    case IsNotNull => [Ident(name)] + [Word("IS")] + [Word("NOT")] + [Word("NULL")]
    case InFilter(values) =>
      if values == [] then [Number("1")] + [Symbol("=")] + [Number("0")]
      else
        [Ident(name)] + [Word("IN")] + ([Symbol("(")] + JoinTokens(LiteralLists(values), COMMA) + [Symbol(")")])
    case _ => []
  }

  function Leaf(f: Filter, name: string): Primary {
    var t := Translate(f, QuoteIdentifier(name));
    Primary(if t.Text? then t.text else "", LeafTokens(f, name), LeafCondition(f, name))
  }

  lemma {:induction false} LexLeaf(f: Filter, name: string)
    requires IsLeaf(f) && Representable(f) && name != ""
    ensures LexesTo(Leaf(f, name).text, LeafTokens(f, name))
  {
    var col := QuoteIdentifier(name);
    LexIdentifier(name);
    match f {
      case ConstantComparison(t, c) =>
        LexComparison(FirebirdCompareOp(t));
        LexLiteral(c);
        LexThree(col, [Ident(name)], FirebirdCompareOp(t), [Symbol(FirebirdCompareOp(t))], FormatLiteral(c).value, LiteralTokens(c));
      case IsNull =>
        LexWord("IS");
        LexWord("NULL");
        LexThree(col, [Ident(name)], "IS", [Word("IS")], "NULL", [Word("NULL")]);
        assert col + " IS NULL" == col + " " + "IS" + " " + "NULL";
      case IsNotNull =>
        LexWord("IS");
        LexWord("NOT");
        LexWord("NULL");
        LexThree(col, [Ident(name)], "IS", [Word("IS")], "NOT", [Word("NOT")]);
        LexTwo(col + " IS NOT", [Ident(name)] + [Word("IS")] + [Word("NOT")], "NULL", [Word("NULL")]) by {
          assert col + " IS NOT" == col + " " + "IS" + " " + "NOT";
        }
        assert col + " IS NOT NULL" == col + " IS NOT" + " " + "NULL";
      case InFilter(values) =>
        if values == [] {
          LexOneIsZero();
        } else {
          LiteralsFormat(values);
          LexLiterals(values);
          var list, tokens := Join(FormatLiterals(values).value, ", "), JoinTokens(LiteralLists(values), COMMA);
          LexParenthesised(list, tokens);
          LexWord("IN");
          LexThree(col, [Ident(name)], "IN", [Word("IN")], "(" + list + ")", [Symbol("(")] + tokens + [Symbol(")")]);
          assert col + " IN (" + list + ")" == col + " " + "IN" + " " + ("(" + list + ")");
        }
    }
  }

  lemma {:induction false} LexOneIsZero()
    ensures LexesTo("1 = 0", [Number("1")] + [Symbol("=")] + [Number("0")])
  {
    DigitsAreANumber("1");
    DigitsAreANumber("0");
    LexNumber("1");
    LexNumber("0");
    LexComparison("=");
    LexThree("1", [Number("1")], "=", [Symbol("=")], "0", [Number("0")]);
    assert "1 = 0" == "1" + " " + "=" + " " + "0";
  }

  lemma {:induction false} ReadOperator(name: string, symbol: string, more: seq<Token>)
    ensures ParsePrimary([Ident(name)] + ([Symbol(symbol)] + more)) == ParseComparison(Column(name), symbol, more)
  {
    assert ([Ident(name)] + ([Symbol(symbol)] + more))[1..] == [Symbol(symbol)] + more;
    assert ([Symbol(symbol)] + more)[1..] == more;
  }

  lemma {:induction false} OperatorReads(t: ExpressionType)
    requires t != OtherExpression
    ensures OpOf(t).Some? && ComparisonOf(FirebirdCompareOp(t)) == OpOf(t)
  {
  }

  lemma {:induction false} ReadOperatorValue(name: string, symbol: string, op: CompareOp, tokens: seq<Token>, x: Operand, rest: seq<Token>)
    requires ComparisonOf(symbol) == Some(op) && ParseOperand(tokens + rest) == Some(Parsed(x, rest))
    ensures ParsePrimary(([Ident(name)] + [Symbol(symbol)] + tokens) + rest) == Some(Parsed(Compare(op, Column(name), x), rest))
  {
    assert ([Ident(name)] + [Symbol(symbol)] + tokens) + rest == [Ident(name)] + ([Symbol(symbol)] + (tokens + rest));
    ReadOperator(name, symbol, tokens + rest);
  }

  lemma {:induction false} ReadComparison(name: string, t: ExpressionType, c: Value, rest: seq<Token>)
    requires t != OtherExpression && IsLiteral(c)
    ensures var f := ConstantComparison(t, c);
            ParsePrimary(LeafTokens(f, name) + rest) == Some(Parsed(LeafCondition(f, name), rest))
  {
    OperatorReads(t);
    ParseLiteral(c, rest);
    ReadOperatorValue(name, FirebirdCompareOp(t), OpOf(t).value, LiteralTokens(c), Constant(c), rest);
  }

  lemma {:induction false} ReadIsNull(name: string, rest: seq<Token>)
    ensures ParsePrimary(LeafTokens(IsNull, name) + rest) == Some(Parsed(NullTest(Column(name), true), rest))
  {
    var words := [Word("NULL")] + rest;
    assert LeafTokens(IsNull, name) + rest == [Ident(name)] + ([Word("IS")] + words);
    assert words[1..] == rest;
    ReadNullTest(name, words);
  }

  lemma {:induction false} ReadIsNotNull(name: string, rest: seq<Token>)
    ensures ParsePrimary(LeafTokens(IsNotNull, name) + rest) == Some(Parsed(NullTest(Column(name), false), rest))
  {
    var words := [Word("NOT"), Word("NULL")] + rest;
    assert LeafTokens(IsNotNull, name) + rest == [Ident(name)] + ([Word("IS")] + words);
    assert words[1..] == [Word("NULL")] + rest && words[2..] == rest;
    ReadNullTest(name, words);
  }

  lemma {:induction false} ReadNullTest(name: string, words: seq<Token>)
    ensures ParsePrimary([Ident(name)] + ([Word("IS")] + words)) == ParseNullTest(Column(name), words)
  {
    assert ([Ident(name)] + ([Word("IS")] + words))[1..] == [Word("IS")] + words;
    assert ([Word("IS")] + words)[1..] == words;
  }

  lemma {:induction false} ReadInList(name: string, values: seq<Value>, rest: seq<Token>)
    requires values != [] && forall v :: v in values ==> IsLiteral(v)
    ensures ParsePrimary(LeafTokens(InFilter(values), name) + rest)
         == Some(Parsed(SqlConditions.In(Column(name), Constants(values)), rest))
  {
    var all := LeafTokens(InFilter(values), name) + rest;
    var close := [Symbol(")")] + rest;
    var items := JoinTokens(LiteralLists(values), COMMA) + close;
    var tail := [Symbol("(")] + items;
    assert all == [Ident(name), Word("IN")] + tail && all[1..][1..] == tail && tail[1..] == items;
    ParseLiterals(values, close);
    assert close[1..] == rest;
    assert ParseInPredicate(Column(name), tail) == Some(Parsed(SqlConditions.In(Column(name), Constants(values)), rest));
  }

  lemma {:induction false} OneDigit(digits: string)
    requires |digits| == 1 && IsDigit(digits[0])
    ensures ParseNumber(digits, false) == Some(Integer(digits[0] as int - '0' as int))
  {
    assert digits[..0] == "" && NatOf("") == 0;
    assert NatOf(digits) == digits[0] as int - '0' as int;
  }

  lemma {:induction false} ReadNumber(digits: string, n: int, rest: seq<Token>)
    requires ParseNumber(digits, false) == Some(Integer(n))
    ensures ParseOperand([Number(digits)] + rest) == Some(Parsed(Constant(Integer(n)), rest))
  {
    assert ([Number(digits)] + rest)[1..] == rest;
  }

  lemma {:induction false} ReadNumbers(left: string, m: int, right: string, n: int, rest: seq<Token>)
    requires ParseNumber(left, false) == Some(Integer(m)) && ParseNumber(right, false) == Some(Integer(n))
    ensures ParsePrimary([Number(left)] + [Symbol("=")] + [Number(right)] + rest)
         == Some(Parsed(Compare(Eq, Constant(Integer(m)), Constant(Integer(n))), rest))
  {
    var value := [Number(right)] + rest;
    var tail := [Symbol("=")] + value;
    assert [Number(left)] + [Symbol("=")] + [Number(right)] + rest == [Number(left)] + tail;
    ReadNumber(left, m, tail);
    ReadNumber(right, n, rest);
    assert tail[1..] == value;
  }

  lemma {:induction false} ReadOneIsZero(rest: seq<Token>)
    ensures ParsePrimary([Number("1")] + [Symbol("=")] + [Number("0")] + rest)
         == Some(Parsed(Compare(Eq, Constant(Integer(1)), Constant(Integer(0))), rest))
  {
    OneDigit("1");
    OneDigit("0");
    ReadNumbers("1", 1, "0", 0, rest);
  }

  lemma {:induction false} ReadLeaf(f: Filter, name: string, rest: seq<Token>)
    requires IsLeaf(f) && Representable(f)
    ensures ParsePrimary(LeafTokens(f, name) + rest) == Some(Parsed(LeafCondition(f, name), rest))
  {
    match f {
      case ConstantComparison(t, c) => ReadComparison(name, t, c, rest);
      case IsNull => ReadIsNull(name, rest);
      case IsNotNull => ReadIsNotNull(name, rest);
      case InFilter(values) =>
        if values == [] { ReadOneIsZero(rest); } else { ReadInList(name, values, rest); }
    }
  }

  // ---------------------------------------------------------------------------
  // Whole filters
  // ---------------------------------------------------------------------------

  function Singletons(g: Group): seq<Group> {
    seq(|g|, i requires 0 <= i < |g| => [g[i]])
  }

  /** A filter's text as groups of primaries: one group for a leaf or an AND, one group a branch for an OR. */
  function GroupsOf(f: Filter, name: string): seq<Group>
    decreases f, 1
  {
    match f
    case ConjunctionAnd(children) => [KeptPrimaries(children, name)]
    case ConjunctionOr(children) => Singletons(KeptPrimaries(children, name))
    case _ => [[Leaf(f, name)]]
  }

  function KeptPrimaries(children: seq<Filter>, name: string): Group
    decreases children, 0
  {
    if children == [] then []
    else
      (if Erases(children[0]) then [] else [Parenthesised(GroupsOf(children[0], name))])
      + KeptPrimaries(children[1..], name)
  }

  lemma {:induction false} GroupsSound(f: Filter, name: string)
    requires Representable(f) && !Erases(f) && name != ""
    ensures SoundGroups(GroupsOf(f, name))
    decreases f, 1
  {
    if f.ConjunctionAnd? || f.ConjunctionOr? {
      PrimariesSound(f.children, name);
    } else {
      LexLeaf(f, name);
      forall rest
        ensures ParsePrimary(LeafTokens(f, name) + rest) == Some(Parsed(LeafCondition(f, name), rest))
      {
        ReadLeaf(f, name, rest);
      }
    }
  }

  lemma {:induction false} PrimariesSound(children: seq<Filter>, name: string)
    requires name != "" && forall child :: child in children ==> Representable(child)
    ensures var g := KeptPrimaries(children, name);
            && (forall i :: 0 <= i < |g| ==> Sound(g[i]))
            && (g == [] <==> forall child :: child in children ==> Erases(child))
    decreases children, 0
  {
    if children != [] {
      assert children == [children[0]] + children[1..];
      PrimariesSound(children[1..], name);
      var more := KeptPrimaries(children[1..], name);
      if Erases(children[0]) {
        assert KeptPrimaries(children, name) == more;
      } else {
        GroupsSound(children[0], name);
        ParenthesisedSound(GroupsOf(children[0], name));
        var g := [Parenthesised(GroupsOf(children[0], name))] + more;
        assert forall i :: 1 <= i < |g| ==> g[i] == more[i - 1];
      }
    }
  }

  /** The translated text is the text of the filter's groups. */
  lemma {:induction false} TextOfFilter(f: Filter, name: string)
    requires Representable(f) && !Erases(f)
    ensures Translate(f, QuoteIdentifier(name)) == Text(TextOf(GroupsOf(f, name)))
    decreases f, 1
  {
    TranslationOutcomes(f, QuoteIdentifier(name));
    if f.ConjunctionAnd? {
      PartsOfFilter(f.children, name, true);
      assert GroupTexts(GroupsOf(f, name)) == [GroupText(KeptPrimaries(f.children, name))];
    } else if f.ConjunctionOr? {
      PartsOfFilter(f.children, name, false);
      var g := KeptPrimaries(f.children, name);
      forall i | 0 <= i < |g|
        ensures GroupTexts(Singletons(g))[i] == g[i].text
      {
        assert Texts([g[i]]) == [g[i].text];
      }
      assert GroupTexts(Singletons(g)) == Texts(g);
    } else {
      var leaf := Leaf(f, name);
      assert Texts([leaf]) == [leaf.text];
      assert GroupTexts([[leaf]]) == [leaf.text];
    }
  }

  lemma {:induction false} PartsOfFilter(children: seq<Filter>, name: string, mayDrop: bool)
    requires forall child :: child in children ==> Representable(child) && (mayDrop || !Erases(child))
    ensures Parts(children, QuoteIdentifier(name), mayDrop) == Ok(Texts(KeptPrimaries(children, name)))
    decreases children, 0
  {
    if children == [] {
      assert Texts([]) == [];
    } else {
      assert children == [children[0]] + children[1..];
      TranslationOutcomes(children[0], QuoteIdentifier(name));
      PartsOfFilter(children[1..], name, mayDrop);
      if !Erases(children[0]) {
        TextOfFilter(children[0], name);
        GroupCons(Parenthesised(GroupsOf(children[0], name)), KeptPrimaries(children[1..], name));
      } else {
        assert KeptPrimaries(children, name) == KeptPrimaries(children[1..], name);
      }
    }
  }

  lemma {:induction false} ConditionOfFilter(f: Filter, name: string)
    ensures ConditionOf(GroupsOf(f, name)) == ConditionFor(f, name)
    decreases f, 1
  {
    if f.ConjunctionAnd? {
      ConditionsOfPrimaries(f.children, name);
      assert GroupConditions(GroupsOf(f, name)) == [MkAnd(Conditions(KeptPrimaries(f.children, name)))];
    } else if f.ConjunctionOr? {
      ConditionsOfPrimaries(f.children, name);
      var g := KeptPrimaries(f.children, name);
      forall i | 0 <= i < |g|
        ensures GroupConditions(Singletons(g))[i] == g[i].condition
      {
        assert Conditions([g[i]]) == [g[i].condition];
      }
      assert GroupConditions(Singletons(g)) == Conditions(g);
    } else {
      var leaf := Leaf(f, name);
      assert Conditions([leaf]) == [leaf.condition];
      assert GroupConditions([[leaf]]) == [leaf.condition];
    }
  }

  lemma {:induction false} ConditionsOfPrimaries(children: seq<Filter>, name: string)
    ensures Conditions(KeptPrimaries(children, name)) == KeptConditions(children, name)
    decreases children, 0
  {
    if children != [] {
      ConditionsOfPrimaries(children[1..], name);
      if !Erases(children[0]) {
        ConditionOfFilter(children[0], name);
        GroupCons(Parenthesised(GroupsOf(children[0], name)), KeptPrimaries(children[1..], name));
      } else {
        assert KeptPrimaries(children, name) == KeptPrimaries(children[1..], name);
      }
    }
  }

  /** Parser and printer are inverse: translated text reads back as the filter's erased tree. */
  lemma {:induction false} TranslationReadsBack(f: Filter, name: string)
    requires name != ""
    ensures var t := Translate(f, QuoteIdentifier(name));
            t.Text? ==> ReadCondition(t.text) == Some(ConditionFor(f, name))
  {
    TranslationOutcomes(f, QuoteIdentifier(name));
    if Representable(f) && !Erases(f) {
      TextOfFilter(f, name);
      GroupsSound(f, name);
      ReadGroups(GroupsOf(f, name));
      ConditionOfFilter(f, name);
    }
  }

  // ---------------------------------------------------------------------------
  // Meaning
  // ---------------------------------------------------------------------------

  lemma {:induction false} EvalInList(values: seq<Value>, v: Value, row: Row, ord: Order)
    requires forall c :: c in values ==> c != Null
    ensures EvalIn(v, Constants(values), row, ord) == True
            <==> v != Null && exists c :: c in values && ord(v, c) == Equal
  {
    if values != [] {
      var head, tail := values[0], values[1..];
      assert values == [head] + tail && forall c :: c in tail ==> c in values;
      EvalInList(tail, v, row, ord);
      assert Constants(values)[0] == Constant(head) && Constants(values)[1..] == Constants(tail);
      assert (exists c :: c in values && ord(v, c) == Equal)
        <==> ord(v, head) == Equal || exists c :: c in tail && ord(v, c) == Equal;
    }
  }

  /** The condition of a filter is TRUE of exactly the rows that its erased tree accepts, NULLs included. */
  lemma {:induction false} ConditionMeans(f: Filter, name: string, row: Row, ord: Order)
    requires Representable(f) && !Erases(f)
    requires name in row && OrdersIntegers(ord)
    ensures Eval(ConditionFor(f, name), row, ord) == True <==> Means(f, row[name], ord)
    decreases f, 1
  {
    match f {
      case InFilter(values) =>
        if values == [] {
          assert ord(Integer(1), Integer(0)) == Greater;
        } else {
          EvalInList(values, row[name], row, ord);
        }
      case ConjunctionAnd(children) =>
        KeptMean(children, name, row, ord);
        EvalMade(KeptConditions(children, name), row, ord);
      case ConjunctionOr(children) =>
        KeptMean(children, name, row, ord);
        EvalMade(KeptConditions(children, name), row, ord);
      case _ =>
    }
  }

  lemma {:induction false} EvalMade(cs: seq<Condition>, row: Row, ord: Order)
    ensures Eval(MkAnd(cs), row, ord) == True <==> EvalAll(cs, row, ord) == True
    ensures Eval(MkOr(cs), row, ord) == True <==> EvalAny(cs, row, ord) == True
  {
    if |cs| != 1 {
      assert Eval(And(cs), row, ord) == EvalAll(cs, row, ord);
      assert Eval(Or(cs), row, ord) == EvalAny(cs, row, ord);
    }
  }

  /** Erased children have no say: the kept ones decide. */
  lemma {:induction false} KeptMean(children: seq<Filter>, name: string, row: Row, ord: Order)
    requires forall child :: child in children ==> Representable(child)
    requires name in row && OrdersIntegers(ord)
    ensures EvalAll(KeptConditions(children, name), row, ord) == True
            <==> forall child :: child in children && !Erases(child) ==> Means(child, row[name], ord)
    ensures EvalAny(KeptConditions(children, name), row, ord) == True
            <==> exists child :: child in children && !Erases(child) && Means(child, row[name], ord)
    decreases children, 0
  {
    if children != [] {
      var head, tail := children[0], children[1..];
      KeptMean(tail, name, row, ord);
      assert children == [head] + tail;
      var cs, more := KeptConditions(children, name), KeptConditions(tail, name);
      if Erases(head) {
        assert cs == more;
      } else {
        ConditionMeans(head, name, row, ord);
        assert cs[0] == ConditionFor(head, name) && cs[1..] == more;
      }
    }
  }

  /** The emitted text, read by the reference parser, keeps a row; a skipped filter keeps every row. */
  ghost predicate TextKeeps(f: Filter, name: string, row: Row, ord: Order) {
    match Translate(f, QuoteIdentifier(name))
    case Text(text) => ReadCondition(text).Some? && Eval(ReadCondition(text).value, row, ord) == True
    case Skipped => true
    case Throws(_) => false
  }

  /** What the text of any filter means: the filter's own meaning with everything that erases read as TRUE. */
  lemma {:induction false} TextMeans(f: Filter, name: string, row: Row, ord: Order)
    requires Representable(f) && name in row && name != "" && OrdersIntegers(ord)
    ensures TextKeeps(f, name, row, ord) <==> Means(f, row[name], ord)
    ensures Accepts(f, row[name], ord) ==> TextKeeps(f, name, row, ord)
  {
    TranslationOutcomes(f, QuoteIdentifier(name));
    LeaksAreTheDifference(f, row[name], ord);
    if !Erases(f) {
      TranslationReadsBack(f, name);
      ConditionMeans(f, name, row, ord);
    }
  }

  /** Exactness on one row, for every filter: the text agrees with the filter if and only if the value does not leak. */
  lemma {:induction false} TextIsExactIffNoLeak(f: Filter, name: string, row: Row, ord: Order)
    requires Representable(f) && name in row && name != "" && OrdersIntegers(ord)
    ensures (TextKeeps(f, name, row, ord) <==> Accepts(f, row[name], ord)) <==> !Leaks(f, row[name], ord)
  {
    TextMeans(f, name, row, ord);
    LeaksAreTheDifference(f, row[name], ord);
  }

  /**
   * An AND that drops a term with an empty OR accepts nothing, but its text keeps whatever the other terms let through: on
   * a row it is exact if and only if the text of one of the other terms rejects the row.
   */
  lemma {:induction false} DroppedEmptyOrIsExactIff(children: seq<Filter>, name: string, row: Row, ord: Order)
    requires Representable(ConjunctionAnd(children)) && name in row && name != "" && OrdersIntegers(ord)
    requires exists child :: child in children && Erases(child) && !NonEmptyOrs(child)
    ensures var f := ConjunctionAnd(children);
            (TextKeeps(f, name, row, ord) <==> Accepts(f, row[name], ord))
            <==> exists child :: child in children && !TextKeeps(child, name, row, ord)
  {
    var f := ConjunctionAnd(children);
    var dropped :| dropped in children && Erases(dropped) && !NonEmptyOrs(dropped);
    SkippedMeansTrue(dropped, row[name], ord);
    TextMeans(f, name, row, ord);
    forall child | child in children
      ensures TextKeeps(child, name, row, ord) <==> Means(child, row[name], ord)
    {
      TextMeans(child, name, row, ord);
    }
  }

  /** Exactness on all rows: without masked parts, if and only if there is no empty OR at any depth. */
  lemma {:induction false} TextIsExactIffNonEmptyOrs(f: Filter, name: string, ord: Order)
    requires Representable(f) && name != "" && OrdersIntegers(ord)
    requires Irredundant(f, _ => true, ord)
    ensures (forall row | name in row :: TextKeeps(f, name, row, ord) <==> Accepts(f, row[name], ord)) <==> NonEmptyOrs(f)
  {
    if NonEmptyOrs(f) {
      forall row | name in row
        ensures TextKeeps(f, name, row, ord) <==> Accepts(f, row[name], ord)
      {
        NoEmptyOrNoLeak(f, row[name], ord);
        TextIsExactIffNoLeak(f, name, row, ord);
      }
    } else {
      var v := UnmaskedLeak(f, _ => true, ord);
      var row := map[name := v];
      TextIsExactIffNoLeak(f, name, row, ord);
      assert name in row;
    }
  }

  /**
   * Exactness of one clause without empty ORs: the text of a required filter keeps a row exactly when the filter accepts
   * it, and a skipped filter accepts every row.
   */
  lemma {:induction false} TranslationIsExact(f: Filter, name: string, row: Row, ord: Order)
    requires name in row && name != "" && OrdersIntegers(ord) && NonEmptyOrs(f)
    ensures var t := Translate(f, QuoteIdentifier(name));
            && (t.Skipped? ==> Accepts(f, row[name], ord))
            && (t.Text? ==> ReadCondition(t.text).Some?
                            && (Eval(ReadCondition(t.text).value, row, ord) == True <==> Accepts(f, row[name], ord)))
  {
    TranslationOutcomes(f, QuoteIdentifier(name));
    TranslationReadsBack(f, name);
    if Representable(f) {
      TextIsExactIffNoLeak(f, name, row, ord);
      NoEmptyOrNoLeak(f, row[name], ord);
    }
  }

  /** Concrete leaks at two depths: an empty OR beside "= 1", alone and as one branch of an OR with IS NULL, keeps a 1. */
  lemma {:induction false} EmptyOrExample(ord: Order)
    requires OrdersIntegers(ord)
    ensures var both := ConjunctionAnd([ConjunctionOr([]), ConstantComparison(CompareEqual, Integer(1))]);
            var row := map["A" := Integer(1)];
            && TextKeeps(both, "A", row, ord) && !Accepts(both, Integer(1), ord)
            && TextKeeps(ConjunctionOr([both, IsNull]), "A", row, ord)
            && !Accepts(ConjunctionOr([both, IsNull]), Integer(1), ord)
  {
    var one, row := ConstantComparison(CompareEqual, Integer(1)), map["A" := Integer(1)];
    var both := ConjunctionAnd([ConjunctionOr([]), one]);
    assert ord(Integer(1), Integer(1)) == Equal;
    MeansBeside(ConjunctionOr([]), one, Integer(1), ord);
    OrOfTwo(both, IsNull, Integer(1), ord);
    RepresentableBeside(one, IsNull);
    TextMeans(both, "A", row, ord);
    TextMeans(ConjunctionOr([both, IsNull]), "A", row, ord);
  }

  lemma {:induction false} RepresentableBeside(kept: Filter, other: Filter)
    requires Representable(kept) && !Erases(kept) && Representable(other) && !Erases(other)
    ensures Representable(ConjunctionAnd([ConjunctionOr([]), kept]))
    ensures Representable(ConjunctionOr([ConjunctionAnd([ConjunctionOr([]), kept]), other]))
  {
    assert [ConjunctionOr([]), kept][1] == kept;
  }

  /** No branch of an OR is dropped: its condition has one disjunct for each child, in order. */
  lemma {:induction false} OrKeepsEveryBranch(children: seq<Filter>, name: string)
    requires Representable(ConjunctionOr(children))
    ensures |KeptConditions(children, name)| == |children|
    ensures forall i :: 0 <= i < |children| ==> KeptConditions(children, name)[i] == ConditionFor(children[i], name)
  {
    if children != [] {
      assert forall child :: child in children[1..] ==> child in children;
      OrKeepsEveryBranch(children[1..], name);
      assert forall i :: 1 <= i < |children| ==> children[i] == children[1..][i - 1];
    }
  }
}
