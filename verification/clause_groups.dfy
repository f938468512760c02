/**
 * The shape every emitted search condition has: groups joined by OR, each made of primaries joined by AND.
 * A primary is a text that lexes and parses to one condition whatever follows it.
 */
module ClauseGroups {
  import opened SqlConditions
  import opened SqlLexer
  import opened SqlText
  import opened SqlValues
  import opened Wrappers

  datatype Primary = Primary(text: string, tokens: seq<Token>, condition: Condition)

  type Group = seq<Primary>

  ghost predicate ParsesTo(tokens: seq<Token>, c: Condition) {
    forall rest {:trigger ParsePrimary(tokens + rest)} :: ParsePrimary(tokens + rest) == Some(Parsed(c, rest))
  }

  ghost predicate Sound(p: Primary) {
    LexesTo(p.text, p.tokens) && ParsesTo(p.tokens, p.condition)
  }

  ghost predicate SoundGroup(g: Group) {
    g != [] && forall i :: 0 <= i < |g| ==> Sound(g[i])
  }

  ghost predicate SoundGroups(groups: seq<Group>) {
    groups != [] && forall i :: 0 <= i < |groups| ==> SoundGroup(groups[i])
  }

  const AND := [Word("AND")]
  const OR := [Word("OR")]

  function Texts(g: Group): seq<string> {
    seq(|g|, i requires 0 <= i < |g| => g[i].text)
  }

  function TokenLists(g: Group): seq<seq<Token>> {
    seq(|g|, i requires 0 <= i < |g| => g[i].tokens)
  }

  function Conditions(g: Group): seq<Condition> {
    seq(|g|, i requires 0 <= i < |g| => g[i].condition)
  }

  lemma {:induction false} GroupCons(p: Primary, g: Group)
    ensures Texts([p] + g) == [p.text] + Texts(g)
    ensures Conditions([p] + g) == [p.condition] + Conditions(g)
  {
  }

  function GroupText(g: Group): string {
    Join(Texts(g), " AND ")
  }

  function GroupTokens(g: Group): seq<Token> {
    JoinTokens(TokenLists(g), AND)
  }

  function GroupTexts(groups: seq<Group>): seq<string> {
    seq(|groups|, i requires 0 <= i < |groups| => GroupText(groups[i]))
  }

  function GroupTokenLists(groups: seq<Group>): seq<seq<Token>> {
    seq(|groups|, i requires 0 <= i < |groups| => GroupTokens(groups[i]))
  }

  function GroupConditions(groups: seq<Group>): seq<Condition> {
    seq(|groups|, i requires 0 <= i < |groups| => MkAnd(Conditions(groups[i])))
  }

  function TextOf(groups: seq<Group>): string {
    Join(GroupTexts(groups), " OR ")
  }

  function TokensOf(groups: seq<Group>): seq<Token> {
    JoinTokens(GroupTokenLists(groups), OR)
  }

  function ConditionOf(groups: seq<Group>): Condition {
    MkOr(GroupConditions(groups))
  }

  // ---------------------------------------------------------------------------
  // Comma-separated operands
  // ---------------------------------------------------------------------------

  const COMMA := [Symbol(",")]

  lemma {:induction false} LexComma()
    ensures LexesTo(",", COMMA)
  {
    forall rest | Boundary(rest)
      ensures Next("," + rest) == Some(Scanned(Symbol(","), rest))
    {
      assert ("," + rest)[1..] == rest;
    }
    LexOne(",", Symbol(","));
  }

  ghost predicate ParsesToOperand(tokens: seq<Token>, x: Operand) {
    forall rest {:trigger ParseOperand(tokens + rest)} :: ParseOperand(tokens + rest) == Some(Parsed(x, rest))
  }

  lemma {:induction false} ParseOperandList(lists: seq<seq<Token>>, xs: seq<Operand>, rest: seq<Token>)
    requires |lists| == |xs| > 0
    requires forall i :: 0 <= i < |lists| ==> ParsesToOperand(lists[i], xs[i])
    requires !StartsWith(rest, Symbol(","))
    ensures ParseOperands(JoinTokens(lists, COMMA) + rest) == Some(Parsed(xs, rest))
  {
    assert ParsesToOperand(lists[0], xs[0]);
    if |lists| == 1 {
      assert JoinTokens(lists, COMMA) == lists[0];
      assert xs == [xs[0]];
    } else {
      var tail := COMMA + JoinTokens(lists[1..], COMMA) + rest;
      assert JoinTokens(lists, COMMA) + rest == lists[0] + tail;
      assert ParseOperand(lists[0] + tail) == Some(Parsed(xs[0], tail));
      assert tail[1..] == JoinTokens(lists[1..], COMMA) + rest;
      ParseOperandList(lists[1..], xs[1..], rest);
      assert xs == [xs[0]] + xs[1..];
    }
  }

  // ---------------------------------------------------------------------------
  // Lexing and parsing back
  // ---------------------------------------------------------------------------

  lemma {:induction false} LexGroup(g: Group)
    requires SoundGroup(g)
    ensures LexesTo(GroupText(g), GroupTokens(g))
  {
    LexWord("AND");
    LexBlank("AND", AND);
    assert " AND" == " " + "AND" && " AND " == " AND" + " ";
    LexJoin(Texts(g), TokenLists(g), " AND", AND);
  }

  lemma {:induction false} LexGroups(groups: seq<Group>)
    requires SoundGroups(groups)
    ensures LexesTo(TextOf(groups), TokensOf(groups))
  {
    forall i | 0 <= i < |groups|
      ensures LexesTo(GroupTexts(groups)[i], GroupTokenLists(groups)[i])
    {
      LexGroup(groups[i]);
    }
    LexWord("OR");
    LexBlank("OR", OR);
    assert " OR" == " " + "OR" && " OR " == " OR" + " ";
    LexJoin(GroupTexts(groups), GroupTokenLists(groups), " OR", OR);
  }

  lemma {:induction false} SplitGroup(g: Group, rest: seq<Token>)
    requires |g| > 1
    ensures GroupTokens(g) + rest == g[0].tokens + (AND + (GroupTokens(g[1..]) + rest))
    ensures Conditions(g) == [g[0].condition] + Conditions(g[1..])
  {
    assert TokenLists(g)[1..] == TokenLists(g[1..]);
  }

  lemma {:induction false} ParseGroup(g: Group, rest: seq<Token>)
    requires SoundGroup(g)
    requires !StartsWith(rest, Word("AND"))
    ensures ParseTerms(GroupTokens(g) + rest) == Some(Parsed(Conditions(g), rest))
  {
    assert Sound(g[0]);
    if |g| == 1 {
      assert GroupTokens(g) == g[0].tokens;
      assert Conditions(g) == [g[0].condition];
    } else {
      var more := GroupTokens(g[1..]) + rest;
      SplitGroup(g, rest);
      assert ParsePrimary(g[0].tokens + (AND + more)) == Some(Parsed(g[0].condition, AND + more));
      assert (AND + more)[1..] == more;
      ParseGroup(g[1..], rest);
    }
  }

  lemma {:induction false} SplitGroups(groups: seq<Group>, rest: seq<Token>)
    requires |groups| > 1
    ensures TokensOf(groups) + rest == GroupTokens(groups[0]) + (OR + (TokensOf(groups[1..]) + rest))
    ensures GroupConditions(groups) == [MkAnd(Conditions(groups[0]))] + GroupConditions(groups[1..])
  {
    assert GroupTokenLists(groups)[1..] == GroupTokenLists(groups[1..]);
  }

  lemma {:induction false} ParseGroups(groups: seq<Group>, rest: seq<Token>)
    requires SoundGroups(groups)
    requires !StartsWith(rest, Word("AND")) && !StartsWith(rest, Word("OR"))
    ensures ParseDisjuncts(TokensOf(groups) + rest) == Some(Parsed(GroupConditions(groups), rest))
  {
    if |groups| == 1 {
      assert TokensOf(groups) == GroupTokens(groups[0]);
      ParseGroup(groups[0], rest);
      assert GroupConditions(groups) == [MkAnd(Conditions(groups[0]))];
    } else {
      var more := TokensOf(groups[1..]) + rest;
      SplitGroups(groups, rest);
      ParseGroup(groups[0], OR + more);
      assert (OR + more)[1..] == more;
      ParseGroups(groups[1..], rest);
    }
  }

  /** The text of sound groups reads back as their condition. */
  lemma {:induction false} ReadGroups(groups: seq<Group>)
    requires SoundGroups(groups)
    ensures ReadCondition(TextOf(groups)) == Some(ConditionOf(groups))
  {
    LexGroups(groups);
    LexesWhole(TextOf(groups), TokensOf(groups));
    ParseGroups(groups, []);
    assert TokensOf(groups) + [] == TokensOf(groups);
  }

  // ---------------------------------------------------------------------------
  // Parenthesised groups are primaries
  // ---------------------------------------------------------------------------

  function Parenthesised(groups: seq<Group>): Primary {
    Primary("(" + TextOf(groups) + ")", [Symbol("(")] + TokensOf(groups) + [Symbol(")")], ConditionOf(groups))
  }

  lemma {:induction false} ParenthesisedSound(groups: seq<Group>)
    requires SoundGroups(groups)
    ensures Sound(Parenthesised(groups))
  {
    LexGroups(groups);
    LexParenthesised(TextOf(groups), TokensOf(groups));
    var p := Parenthesised(groups);
    forall rest
      ensures ParsePrimary(p.tokens + rest) == Some(Parsed(p.condition, rest))
    {
      var close := [Symbol(")")] + rest;
      assert (p.tokens + rest)[1..] == TokensOf(groups) + close;
      ParseGroups(groups, close);
      assert close[1..] == rest;
    }
  }

  // ---------------------------------------------------------------------------
  // Joining two clauses with a bare AND
  // ---------------------------------------------------------------------------

  /** AND binds tighter than OR, so it welds the last group of one clause to the first of the next. */
  function Welded(a: seq<Group>, b: seq<Group>): seq<Group>
    requires a != [] && b != []
  {
    a[..|a| - 1] + [a[|a| - 1] + b[0]] + b[1..]
  }

  lemma {:induction false} JoinCat(a: seq<string>, b: seq<string>, separator: string)
    requires a != [] && b != []
    ensures Join(a + b, separator) == Join(a, separator) + separator + Join(b, separator)
  {
    if |a| == 1 {
      assert (a + b)[1..] == b;
    } else {
      assert (a + b)[1..] == a[1..] + b;
      JoinCat(a[1..], b, separator);
      assert a[0] + separator + (Join(a[1..], separator) + separator + Join(b, separator))
          == a[0] + separator + Join(a[1..], separator) + separator + Join(b, separator);
    }
  }

  lemma {:induction false} GroupTextCat(g: Group, h: Group)
    requires g != [] && h != []
    ensures GroupText(g + h) == GroupText(g) + " AND " + GroupText(h)
  {
    assert Texts(g + h) == Texts(g) + Texts(h);
    JoinCat(Texts(g), Texts(h), " AND ");
  }

  lemma {:induction false} WeldHead(g: Group, b: seq<Group>)
    requires g != [] && b != [] && b[0] != []
    ensures TextOf([g + b[0]] + b[1..]) == GroupText(g) + " AND " + TextOf(b)
  {
    var w := [g + b[0]] + b[1..];
    GroupTextCat(g, b[0]);
    assert GroupTexts(w) == [GroupText(g + b[0])] + GroupTexts(b)[1..];
    if |b| == 1 {
      assert GroupTexts(w) == [GroupText(g + b[0])];
    } else {
      assert GroupTexts(w)[1..] == GroupTexts(b)[1..];
      var tail := " OR " + Join(GroupTexts(b)[1..], " OR ");
      calc {
        TextOf(w);
        GroupText(g + b[0]) + " OR " + Join(GroupTexts(b)[1..], " OR ");
        GroupText(g) + " AND " + GroupText(b[0]) + " OR " + Join(GroupTexts(b)[1..], " OR ");
        GroupText(g) + " AND " + (GroupText(b[0]) + " OR " + Join(GroupTexts(b)[1..], " OR "));
      }
    }
  }

  /** The text of welded clauses is the texts of the two clauses with a bare AND between them. */
  lemma {:induction false} WeldedText(a: seq<Group>, b: seq<Group>)
    requires a != [] && b != []
    requires forall i :: 0 <= i < |a| ==> a[i] != []
    requires b[0] != []
    ensures TextOf(Welded(a, b)) == TextOf(a) + " AND " + TextOf(b)
  {
    if |a| == 1 {
      assert Welded(a, b) == [a[0] + b[0]] + b[1..];
      WeldHead(a[0], b);
    } else {
      var w := Welded(a, b);
      assert w[0] == a[0] && w[1..] == Welded(a[1..], b);
      WeldedText(a[1..], b);
      assert GroupTexts(w)[1..] == GroupTexts(w[1..]);
      assert GroupTexts(a)[1..] == GroupTexts(a[1..]);
      assert GroupText(a[0]) + " OR " + (TextOf(a[1..]) + " AND " + TextOf(b))
          == GroupText(a[0]) + " OR " + TextOf(a[1..]) + " AND " + TextOf(b);
    }
  }

  // ---------------------------------------------------------------------------
  // When groups hold
  // ---------------------------------------------------------------------------

  ghost predicate GroupHolds(g: Group, row: Row, ord: Order) {
    forall i :: 0 <= i < |g| ==> Eval(g[i].condition, row, ord) == True
  }

  ghost predicate GroupsHold(groups: seq<Group>, row: Row, ord: Order) {
    exists i :: 0 <= i < |groups| && GroupHolds(groups[i], row, ord)
  }

  lemma {:induction false} EvalGroup(g: Group, row: Row, ord: Order)
    ensures Eval(MkAnd(Conditions(g)), row, ord) == True <==> GroupHolds(g, row, ord)
  {
    var cs := Conditions(g);
    assert forall i :: 0 <= i < |g| ==> cs[i] == g[i].condition;
    if |cs| == 1 {
      assert cs[0] == g[0].condition;
    } else {
      assert Eval(And(cs), row, ord) == EvalAll(cs, row, ord);
    }
  }

  lemma {:induction false} EvalGroups(groups: seq<Group>, row: Row, ord: Order)
    ensures Eval(ConditionOf(groups), row, ord) == True <==> GroupsHold(groups, row, ord)
  {
    var cs := GroupConditions(groups);
    forall i | 0 <= i < |groups|
      ensures Eval(cs[i], row, ord) == True <==> GroupHolds(groups[i], row, ord)
    {
      EvalGroup(groups[i], row, ord);
    }
    if |cs| == 1 {
      assert ConditionOf(groups) == cs[0];
    } else {
      assert Eval(Or(cs), row, ord) == EvalAny(cs, row, ord);
    }
  }
}
