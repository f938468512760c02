/**
 * What plans denote, and that the limit pass together with the emitted SQL leaves every plan's rows unchanged.
 */
module PlanMeaning {
  import opened LimitGoverning
  import opened LimitPushdown
  import opened ScanQuery
  import opened SqlValues
  import opened WhereClause
  import opened Wrappers

  type Rows = seq<seq<Value>>

  type Caps = map<BindData, Option<nat>>

  /** DuckDB's own operators, left open: any meaning that depends only on the children's rows. */
  datatype Engine = Engine(
    project: (nat, seq<Value>) -> seq<Value>,
    apply: (Operator, seq<Rows>) -> Rows)

  datatype World = World(db: Database, ord: Order, engine: Engine)

  function ScanOf(op: Operator): Scan
    requires IsFirebirdGet(op)
  {
    Scan(op.bind.table, op.bind.names, op.ids, op.filters)
  }

  /** The rows a scan stands for when nothing caps it. */
  ghost function BaseRows(w: World, op: Operator): Rows
    requires IsFirebirdGet(op)
  {
    if op.bind.table in w.db then ScanRows(ScanOf(op), w.db[op.bind.table], w.ord) else []
  }

  /** DuckDB's LIMIT count OFFSET offset. */
  function Window(rows: Rows, offset: nat, count: nat): Rows {
    Take(if offset <= |rows| then rows[offset..] else [], count)
  }

  function CapOf(caps: Caps, b: BindData): Option<nat> {
    if b in caps then caps[b] else None
  }

  /** The rows a plan denotes when its scans are capped as given. */
  ghost function Denote(p: Plan, caps: Caps, w: World): Rows
    decreases p, 1
  {
    var rows := DenoteAll(p.children, caps, w);
    if IsFirebirdGet(p.op) then Capped(BaseRows(w, p.op), CapOf(caps, p.op.bind))
    else if p.op.Projection? && |p.children| == 1 then Project(rows[0], r => w.engine.project(p.op.id, r))
    else if ConstantWindow(p.op) && |p.children| == 1 then Window(rows[0], OffsetOf(p.op), p.op.limit.value)
    else w.engine.apply(p.op, rows)
  }

  ghost function DenoteAll(ps: seq<Plan>, caps: Caps, w: World): (r: seq<Rows>)
    ensures |r| == |ps|
    decreases ps, 0
  {
    if ps == [] then [] else [Denote(ps[0], caps, w)] + DenoteAll(ps[1..], caps, w)
  }

  /** No two scans of the plan share bind data: each operator owns its own. */
  ghost predicate OwnBinds(p: Plan)
    decreases p, 1
  {
    OwnBindsAll(p.children) && (IsFirebirdGet(p.op) ==> p.op.bind !in BindsAll(p.children))
  }

  ghost predicate OwnBindsAll(ps: seq<Plan>)
    decreases ps, 0
  {
    ps != [] ==> OwnBinds(ps[0]) && Binds(ps[0]) !! BindsAll(ps[1..]) && OwnBindsAll(ps[1..])
  }

  // ---------------------------------------------------------------------------
  // Each scan has at most one governing LIMIT, and the pass takes the minimum
  // ---------------------------------------------------------------------------

  /** The totals the LIMITs of the plan push onto a scan, in the order of the walk. */
  function Totals(p: Plan, b: BindData): seq<nat>
    decreases p, 1
  {
    (if PushOf(p).Some? && PushOf(p).value.bind == b then [PushOf(p).value.total] else []) + TotalsAll(p.children, b)
  }

  function TotalsAll(ps: seq<Plan>, b: BindData): seq<nat>
    decreases ps, 0
  {
    if ps == [] then [] else Totals(ps[0], b) + TotalsAll(ps[1..], b)
  }

  function MinAll(cap: Option<nat>, totals: seq<nat>): Option<nat>
    decreases totals
  {
    if totals == [] then cap else MinAll(MinCap(cap, totals[0]), totals[1..])
  }

  lemma {:induction false} MinAllConcat(cap: Option<nat>, a: seq<nat>, b: seq<nat>)
    ensures MinAll(cap, a + b) == MinAll(MinAll(cap, a), b)
    decreases a
  {
    if a == [] {
      assert a + b == b;
    } else {
      assert (a + b)[1..] == a[1..] + b;
      MinAllConcat(MinCap(cap, a[0]), a[1..], b);
    }
  }

  /** MinAll is the least of the old cap and all the totals. */
  lemma {:induction false} MinAllIsLeast(cap: Option<nat>, totals: seq<nat>)
    ensures var least := MinAll(cap, totals);
            && (least.None? <==> cap.None? && totals == [])
            && (least.Some? ==> least == cap || least.value in totals)
            && (least.Some? && cap.Some? ==> least.value <= cap.value)
            && (least.Some? ==> forall t :: t in totals ==> least.value <= t)
    decreases totals
  {
    if totals != [] {
      MinAllIsLeast(MinCap(cap, totals[0]), totals[1..]);
      assert totals == [totals[0]] + totals[1..];
    }
  }

  lemma {:induction false} CapIsMin(p: Plan, b: BindData, cap: Option<nat>)
    ensures CapAfter(p, b, cap) == MinAll(cap, Totals(p, b))
    decreases p, 1
  {
    var own := if PushOf(p).Some? && PushOf(p).value.bind == b then [PushOf(p).value.total] else [];
    assert MinAll(cap, own) == OwnCap(p, b, cap) by {
      if own != [] { assert own[1..] == []; }
    }
    MinAllConcat(cap, own, TotalsAll(p.children, b));
    CapIsMinAll(p.children, b, OwnCap(p, b, cap));
  }

  lemma {:induction false} CapIsMinAll(ps: seq<Plan>, b: BindData, cap: Option<nat>)
    ensures CapAfterAll(ps, b, cap) == MinAll(cap, TotalsAll(ps, b))
    decreases ps, 0
  {
    if ps != [] {
      CapIsMin(ps[0], b, cap);
      CapIsMinAll(ps[1..], b, CapAfter(ps[0], b, cap));
      MinAllConcat(cap, Totals(ps[0], b), TotalsAll(ps[1..], b));
    }
  }

  lemma {:induction false} NoTotalsOutside(p: Plan, b: BindData)
    requires b !in Binds(p)
    ensures Totals(p, b) == []
    decreases p, 1
  {
    if PushOf(p).Some? {
      FoundGetIsBelow(p.children[0]);
      ChildBinds(p.children, 0);
    }
    NoTotalsOutsideAll(p.children, b);
  }

  lemma {:induction false} NoTotalsOutsideAll(ps: seq<Plan>, b: BindData)
    requires b !in BindsAll(ps)
    ensures TotalsAll(ps, b) == []
    decreases ps, 0
  {
    if ps != [] {
      NoTotalsOutside(ps[0], b);
      NoTotalsOutsideAll(ps[1..], b);
    }
  }

  /** The projections between a LIMIT and the scan it governs push nothing onto that scan. */
  lemma {:induction false} ChainHasNoTotals(p: Plan)
    requires OwnBinds(p) && FindGet(p).Some?
    ensures Totals(p, FindGet(p).value) == []
    decreases p
  {
    var b := FindGet(p).value;
    if p.op.Projection? {
      ChainHasNoTotals(p.children[0]);
      assert p.children == [p.children[0]];
      assert TotalsAll(p.children, b) == Totals(p.children[0], b) + TotalsAll([], b);
    } else {
      NoTotalsOutsideAll(p.children, b);
    }
  }

  /** No two LIMITs write the same scan. */
  lemma {:induction false} OneGoverningLimit(p: Plan, b: BindData)
    requires OwnBinds(p)
    ensures |Totals(p, b)| <= 1
    decreases p, 1
  {
    if PushOf(p).Some? && PushOf(p).value.bind == b {
      ChainHasNoTotals(p.children[0]);
      assert p.children == [p.children[0]];
      assert TotalsAll(p.children, b) == Totals(p.children[0], b) + TotalsAll([], b);
    } else {
      OneGoverningLimitAll(p.children, b);
    }
  }

  lemma {:induction false} OneGoverningLimitAll(ps: seq<Plan>, b: BindData)
    requires OwnBindsAll(ps)
    ensures |TotalsAll(ps, b)| <= 1
    decreases ps, 0
  {
    if ps != [] {
      OneGoverningLimit(ps[0], b);
      OneGoverningLimitAll(ps[1..], b);
      if b in Binds(ps[0]) {
        NoTotalsOutsideAll(ps[1..], b);
      } else {
        NoTotalsOutside(ps[0], b);
      }
    }
  }

  lemma {:induction false} TotalsAreGoverning(p: Plan, b: BindData, total: nat)
    ensures total in Totals(p, b) <==> Governed(p, b, total)
    decreases p, 1
  {
    GovernedBelow(p, b, total);
    PushIsGoverning(p, b, total);
    TotalsAreGoverningAll(p.children, b, total);
  }

  lemma {:induction false} TotalsAreGoverningAll(ps: seq<Plan>, b: BindData, total: nat)
    ensures total in TotalsAll(ps, b) <==> GovernedAmong(ps, b, total)
    decreases ps, 0
  {
    if ps != [] {
      TotalsAreGoverning(ps[0], b, total);
      TotalsAreGoverningAll(ps[1..], b, total);
      GovernedAmongLater(ps, b, total);
    }
  }

  /** When the scans own their bind data, all LIMITs that govern a scan are one. */
  lemma {:induction false} GovernedOnce(p: Plan, b: BindData, total: nat, other: nat)
    requires OwnBinds(p) && Governed(p, b, total) && Governed(p, b, other)
    ensures total == other
  {
    OneGoverningLimit(p, b);
    TotalsAreGoverning(p, b, total);
    TotalsAreGoverning(p, b, other);
  }

  /**
   * The pass leaves each scan the minimum of its old cap and the total of the one LIMIT that governs it, if any,
   * and running the pass again changes nothing.
   */
  lemma {:induction false} PassTakesTheMinimum(p: Plan, b: BindData, cap: Option<nat>)
    requires OwnBinds(p)
    ensures CapAfter(p, b, cap) == if Totals(p, b) == [] then cap else MinCap(cap, Totals(p, b)[0])
    ensures CapAfter(p, b, CapAfter(p, b, cap)) == CapAfter(p, b, cap)
  {
    CapIsMin(p, b, cap);
    CapIsMin(p, b, CapAfter(p, b, cap));
    OneGoverningLimit(p, b);
    var ts := Totals(p, b);
    if ts != [] {
      assert ts == [ts[0]] && ts[1..] == [];
    }
  }

  // ---------------------------------------------------------------------------
  // The pass preserves what the plan denotes
  // ---------------------------------------------------------------------------

  /** The caps the pass leaves, from the caps it started with. */
  ghost predicate Optimized(p: Plan, caps: Caps, caps': Caps)
    requires Binds(p) <= caps.Keys
  {
    Binds(p) <= caps'.Keys && forall b :: b in Binds(p) ==> caps'[b] == CapAfter(p, b, caps[b])
  }

  lemma {:induction false} TakeTake<T>(rows: seq<T>, cap: Option<nat>, total: nat)
    ensures Capped(rows, MinCap(cap, total)) == Take(Capped(rows, cap), total)
  {
  }

  lemma {:induction false} ProjectTake<A, B>(rows: seq<A>, f: A -> B, n: nat)
    ensures Project(Take(rows, n), f) == Take(Project(rows, f), n)
  {
  }

  lemma {:induction false} WindowTake(rows: Rows, offset: nat, count: nat)
    ensures Window(Take(rows, count + offset), offset, count) == Window(rows, offset, count)
  {
  }

  /** Capping the scan below a chain of projections cuts the rows of the whole chain. */
  lemma {:induction false} ChainCuts(p: Plan, caps: Caps, caps': Caps, total: nat, w: World)
    requires FindGet(p).Some?
    requires CapOf(caps', FindGet(p).value) == MinCap(CapOf(caps, FindGet(p).value), total)
    ensures Denote(p, caps', w) == Take(Denote(p, caps, w), total)
    decreases p
  {
    if p.op.Projection? {
      var child := p.children[0];
      ChainCuts(child, caps, caps', total, w);
      assert DenoteAll(p.children, caps, w)[0] == Denote(child, caps, w);
      assert DenoteAll(p.children, caps', w)[0] == Denote(child, caps', w);
      ProjectTake(Denote(child, caps, w), r => w.engine.project(p.op.id, r), total);
      assert Denote(p, caps', w) == Project(Denote(child, caps', w), r => w.engine.project(p.op.id, r));
    } else {
      TakeTake(BaseRows(w, p.op), CapOf(caps, p.op.bind), total);
    }
  }

  /** The pass leaves the rows of every plan unchanged, whatever caps its scans already had. */
  lemma {:induction false} PassPreservesRows(p: Plan, caps: Caps, caps': Caps, w: World)
    requires OwnBinds(p) && Binds(p) <= caps.Keys && Optimized(p, caps, caps')
    ensures Denote(p, caps', w) == Denote(p, caps, w)
    decreases p, 1
  {
    if PushOf(p).Some? {
      PushedLimit(p, caps, caps', w);
    } else if IsFirebirdGet(p.op) {
      var b := p.op.bind;
      assert b in Binds(p);
      CapIsMin(p, b, caps[b]);
      ChainHasNoTotals(p);
    } else {
      PassPreservesAll(p.children, caps, caps', w);
    }
  }

  lemma {:induction false} PushedLimit(p: Plan, caps: Caps, caps': Caps, w: World)
    requires OwnBinds(p) && Binds(p) <= caps.Keys && Optimized(p, caps, caps') && PushOf(p).Some?
    ensures Denote(p, caps', w) == Denote(p, caps, w)
  {
    var child, push := p.children[0], PushOf(p).value;
    FoundGetIsBelow(child);
    ChildBinds(p.children, 0);
    assert push.bind in Binds(p);
    assert p.children == [child];
    PassTakesTheMinimum(p, push.bind, caps[push.bind]);
    assert Totals(p, push.bind)[0] == push.total;
    ChainCuts(child, caps, caps', push.total, w);
    assert DenoteAll(p.children, caps, w)[0] == Denote(child, caps, w);
    assert DenoteAll(p.children, caps', w)[0] == Denote(child, caps', w);
    WindowTake(Denote(child, caps, w), OffsetOf(p.op), p.op.limit.value);
  }

  lemma {:induction false} PassPreservesAll(ps: seq<Plan>, caps: Caps, caps': Caps, w: World)
    requires OwnBindsAll(ps) && BindsAll(ps) <= caps.Keys && BindsAll(ps) <= caps'.Keys
    requires forall b :: b in BindsAll(ps) ==> caps'[b] == CapAfterAll(ps, b, caps[b])
    ensures DenoteAll(ps, caps', w) == DenoteAll(ps, caps, w)
    decreases ps, 0
  {
    if ps != [] {
      forall b | b in Binds(ps[0])
        ensures caps'[b] == CapAfter(ps[0], b, caps[b])
      {
        OthersUntouchedAll(ps[1..], b, CapAfter(ps[0], b, caps[b]));
      }
      forall b | b in BindsAll(ps[1..])
        ensures caps'[b] == CapAfterAll(ps[1..], b, caps[b])
      {
        OthersUntouched(ps[0], b, caps[b]);
      }
      PassPreservesRows(ps[0], caps, caps', w);
      PassPreservesAll(ps[1..], caps, caps', w);
    }
  }

  // ---------------------------------------------------------------------------
  // Running the plan: its scans are answered by the server
  // ---------------------------------------------------------------------------

  /** Running a plan: each Firebird scan sends its text, and DuckDB's operators work on the answers. */
  ghost function Execute(p: Plan, caps: Caps, w: World): Option<Rows>
    decreases p, 1
  {
    if IsFirebirdGet(p.op) then
      var sql := ScanSql(ScanOf(p.op), CapOf(caps, p.op.bind));
      if sql.Err? then None else Fetched(Answer(w.db, sql.value, w.ord), |p.op.ids|)
    else
      var rows :- ExecuteAll(p.children, caps, w);
      if p.op.Projection? && |p.children| == 1 then Some(Project(rows[0], r => w.engine.project(p.op.id, r)))
      else if ConstantWindow(p.op) && |p.children| == 1 then Some(Window(rows[0], OffsetOf(p.op), p.op.limit.value))
      else Some(w.engine.apply(p.op, rows))
  }

  ghost function ExecuteAll(ps: seq<Plan>, caps: Caps, w: World): (r: Option<seq<Rows>>)
    ensures r.Some? ==> |r.value| == |ps|
    decreases ps, 0
  {
    if ps == [] then Some([])
    else
      var first :- Execute(ps[0], caps, w);
      var more :- ExecuteAll(ps[1..], caps, w);
      Some([first] + more)
  }

  /** Every scan of the plan is bound to a table of the database, with a filter set without empty ORs whose join is safe. */
  ghost predicate Grounded(p: Plan, w: World)
    decreases p, 1
  {
    && (IsFirebirdGet(p.op) ==> Bound(w.db, ScanOf(p.op)) && JoinIsSafe(p.op.filters) && NoEmptyOrs(p.op.filters))
    && GroundedAll(p.children, w)
  }

  ghost predicate GroundedAll(ps: seq<Plan>, w: World)
    decreases ps, 0
  {
    ps != [] ==> Grounded(ps[0], w) && GroundedAll(ps[1..], w)
  }

  lemma {:induction false} ExecutionIsMeaning(p: Plan, caps: Caps, w: World)
    requires Grounded(p, w) && OrdersIntegers(w.ord)
    ensures Execute(p, caps, w) == Some(Denote(p, caps, w))
    decreases p, 1
  {
    if IsFirebirdGet(p.op) {
      ScanIsExact(w.db, ScanOf(p.op), CapOf(caps, p.op.bind), w.ord);
    } else {
      ExecutionIsMeaningAll(p.children, caps, w);
    }
  }

  lemma {:induction false} ExecutionIsMeaningAll(ps: seq<Plan>, caps: Caps, w: World)
    requires GroundedAll(ps, w) && OrdersIntegers(w.ord)
    ensures ExecuteAll(ps, caps, w) == Some(DenoteAll(ps, caps, w))
    decreases ps, 0
  {
    if ps != [] {
      ExecutionIsMeaning(ps[0], caps, w);
      ExecutionIsMeaningAll(ps[1..], caps, w);
    }
  }

  /** Caps on other scans do not matter; no caps at all is the direct meaning. */
  lemma {:induction false} OnlyOwnCapsMatter(p: Plan, caps: Caps, caps': Caps, w: World)
    requires forall b :: b in Binds(p) ==> CapOf(caps, b) == CapOf(caps', b)
    ensures Denote(p, caps, w) == Denote(p, caps', w)
    decreases p, 1
  {
    OnlyOwnCapsMatterAll(p.children, caps, caps', w);
  }

  lemma {:induction false} OnlyOwnCapsMatterAll(ps: seq<Plan>, caps: Caps, caps': Caps, w: World)
    requires forall b :: b in BindsAll(ps) ==> CapOf(caps, b) == CapOf(caps', b)
    ensures DenoteAll(ps, caps, w) == DenoteAll(ps, caps', w)
    decreases ps, 0
  {
    if ps != [] {
      OnlyOwnCapsMatter(ps[0], caps, caps', w);
      OnlyOwnCapsMatterAll(ps[1..], caps, caps', w);
    }
  }

  /**
   * End to end: after the pass, running a plan, with every scan sent as text, lexed, parsed, filtered, cut by ROWS
   * and projected by the server, gives exactly the rows the plan means with no pushdown at all.
   */
  lemma {:induction false} PushdownIsTransparent(p: Plan, caps: Caps, caps': Caps, w: World)
    requires OwnBinds(p) && Grounded(p, w) && OrdersIntegers(w.ord)
    requires caps == map b | b in Binds(p) :: None
    requires Optimized(p, caps, caps')
    ensures Execute(p, caps', w) == Some(Denote(p, map[], w))
  {
    ExecutionIsMeaning(p, caps', w);
    PassPreservesRows(p, caps, caps', w);
    OnlyOwnCapsMatter(p, caps, map[], w);
  }

  /** The caps now recorded on some scans. */
  ghost function Recorded(scans: set<BindData>): Caps
    reads scans
  {
    map b | b in scans :: b.Cap()
  }

  lemma {:induction false} FreshCap(p: Plan, b: BindData, total: nat)
    requires OwnBinds(p) && Governed(p, b, total)
    ensures CapAfter(p, b, None) == Some(total)
  {
    forall other: nat | Governed(p, b, other)
      ensures other == total
    {
      GovernedOnce(p, b, total, other);
    }
    GoverningLimitIsRecorded(p, b, None, total);
  }

  /** The optimizer hook on a freshly bound plan. */
  method FirebirdLimitOptimize(p: Plan, ghost scans: set<BindData>, ghost w: World)
    requires scans == Binds(p) && forall b :: b in scans ==> b.Cap() == None
    requires OwnBinds(p) && Grounded(p, w) && OrdersIntegers(w.ord)
    modifies scans
    ensures Execute(p, Recorded(scans), w) == Some(Denote(p, map[], w))
    ensures forall b :: b in scans ==> b.Cap() == MinAll(None, Totals(p, b))
    ensures forall b, total: nat :: b in scans && Governed(p, b, total) ==> b.Cap() == Some(total)
    ensures forall b :: b in scans && b.Cap().Some? ==> Governed(p, b, b.Cap().value)
  {
    ghost var before: Caps := map b | b in Binds(p) :: None;
    FirebirdPushLimit(p, scans);
    forall b | b in scans
      ensures b.Cap() == MinAll(None, Totals(p, b))
    {
      CapIsMin(p, b, None);
    }
    forall b, total: nat | b in scans && Governed(p, b, total)
      ensures b.Cap() == Some(total)
    {
      FreshCap(p, b, total);
    }
    forall b | b in scans && b.Cap().Some?
      ensures Governed(p, b, b.Cap().value)
    {
      PassRecordsLeast(p, b, None);
    }
    PushdownIsTransparent(p, before, Recorded(scans), w);
  }
}
