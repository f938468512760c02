/** The optimizer pass that records a LIMIT's row cap on the scan below it, and what it leaves unchanged. */
module LimitPushdown {
  import opened WhereClause
  import opened Wrappers

  const MAX_IDX: nat := 0xFFFF_FFFF_FFFF_FFFF

  /** DuckDB's unsigned 64-bit index. */
  type Idx = n: nat | n <= MAX_IDX

  datatype LimitNode = Unset | ConstantValue(value: Idx) | Computed(id: nat)

  /** The bind data of a Firebird scan; the pass updates its row cap in place. */
  class BindData {
    const table: string
    const names: seq<string>
    var hasLimit: bool
    var limitRows: Idx

    constructor (table: string, names: seq<string>)
      ensures this.table == table && this.names == names && Cap() == None
    {
      this.table := table;
      this.names := names;
      hasLimit := false;
      limitRows := 0;
    }

    function Cap(): Option<nat>
      reads this
    {
      if hasLimit then Some(limitRows) else None
    }
  }

  datatype Operator =
    | Limit(limit: LimitNode, offset: LimitNode)
    | Projection(id: nat)
    | Get(function_: string, bind: BindData?, ids: seq<nat>, filters: seq<FilterEntry>)
    | OtherOperator(kind: nat)

  datatype Plan = Plan(op: Operator, children: seq<Plan>)

  predicate IsFirebirdGet(op: Operator) {
    op.Get? && op.function_ == "firebird_scan" && op.bind != null
  }

  // ---------------------------------------------------------------------------
  // What one node pushes, and what the whole pass leaves on a scan
  // ---------------------------------------------------------------------------

  /** The scan below a chain of one-child projections. */
  function FindGet(p: Plan): Option<BindData> {
    if p.op.Projection? then
      if |p.children| != 1 then None else FindGet(p.children[0])
    else if IsFirebirdGet(p.op) then Some(p.op.bind)
    else None
  }

  predicate ConstantWindow(op: Operator) {
    op.Limit? && op.limit.ConstantValue? && (op.offset.Unset? || op.offset.ConstantValue?)
  }

  function OffsetOf(op: Operator): nat
    requires ConstantWindow(op)
  {
    if op.offset.ConstantValue? then op.offset.value else 0
  }

  datatype Push = Push(bind: BindData, total: Idx)

  /** The scan a LIMIT governs and the rows it needs: count plus offset, unless that overflows. */
  function PushOf(p: Plan): Option<Push> {
    if ConstantWindow(p.op) && |p.children| == 1 && p.op.limit.value + OffsetOf(p.op) <= MAX_IDX then
      var get :- FindGet(p.children[0]);
      Some(Push(get, p.op.limit.value + OffsetOf(p.op)))
    else None
  }

  function MinCap(cap: Option<nat>, total: nat): Option<nat> {
    if cap.None? || total < cap.value then Some(total) else cap
  }

  function OwnCap(p: Plan, b: BindData, cap: Option<nat>): Option<nat> {
    var push := PushOf(p);
    if push.Some? && push.value.bind == b then MinCap(cap, push.value.total) else cap
  }

  function CapAfter(p: Plan, b: BindData, cap: Option<nat>): Option<nat>
    decreases p, 1
  {
    CapAfterAll(p.children, b, OwnCap(p, b, cap))
  }

  function CapAfterAll(ps: seq<Plan>, b: BindData, cap: Option<nat>): Option<nat>
    decreases ps, 0
  {
    if ps == [] then cap else CapAfterAll(ps[1..], b, CapAfter(ps[0], b, cap))
  }

  /** The scans of a plan. */
  function Binds(p: Plan): set<BindData>
    decreases p, 1
  {
    (if IsFirebirdGet(p.op) then {p.op.bind} else {}) + BindsAll(p.children)
  }

  function BindsAll(ps: seq<Plan>): set<BindData>
    decreases ps, 0
  {
    if ps == [] then {} else Binds(ps[0]) + BindsAll(ps[1..])
  }

  // ---------------------------------------------------------------------------
  // The pass
  // ---------------------------------------------------------------------------

  method FindFirebirdGet(p: Plan) returns (get: Option<BindData>)
    ensures get == FindGet(p)
  {
    var current := p;
    while true
      invariant FindGet(current) == FindGet(p)
      decreases current
    {
      match current.op {
        case Projection(_) =>
          if |current.children| != 1 {
            return None;
          }
          current := current.children[0];
        case Get(name, bind, _, _) =>
          if name == "firebird_scan" && bind != null {
            return Some(bind);
          }
          return None;
        case _ =>
          return None;
      }
    }
  }

  method FirebirdPushLimit(p: Plan, ghost scans: set<BindData>)
    requires Binds(p) <= scans
    modifies scans
    ensures forall b :: b in scans ==> b.Cap() == CapAfter(p, b, old(b.Cap()))
    decreases p
  {
    if p.op.Limit? && |p.children| == 1 {
      var offsetOk := p.op.offset.Unset? || p.op.offset.ConstantValue?;
      if p.op.limit.ConstantValue? && offsetOk {
        var count := p.op.limit.value;
        var offset := if p.op.offset.ConstantValue? then p.op.offset.value else 0;
        if offset <= MAX_IDX - count {
          var get := FindFirebirdGet(p.children[0]);
          if get.Some? {
            FoundGetIsBelow(p.children[0]);
            var bind := get.value;
            assert p.children == [p.children[0]];
            assert bind in BindsAll(p.children);
            var total: Idx := count + offset;
            if !bind.hasLimit || total < bind.limitRows {
              bind.hasLimit := true;
              bind.limitRows := total;
            }
          }
        }
      }
    }
    assert forall b :: b in scans ==> b.Cap() == OwnCap(p, b, old(b.Cap()));
    assert p.children[0..] == p.children;
    for i := 0 to |p.children|
      invariant forall b :: b in scans ==> CapAfterAll(p.children[i..], b, b.Cap()) == CapAfter(p, b, old(b.Cap()))
    {
      assert p.children[i..][0] == p.children[i] && p.children[i..][1..] == p.children[i + 1..];
      ChildBinds(p.children, i);
      FirebirdPushLimit(p.children[i], scans);
    }
  }

  lemma {:induction false} FoundGetIsBelow(p: Plan)
    requires FindGet(p).Some?
    ensures FindGet(p).value in Binds(p)
    decreases p
  {
    if p.op.Projection? {
      FoundGetIsBelow(p.children[0]);
      assert p.children == [p.children[0]];
      assert BindsAll(p.children) == Binds(p.children[0]) + BindsAll([]);
    }
  }

  lemma {:induction false} ChildBinds(ps: seq<Plan>, i: nat)
    requires i < |ps|
    ensures Binds(ps[i]) <= BindsAll(ps)
  {
    if i > 0 {
      ChildBinds(ps[1..], i - 1);
    }
  }

  lemma {:induction false} OthersUntouched(p: Plan, b: BindData, cap: Option<nat>)
    requires b !in Binds(p)
    ensures CapAfter(p, b, cap) == cap
    decreases p, 1
  {
    if PushOf(p).Some? {
      FoundGetIsBelow(p.children[0]);
      ChildBinds(p.children, 0);
    }
    OthersUntouchedAll(p.children, b, cap);
  }

  lemma {:induction false} OthersUntouchedAll(ps: seq<Plan>, b: BindData, cap: Option<nat>)
    requires b !in BindsAll(ps)
    ensures CapAfterAll(ps, b, cap) == cap
    decreases ps, 0
  {
    if ps != [] {
      OthersUntouched(ps[0], b, cap);
      OthersUntouchedAll(ps[1..], b, cap);
    }
  }
}
