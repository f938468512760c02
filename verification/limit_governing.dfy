/** Which LIMIT governs which scan, by the shape of the plan alone, and the row caps that follow from it. */
module LimitGoverning {
  import opened LimitPushdown
  import opened Wrappers

  /** A path of child positions from the root of a plan. */
  predicate IsPath(p: Plan, path: seq<nat>)
    decreases path
  {
    path == [] || (path[0] < |p.children| && IsPath(p.children[path[0]], path[1..]))
  }

  function NodeAt(p: Plan, path: seq<nat>): Plan
    requires IsPath(p, path)
    decreases path
  {
    if path == [] then p else NodeAt(p.children[path[0]], path[1..])
  }

  /** k projections with one child each, over a scan of Firebird with bind data b. */
  predicate Chain(p: Plan, k: nat, b: BindData)
    decreases k
  {
    if k == 0 then p.op.Get? && p.op.function_ == "firebird_scan" && p.op.bind == b
    else p.op.Projection? && |p.children| == 1 && Chain(p.children[0], k - 1, b)
  }

  /** LIMIT count OFFSET offset, both constant, or without an offset. */
  predicate ConstantLimit(op: Operator, count: nat, offset: nat) {
    && op.Limit? && op.limit.ConstantValue? && op.limit.value == count
    && if op.offset.Unset? then offset == 0 else op.offset.ConstantValue? && op.offset.value == offset
  }

  /** A constant LIMIT over such a chain needs total rows of the scan, which fit 64 bits. */
  ghost predicate Governs(q: Plan, b: BindData, total: nat) {
    exists count: nat, offset: nat, k: nat ::
      ConstantLimit(q.op, count, offset) && |q.children| == 1 && Chain(q.children[0], k, b)
      && count + offset <= 0xFFFF_FFFF_FFFF_FFFF && total == count + offset
  }

  /** Some node of the plan governs the scan. */
  ghost predicate Governed(p: Plan, b: BindData, total: nat) {
    exists path: seq<nat> :: IsPath(p, path) && Governs(NodeAt(p, path), b, total)
  }

  ghost predicate GovernedAmong(ps: seq<Plan>, b: BindData, total: nat) {
    exists i :: 0 <= i < |ps| && Governed(ps[i], b, total)
  }

  lemma {:induction false} GovernedBelow(p: Plan, b: BindData, total: nat)
    ensures Governed(p, b, total) <==> Governs(p, b, total) || GovernedAmong(p.children, b, total)
  {
    if Governed(p, b, total) && !Governs(p, b, total) {
      var path: seq<nat> :| IsPath(p, path) && Governs(NodeAt(p, path), b, total);
      assert NodeAt(p.children[path[0]], path[1..]) == NodeAt(p, path);
      assert Governed(p.children[path[0]], b, total);
    }
    if Governs(p, b, total) {
      assert IsPath(p, []) && NodeAt(p, []) == p;
    }
    if i :| 0 <= i < |p.children| && Governed(p.children[i], b, total) {
      var path: seq<nat> :| IsPath(p.children[i], path) && Governs(NodeAt(p.children[i], path), b, total);
      var longer: seq<nat> := [i] + path;
      assert longer[0] == i && longer[1..] == path;
      assert IsPath(p, longer) && NodeAt(p, longer) == NodeAt(p.children[i], path);
    }
  }

  lemma {:induction false} ChainIsFound(p: Plan, k: nat, b: BindData)
    requires Chain(p, k, b)
    ensures FindGet(p) == Some(b)
    decreases k
  {
    if k > 0 {
      ChainIsFound(p.children[0], k - 1, b);
    }
  }

  lemma {:induction false} FoundIsChain(p: Plan) returns (k: nat)
    requires FindGet(p).Some?
    ensures Chain(p, k, FindGet(p).value)
    decreases p
  {
    if p.op.Projection? {
      k := FoundIsChain(p.children[0]);
      k := k + 1;
    } else {
      k := 0;
    }
  }

  lemma {:induction false} PushIsGoverning(p: Plan, b: BindData, total: nat)
    ensures Governs(p, b, total) <==> PushOf(p).Some? && PushOf(p).value.bind == b && PushOf(p).value.total == total
  {
    if Governs(p, b, total) {
      var count: nat, offset: nat, k: nat :|
        ConstantLimit(p.op, count, offset) && |p.children| == 1 && Chain(p.children[0], k, b)
        && count + offset <= 0xFFFF_FFFF_FFFF_FFFF && total == count + offset;
      ChainIsFound(p.children[0], k, b);
    }
    if PushOf(p).Some? && PushOf(p).value.bind == b && PushOf(p).value.total == total {
      var k := FoundIsChain(p.children[0]);
      assert ConstantLimit(p.op, p.op.limit.value, OffsetOf(p.op));
    }
  }

  // ---------------------------------------------------------------------------
  // The caps the pass leaves
  // ---------------------------------------------------------------------------

  /** A cap that is the least of an old one and of all totals that govern the scan in a plan. */
  ghost predicate LeastCap(p: Plan, b: BindData, before: Option<nat>, cap: Option<nat>) {
    && (before.Some? ==> cap.Some? && cap.value <= before.value)
    && (forall total: nat :: Governed(p, b, total) ==> cap.Some? && cap.value <= total)
    && (cap == before || (cap.Some? && Governed(p, b, cap.value)))
  }

  ghost predicate LeastCapAmong(ps: seq<Plan>, b: BindData, before: Option<nat>, cap: Option<nat>) {
    && (before.Some? ==> cap.Some? && cap.value <= before.value)
    && (forall total: nat :: GovernedAmong(ps, b, total) ==> cap.Some? && cap.value <= total)
    && (cap == before || (cap.Some? && GovernedAmong(ps, b, cap.value)))
  }

  lemma {:induction false} GovernedAmongLater(ps: seq<Plan>, b: BindData, total: nat)
    requires ps != []
    ensures GovernedAmong(ps, b, total) <==> Governed(ps[0], b, total) || GovernedAmong(ps[1..], b, total)
  {
    assert forall i :: 1 <= i < |ps| ==> ps[i] == ps[1..][i - 1];
    if i :| 0 <= i < |ps[1..]| && Governed(ps[1..][i], b, total) {
      assert Governed(ps[i + 1], b, total);
    }
  }

  lemma {:induction false} CapIsLeast(p: Plan, b: BindData, cap: Option<nat>)
    ensures LeastCap(p, b, cap, CapAfter(p, b, cap))
    decreases p, 1
  {
    CapIsLeastAll(p.children, b, OwnCap(p, b, cap));
    forall total: nat
      ensures Governed(p, b, total) <==> Governs(p, b, total) || GovernedAmong(p.children, b, total)
      ensures Governs(p, b, total) <==> PushOf(p).Some? && PushOf(p).value.bind == b && PushOf(p).value.total == total
    {
      GovernedBelow(p, b, total);
      PushIsGoverning(p, b, total);
    }
  }

  lemma {:induction false} CapIsLeastAll(ps: seq<Plan>, b: BindData, cap: Option<nat>)
    ensures LeastCapAmong(ps, b, cap, CapAfterAll(ps, b, cap))
    decreases ps, 0
  {
    if ps != [] {
      CapIsLeast(ps[0], b, cap);
      CapIsLeastAll(ps[1..], b, CapAfter(ps[0], b, cap));
      forall total: nat
        ensures GovernedAmong(ps, b, total) <==> Governed(ps[0], b, total) || GovernedAmong(ps[1..], b, total)
      {
        GovernedAmongLater(ps, b, total);
      }
    }
  }

  /**
   * What the pass records, by the shape of the plan: at most the old cap, at most what any constant LIMIT over projections
   * over the scan needs, and never anything else. So a scan under no such LIMIT keeps its cap.
   */
  lemma {:induction false} PassRecordsLeast(p: Plan, b: BindData, cap: Option<nat>)
    ensures cap.Some? ==> CapAfter(p, b, cap).Some? && CapAfter(p, b, cap).value <= cap.value
    ensures forall total: nat :: Governed(p, b, total) ==> CapAfter(p, b, cap).Some? && CapAfter(p, b, cap).value <= total
    ensures CapAfter(p, b, cap) == cap || (CapAfter(p, b, cap).Some? && Governed(p, b, CapAfter(p, b, cap).value))
  {
    CapIsLeast(p, b, cap);
  }

  /** With one governing LIMIT the cap is the minimum of the old one and count plus offset; with none it is the old one. */
  lemma {:induction false} GoverningLimitIsRecorded(p: Plan, b: BindData, cap: Option<nat>, total: nat)
    requires Governed(p, b, total) && forall other: nat :: Governed(p, b, other) ==> other == total
    ensures CapAfter(p, b, cap) == if cap.Some? && cap.value < total then cap else Some(total)
  {
    PassRecordsLeast(p, b, cap);
  }
}
