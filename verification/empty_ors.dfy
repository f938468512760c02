/**
 * What the emitted text means when a filter holds an OR without branches: such an OR accepts nothing, but it is skipped
 * like an optional filter.
 */
module EmptyOrs {
  import opened SqlValues
  import opened TableFilters

  /** The two-valued meaning of the text: the filter's own, with everything that erases read as TRUE. */
  ghost predicate Means(f: Filter, v: Value, ord: Order) {
    Erases(f) ||
    match f
    case ConjunctionAnd(children) => forall child :: child in children ==> Means(child, v, ord)
    case ConjunctionOr(children) => exists child :: child in children && Means(child, v, ord)
    case _ => Accepts(f, v, ord)
  }

  /**
   * A value that gets past an empty OR: the skipped filter holding it stands alone, or all terms of each AND around it
   * let the value through and no branch of any OR around it accepts the value.
   */
  ghost predicate Leaks(f: Filter, v: Value, ord: Order) {
    if Erases(f) then !NonEmptyOrs(f)
    else
      match f
      case ConjunctionAnd(children) =>
        (exists child :: child in children && Leaks(child, v, ord)) && forall child :: child in children ==> Means(child, v, ord)
      case ConjunctionOr(children) =>
        (exists child :: child in children && Leaks(child, v, ord)) && forall child :: child in children ==> !Accepts(child, v, ord)
      case _ => false
  }

  ghost predicate LeaksDiffer(f: Filter, v: Value, ord: Order) {
    && (Accepts(f, v, ord) ==> Means(f, v, ord))
    && (Leaks(f, v, ord) <==> Means(f, v, ord) && !Accepts(f, v, ord))
  }

  lemma {:induction false} AndDiffers(children: seq<Filter>, v: Value, ord: Order)
    requires !Erases(ConjunctionAnd(children)) && forall child :: child in children ==> LeaksDiffer(child, v, ord)
    ensures LeaksDiffer(ConjunctionAnd(children), v, ord)
  {
    if child :| child in children && !Accepts(child, v, ord) {
      assert LeaksDiffer(child, v, ord);
    }
  }

  lemma {:induction false} OrDiffers(children: seq<Filter>, v: Value, ord: Order)
    requires !Erases(ConjunctionOr(children)) && forall child :: child in children ==> LeaksDiffer(child, v, ord)
    ensures LeaksDiffer(ConjunctionOr(children), v, ord)
  {
    if child :| child in children && Means(child, v, ord) {
      assert LeaksDiffer(child, v, ord);
    }
  }

  /** The text never means less than the filter, and more exactly on the values that leak. */
  lemma {:induction false} LeaksAreTheDifference(f: Filter, v: Value, ord: Order)
    ensures Accepts(f, v, ord) ==> Means(f, v, ord)
    ensures Leaks(f, v, ord) <==> Means(f, v, ord) && !Accepts(f, v, ord)
    decreases f, 1
  {
    if Erases(f) {
      SkippedMeansTrue(f, v, ord);
    } else {
      match f {
        case ConjunctionAnd(children) =>
          AllDiffer(children, v, ord);
          AndDiffers(children, v, ord);
        case ConjunctionOr(children) =>
          AllDiffer(children, v, ord);
          OrDiffers(children, v, ord);
        case _ =>
      }
    }
  }

  lemma {:induction false} AllDiffer(children: seq<Filter>, v: Value, ord: Order)
    ensures forall child :: child in children ==> LeaksDiffer(child, v, ord)
    decreases children, 0
  {
    forall child | child in children
      ensures LeaksDiffer(child, v, ord)
    {
      LeaksAreTheDifference(child, v, ord);
    }
  }

  lemma {:induction false} NoEmptyOrNoLeak(f: Filter, v: Value, ord: Order)
    requires NonEmptyOrs(f)
    ensures !Leaks(f, v, ord)
    ensures Means(f, v, ord) <==> Accepts(f, v, ord)
  {
    LeaksAreTheDifference(f, v, ord);
    if f.ConjunctionAnd? || f.ConjunctionOr? {
      forall child | child in f.children
        ensures !Leaks(child, v, ord)
      {
        NoEmptyOrNoLeak(child, v, ord);
      }
    }
  }

  // ---------------------------------------------------------------------------
  // When an empty OR shows
  // ---------------------------------------------------------------------------

  ghost predicate OthersMean(children: seq<Filter>, i: nat, v: Value, ord: Order) {
    forall j :: 0 <= j < |children| && j != i ==> Means(children[j], v, ord)
  }

  ghost predicate NoOtherMeans(children: seq<Filter>, i: nat, v: Value, ord: Order) {
    forall j :: 0 <= j < |children| && j != i ==> !Means(children[j], v, ord)
  }

  /**
   * No part of the filter is masked by the parts around it: for whatever is skipped, some value of the given kind gets
   * through all other terms of the ANDs around it and through no other branch of the ORs around it.
   */
  ghost predicate Irredundant(f: Filter, kind: Value -> bool, ord: Order) {
    if Erases(f) then exists v :: kind(v)
    else
      match f
      case ConjunctionAnd(children) =>
        forall i :: 0 <= i < |children| ==> Irredundant(children[i], v => kind(v) && OthersMean(children, i, v, ord), ord)
      case ConjunctionOr(children) =>
        forall i :: 0 <= i < |children| ==> Irredundant(children[i], v => kind(v) && NoOtherMeans(children, i, v, ord), ord)
      case _ => true
  }

  /** In a filter without masked parts an empty OR anywhere lets some value leak. */
  lemma {:induction false} UnmaskedLeak(f: Filter, kind: Value -> bool, ord: Order) returns (v: Value)
    requires Irredundant(f, kind, ord) && !NonEmptyOrs(f)
    ensures kind(v) && Leaks(f, v, ord)
  {
    if Erases(f) {
      v :| kind(v);
    } else {
      var children := f.children;
      var i :| 0 <= i < |children| && !NonEmptyOrs(children[i]);
      if f.ConjunctionAnd? {
        v := UnmaskedLeak(children[i], v => kind(v) && OthersMean(children, i, v, ord), ord);
      } else {
        v := UnmaskedLeak(children[i], v => kind(v) && NoOtherMeans(children, i, v, ord), ord);
      }
      AllDiffer(children, v, ord);
      assert children[i] in children && LeaksDiffer(children[i], v, ord);
    }
  }

  lemma {:induction false} MeansBeside(dropped: Filter, g: Filter, v: Value, ord: Order)
    requires Erases(dropped)
    ensures Means(ConjunctionAnd([dropped, g]), v, ord) <==> Means(g, v, ord)
    ensures Accepts(ConjunctionAnd([dropped, g]), v, ord) <==> Accepts(dropped, v, ord) && Accepts(g, v, ord)
  {
    var children := [dropped, g];
    assert children[0] == dropped && children[1] == g;
    assert dropped in children && g in children;
  }

  lemma {:induction false} OrOfTwo(a: Filter, b: Filter, v: Value, ord: Order)
    ensures Means(ConjunctionOr([a, b]), v, ord) <==> Means(a, v, ord) || Means(b, v, ord)
    ensures Accepts(ConjunctionOr([a, b]), v, ord) <==> Accepts(a, v, ord) || Accepts(b, v, ord)
  {
    var branches := [a, b];
    assert branches[0] == a && branches[1] == b && forall child :: child in branches ==> child == a || child == b;
  }

  /** A masked empty OR is harmless: beside g in an AND, next to a branch g. */
  lemma {:induction false} MaskedIsHarmless(g: Filter, v: Value, ord: Order)
    requires NonEmptyOrs(g) && !Erases(g)
    ensures !Leaks(ConjunctionOr([ConjunctionAnd([ConjunctionOr([]), g]), g]), v, ord)
  {
    var both := ConjunctionAnd([ConjunctionOr([]), g]);
    MeansBeside(ConjunctionOr([]), g, v, ord);
    OrOfTwo(both, g, v, ord);
    NoEmptyOrNoLeak(g, v, ord);
    LeaksAreTheDifference(ConjunctionOr([both, g]), v, ord);
  }
}
