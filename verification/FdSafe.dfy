/** When the program does not stop during propagation and search: evaluation is
    defined in every box the domains can narrow to. */
module FdSafe {
  import opened FdWords
  import opened FdExpr
  import opened FdMachine
  import opened FdProblem

  /** In this box the indexical g can be evaluated, its expression fits the two
      stacks, and its range does not reach beyond the universe. */
  ghost predicate SafeAt(p: Problem, g: int, box: Box) {
    && 0 <= g < |p.fs| && FitsO(p.fs[g].e) && OkO(p.fs[g].e, ArgsOf(p.fs[g], box))
    && Range1(p.fs[g], box) <= Universe()
  }

  ghost predicate AllSafeAt(p: Problem, box: Box) {
    forall g :: 0 <= g < |p.fs| ==> SafeAt(p, g, box)
  }

  /** Every indexical is safe in every box that this one can narrow to. */
  ghost predicate Safe(p: Problem, box: Box) {
    forall next :: Narrows(box, next) ==> AllSafeAt(p, next)
  }

  lemma SafeNow(p: Problem, box: Box, g: int)
    requires Safe(p, box) && 0 <= g < |p.fs|
    ensures SafeAt(p, g, box)
  {
    hide SafeAt;
    assert Narrows(box, box);
    assert AllSafeAt(p, box);
  }

  lemma SafeNarrows(p: Problem, box: Box, next: Box)
    requires Narrows(box, next)
    ensures Safe(p, box) ==> Safe(p, next)
  {
    hide Narrows, AllSafeAt;
    if Safe(p, box) {
      forall b | Narrows(next, b)
        ensures AllSafeAt(p, b)
      {
        NarrowsTwice(box, next, b);
      }
    }
  }

  // ------------------------------------------------ ranges that are always safe

  /** A range without arithmetic over the first n arguments. */
  predicate PlainR(r: Range, n: int) {
    match r
    case Dom(x) => x < n
    case Span(_, _) => false
    case By(_, _, _) => false
    case Compl(q) => PlainR(q, n)
    case Pair(_, p, q) => PlainR(p, n) && PlainR(q, n)
    case Check(p, q) => PlainR(p, n) && PlainR(q, n)
  }

  lemma {:induction false} PlainOk(r: Range, b: Args)
    requires PlainR(r, |b|)
    ensures OkR(r, b)
    decreases r
  {
    match r
    case Dom(_) =>
    case Compl(q) => PlainOk(q, b);
    case Pair(_, p, q) =>
      PlainOk(p, b);
      PlainOk(q, b);
    case Check(p, q) =>
      PlainOk(p, b);
      PlainOk(q, b);
  }

  /** Indexicals without arithmetic whose expressions fit the stacks are safe. */
  lemma PlainSafe(p: Problem, box: Box)
    requires forall g :: 0 <= g < |p.fs| ==> p.fs[g].e.Inner? && PlainR(p.fs[g].e.r, |p.fs[g].args|) && FitsO(p.fs[g].e)
    ensures Safe(p, box)
  {
    forall next, g | Narrows(box, next) && 0 <= g < |p.fs|
      ensures SafeAt(p, g, next)
    {
      var f := p.fs[g];
      PlainOk(f.e.r, ArgsOf(f, next));
      EvalWithin(f.e.r, ArgsOf(f, next));
    }
    hide SafeAt, Narrows;
  }
}
