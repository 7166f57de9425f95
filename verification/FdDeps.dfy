/** The compiler's dependency classes: through which of its aspects (minimum,
    maximum, whole domain, value) each argument enters a range, and hence which
    changes of a variable have to wake the indexical. */
module FdDeps {
  import opened FdWords
  import opened FdExpr
  import opened FdMono

  datatype Prop = Dummy | PMin | PMax | PMinMax | PInt | PDom

  function Join(old_: Prop, use: Prop): Prop {
    if old_ == Dummy then use
    else if old_ == use then use
    else if old_ == PMin && use == PMax then PMinMax
    else if old_ == PMax && use == PMin then PMinMax
    else if old_ == PDom || use == PDom then PDom
    else if old_ == PInt || use == PInt then PInt
    else PMinMax
  }

  type Info = seq<Prop>

  function Use(info: Info, x: nat, use: Prop): (r: Info)
    ensures |r| == |info|
  {
    if x < |info| then info[x := Join(info[x], use)] else info
  }

  function UsesT(t: Term, info: Info): (r: Info)
    ensures |r| == |info|
    decreases t
  {
    match t
    case Val(x) => Use(info, x, PInt)
    case MaxElem => info
    case Const(_) => info
    case Bin(_, a, b) => UsesT(a, UsesT(b, info))
    case MinVar(x) => Use(info, x, PMin)
    case MaxVar(x) => Use(info, x, PMax)
    case MinOf(r) => UsesR(r, info)
    case MaxOf(r) => UsesR(r, info)
  }

  function UsesR(r: Range, info: Info): (i: Info)
    ensures |i| == |info|
    decreases r
  {
    match r
    case Dom(x) => Use(info, x, PDom)
    case Span(lo, hi) => UsesT(lo, UsesT(hi, info))
    case By(_, q, t) => UsesR(q, UsesT(t, info))
    case Compl(q) => UsesR(q, info)
    case Pair(_, p, q) => UsesR(p, UsesR(q, info))
    case Check(p, q) => UsesR(q, UsesR(p, info))
  }

  function Props(e: Outer, n: nat): (r: Info)
    ensures |r| == n
  {
    var info := seq(n, _ => Dummy);
    match e
    case OuterSpan(lo, hi) => UsesT(lo, UsesT(hi, info))
    case Inner(r) => UsesR(r, info)
    case Element(_, _) => Use(info, 0, PDom)
  }

  // ------------------------------------------------ what a class observes

  /** p observes at least what q observes. */
  predicate Covers(p: Prop, q: Prop) {
    Join(q, p) == p
  }

  /** Two domains that an indexical using a variable through p cannot tell
      apart. A variable used as a number is not watched at all. */
  ghost predicate SameView(p: Prop, s: set<int>, t: set<int>) {
    match p
    case Dummy => true
    case PMin => VarMin(s) == VarMin(t)
    case PMax => VarMax(s) == VarMax(t)
    case PMinMax => VarMin(s) == VarMin(t) && VarMax(s) == VarMax(t)
    case PInt => s == t
    case PDom => s == t
  }

  lemma CoversView(p: Prop, q: Prop, s: set<int>, t: set<int>)
    requires Covers(p, q) && SameView(p, s, t)
    ensures SameView(q, s, t)
  {
  }

  ghost predicate InfoCovers(p: Info, q: Info) {
    |p| == |q| && forall x :: 0 <= x < |p| ==> Covers(p[x], q[x])
  }

  lemma CoversTrans(p: Prop, q: Prop, r: Prop)
    ensures Covers(p, q) && Covers(q, r) ==> Covers(p, r)
    ensures Covers(Join(p, q), p) && Covers(Join(p, q), q)
    ensures q != Dummy && Covers(r, p) && Covers(r, q) ==> Covers(r, Join(p, q))
  {
  }

  lemma InfoTrans(p: Info, q: Info, r: Info)
    requires InfoCovers(p, q) && InfoCovers(q, r)
    ensures InfoCovers(p, r)
  {
    forall x | 0 <= x < |p|
      ensures Covers(p[x], r[x])
    {
      CoversTrans(p[x], q[x], r[x]);
    }
  }

  lemma UseGrows(info: Info, x: nat, use: Prop)
    ensures InfoCovers(Use(info, x, use), info)
    ensures x < |info| ==> Covers(Use(info, x, use)[x], use)
  {
    forall y | 0 <= y < |info|
      ensures Covers(Use(info, x, use)[y], info[y])
    {
      CoversTrans(info[y], use, use);
    }
    if x < |info| {
      CoversTrans(info[x], use, use);
    }
  }

  /** Scanning an expression never forgets an aspect. */
  lemma {:induction false} UsesGrowT(t: Term, info: Info)
    ensures InfoCovers(UsesT(t, info), info)
    decreases t
  {
    match t
    case Val(x) => UseGrows(info, x, PInt);
    case MinVar(x) => UseGrows(info, x, PMin);
    case MaxVar(x) => UseGrows(info, x, PMax);
    case MaxElem => SelfCovers(info);
    case Const(_) => SelfCovers(info);
    case MinOf(r) => UsesGrowR(r, info);
    case MaxOf(r) => UsesGrowR(r, info);
    case Bin(_, a, b) =>
      UsesGrowT(b, info);
      UsesGrowT(a, UsesT(b, info));
      InfoTrans(UsesT(t, info), UsesT(b, info), info);
  }

  lemma SelfCovers(info: Info)
    ensures InfoCovers(info, info)
  {
  }

  lemma {:induction false} UsesGrowR(r: Range, info: Info)
    ensures InfoCovers(UsesR(r, info), info)
    decreases r
  {
    match r
    case Dom(x) => UseGrows(info, x, PDom);
    case Compl(q) => UsesGrowR(q, info);
    case Span(lo, hi) =>
      UsesGrowT(hi, info);
      UsesGrowT(lo, UsesT(hi, info));
      InfoTrans(UsesR(r, info), UsesT(hi, info), info);
    case By(_, q, t) =>
      UsesGrowT(t, info);
      UsesGrowR(q, UsesT(t, info));
      InfoTrans(UsesR(r, info), UsesT(t, info), info);
    case Pair(_, p, q) =>
      UsesGrowR(q, info);
      UsesGrowR(p, UsesR(q, info));
      InfoTrans(UsesR(r, info), UsesR(q, info), info);
    case Check(p, q) =>
      UsesGrowR(p, info);
      UsesGrowR(q, UsesR(p, info));
      InfoTrans(UsesR(r, info), UsesR(p, info), info);
  }

  // ------------------------------------------------ adequacy

  /** No argument changes in an aspect that `all` records. */
  ghost predicate SameViews(all: Info, b: Args, c: Args) {
    |all| == |b| == |c| && forall x :: 0 <= x < |b| ==> SameView(all[x], b[x], c[x])
  }

  lemma UsedView(x: nat, use: Prop, info: Info, all: Info, b: Args, c: Args)
    requires SameViews(all, b, c) && InfoCovers(all, Use(info, x, use))
    ensures SameView(use, DomAt(b, x), DomAt(c, x))
  {
    if x < |b| {
      UseGrows(info, x, use);
      CoversTrans(all[x], Use(info, x, use)[x], use);
      CoversView(all[x], use, b[x], c[x]);
    }
  }

  lemma SplitTT(p: Term, q: Term, info: Info, all: Info)
    requires InfoCovers(all, UsesT(p, UsesT(q, info)))
    ensures InfoCovers(all, UsesT(q, info))
  {
    UsesGrowT(p, UsesT(q, info));
    InfoTrans(all, UsesT(p, UsesT(q, info)), UsesT(q, info));
  }

  lemma SplitRT(p: Range, q: Term, info: Info, all: Info)
    requires InfoCovers(all, UsesR(p, UsesT(q, info)))
    ensures InfoCovers(all, UsesT(q, info))
  {
    UsesGrowR(p, UsesT(q, info));
    InfoTrans(all, UsesR(p, UsesT(q, info)), UsesT(q, info));
  }

  lemma SplitRR(p: Range, q: Range, info: Info, all: Info)
    requires InfoCovers(all, UsesR(p, UsesR(q, info)))
    ensures InfoCovers(all, UsesR(q, info))
  {
    UsesGrowR(p, UsesR(q, info));
    InfoTrans(all, UsesR(p, UsesR(q, info)), UsesR(q, info));
  }

  /** A term evaluates alike in two stores that agree on everything the scan of
      the term records. */
  lemma {:induction false} CongT(t: Term, info: Info, all: Info, b: Args, c: Args)
    requires SameViews(all, b, c) && InfoCovers(all, UsesT(t, info))
    ensures EvalT(t, b) == EvalT(t, c)
    decreases t
  {
    match t
    case Val(x) => UsedView(x, PInt, info, all, b, c);
    case MinVar(x) => UsedView(x, PMin, info, all, b, c);
    case MaxVar(x) => UsedView(x, PMax, info, all, b, c);
    case MaxElem =>
    case Const(_) =>
    case MinOf(r) => CongR(r, info, all, b, c);
    case MaxOf(r) => CongR(r, info, all, b, c);
    case Bin(_, p, q) =>
      SplitTT(p, q, info, all);
      CongT(q, info, all, b, c);
      CongT(p, UsesT(q, info), all, b, c);
  }

  lemma {:induction false} CongR(r: Range, info: Info, all: Info, b: Args, c: Args)
    requires SameViews(all, b, c) && InfoCovers(all, UsesR(r, info))
    ensures EvalR(r, b) == EvalR(r, c)
    decreases r
  {
    match r
    case Dom(x) => UsedView(x, PDom, info, all, b, c);
    case Span(lo, hi) =>
      SplitTT(lo, hi, info, all);
      CongT(hi, info, all, b, c);
      CongT(lo, UsesT(hi, info), all, b, c);
    case By(_, q, t) =>
      SplitRT(q, t, info, all);
      CongT(t, info, all, b, c);
      CongR(q, UsesT(t, info), all, b, c);
    case Compl(q) =>
      CongR(q, info, all, b, c);
    case Pair(_, p, q) =>
      SplitRR(p, q, info, all);
      CongR(q, info, all, b, c);
      CongR(p, UsesR(q, info), all, b, c);
    case Check(p, q) =>
      SplitRR(q, p, info, all);
      CongR(p, info, all, b, c);
      CongR(q, UsesR(p, info), all, b, c);
  }

  /** The classes are adequate: as long as no argument changes in an aspect its
      class records, the indexical allows the same values. */
  lemma ClassesAdequate(e: Outer, b: Args, c: Args)
    requires SameViews(Props(e, |b|), b, c)
    ensures EvalO(e, b) == EvalO(e, c)
  {
    var info := seq(|b|, _ => Dummy);
    var all := Props(e, |b|);
    SelfCovers(all);
    match e
    case OuterSpan(lo, hi) =>
      SplitTT(lo, hi, info, all);
      CongT(hi, info, all, b, c);
      CongT(lo, UsesT(hi, info), all, b, c);
    case Inner(r) =>
      CongR(r, info, all, b, c);
    case Element(_, _) => UsedView(0, PDom, info, all, b, c);
  }
}
