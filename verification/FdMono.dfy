/** The compiler's monotonicity analysis: which variables have to be determined
    before a range can only shrink (M), or only grow (AM), as domains shrink. */
module FdMono {
  import opened FdWords
  import opened FdExpr

  function Merge(a: seq<nat>, b: seq<nat>): (c: seq<nat>)
    ensures forall x :: x in c <==> x in a || x in b
  {
    if a == [] then b
    else if a[0] in b then Merge(a[1..], b)
    else [a[0]] + Merge(a[1..], b)
  }

  /** (S, G): S has to be determined for the term not to increase, G for it
      not to decrease. */
  function MonTerm(t: Term): (seq<nat>, seq<nat>) {
    match t
    case Val(x) => ([x], [x])
    case MaxElem => ([], [])
    case Const(_) => ([], [])
    case Bin(op, a, b) =>
      if op == Add || op == Mul then MonBoth(MonTerm(a), MonTerm(b))
      else if op == Mod then MonMod(MonTerm(a), MonTerm(b))
      else MonCross(MonTerm(a), MonTerm(b))
    case MinVar(x) => ([x], [])
    case MaxVar(x) => ([], [x])
    case MinOf(r) => var (m, am) := MonRange(r); (am, m)
    case MaxOf(r) => MonRange(r)
  }

  function MonBoth(p: (seq<nat>, seq<nat>), q: (seq<nat>, seq<nat>)): (seq<nat>, seq<nat>) {
    (Merge(p.0, q.0), Merge(p.1, q.1))
  }

  function MonCross(p: (seq<nat>, seq<nat>), q: (seq<nat>, seq<nat>)): (seq<nat>, seq<nat>) {
    (Merge(p.0, q.1), Merge(p.1, q.0))
  }

  function MonMod(p: (seq<nat>, seq<nat>), q: (seq<nat>, seq<nat>)): (seq<nat>, seq<nat>) {
    var c := Merge(q.0, q.1);
    (Merge(p.0, c), Merge(p.1, c))
  }

  /** (M, AM) of a range. */
  function MonRange(r: Range): (seq<nat>, seq<nat>) {
    match r
    case Dom(x) => ([], [x])
    case Span(lo, hi) => MonSpan(MonTerm(lo), MonTerm(hi))
    case By(_, q, _) => MonRange(q)
    case Compl(q) => var (m, am) := MonRange(q); (am, m)
    case Pair(_, p, q) => MonBoth(MonRange(p), MonRange(q))
    case Check(p, q) => MonBoth(MonRange(p), MonRange(q))
  }

  function MonSpan(lo: (seq<nat>, seq<nat>), hi: (seq<nat>, seq<nat>)): (seq<nat>, seq<nat>) {
    (Merge(lo.1, hi.0), Merge(lo.0, hi.1))
  }

  function MonOuter(e: Outer): (seq<nat>, seq<nat>) {
    match e
    case OuterSpan(lo, hi) => MonSpan(MonTerm(lo), MonTerm(hi))
    case Inner(r) => MonRange(r)
    case Element(_, _) => ([], [0])
  }

  // ------------------------------------------------ shrinking stores

  /** Both stores hold non-empty domains, and c is within b. */
  ghost predicate Shrunk(b: Args, c: Args) {
    |b| == |c| && forall x :: 0 <= x < |b| ==> c[x] != {} && c[x] <= b[x] <= Universe()
  }

  ghost predicate Determined(xs: seq<nat>, b: Args) {
    forall x :: x in xs && x < |b| ==> Single(b[x])
  }

  /** Variables used as numbers are numbers. */
  ghost predicate ValsT(t: Term, b: Args)
  {
    match t
    case Val(x) => Single(DomAt(b, x))
    case Bin(_, p, q) => ValsT(p, b) && ValsT(q, b)
    case MinOf(r) => ValsR(r, b)
    case MaxOf(r) => ValsR(r, b)
    case MaxElem => true
    case Const(_) => true
    case MinVar(_) => true
    case MaxVar(_) => true
  }

  ghost predicate ValsR(r: Range, b: Args)
  {
    match r
    case Dom(_) => true
    case Span(lo, hi) => ValsT(lo, b) && ValsT(hi, b)
    case By(_, q, t) => ValsR(q, b) && ValsT(t, b)
    case Compl(q) => ValsR(q, b)
    case Pair(_, p, q) => ValsR(p, b) && ValsR(q, b)
    case Check(p, q) => ValsR(p, b) && ValsR(q, b)
  }

  ghost predicate ValsO(e: Outer, b: Args)
  {
    match e
    case OuterSpan(lo, hi) => ValsT(lo, b) && ValsT(hi, b)
    case Inner(r) => ValsR(r, b)
    case Element(_, _) => true
  }

  // ------------------------------------------------ where the analysis is right

  /** The term keeps its value however the domains shrink. */
  ghost predicate Steady(t: Term, b: Args) {
    forall c :: Shrunk(b, c) ==> EvalT(t, c) == EvalT(t, b)
  }

  /** The term stays at least k however the domains shrink. */
  ghost predicate Above(t: Term, b: Args, k: int) {
    forall c :: Shrunk(b, c) ==> EvalT(t, c) >= k
  }

  /** The analysis treats factors as non-negative, divisors as constant or
      positive, and the dividend of `mod` and the offset of a set as constant. */
  ghost predicate SignsOp(op: BinOp, p: Term, q: Term, b: Args) {
    match op
    case Add => true
    case Sub => true
    case Mul => FactorsSigned(p, q, b)
    case DivD => QuotientSigned(p, q, b)
    case DivU => QuotientSigned(p, q, b)
    case Mod => Steady(p, b)
  }

  ghost predicate FactorsSigned(p: Term, q: Term, b: Args) {
    || (Above(p, b, 0) && Above(q, b, 0)) || (Steady(p, b) && Steady(q, b))
    || (Above(p, b, 0) && Steady(p, b)) || (Above(q, b, 0) && Steady(q, b))
  }

  ghost predicate QuotientSigned(p: Term, q: Term, b: Args) {
    (Steady(q, b) && (Above(q, b, 0) || Steady(p, b))) || (Above(p, b, 0) && Above(q, b, 1))
  }

  ghost predicate SignsT(t: Term, b: Args) {
    match t
    case Bin(op, p, q) => SignsT(p, b) && SignsT(q, b) && SignsOp(op, p, q, b)
    case MinOf(r) => SignsR(r, b)
    case MaxOf(r) => SignsR(r, b)
    case Val(_) => true
    case MaxElem => true
    case Const(_) => true
    case MinVar(_) => true
    case MaxVar(_) => true
  }

  ghost predicate SignsR(r: Range, b: Args) {
    match r
    case Dom(_) => true
    case Span(lo, hi) => SignsT(lo, b) && SignsT(hi, b)
    case By(_, q, t) => SignsR(q, b) && Steady(t, b)
    case Compl(q) => SignsR(q, b)
    case Pair(_, p, q) => SignsR(p, b) && SignsR(q, b)
    case Check(p, q) => SignsR(p, b) && SignsR(q, b)
  }

  ghost predicate SignsO(e: Outer, b: Args) {
    match e
    case OuterSpan(lo, hi) => SignsT(lo, b) && SignsT(hi, b)
    case Inner(r) => SignsR(r, b)
    case Element(_, _) => true
  }

  lemma ShrunkTwice(a: Args, b: Args, c: Args)
    requires Shrunk(b, c) && |a| == |b|
    requires forall x :: 0 <= x < |a| ==> b[x] <= a[x] <= Universe()
    ensures Shrunk(a, b) && Shrunk(a, c)
  {
    forall x | 0 <= x < |a|
      ensures b[x] != {} && c[x] != {} && c[x] <= a[x] && b[x] <= a[x]
    {
      assert c[x] <= b[x] && c[x] != {};
    }
  }

  ghost predicate StoreBelow(b: Args, a: Args) {
    |a| == |b| && forall x :: 0 <= x < |a| ==> b[x] <= a[x] <= Universe()
  }

  lemma SteadyBelow(t: Term, a: Args, b: Args)
    requires StoreBelow(b, a)
    ensures Steady(t, a) ==> Steady(t, b)
  {
    hide EvalT;
    forall c | Shrunk(b, c) && Steady(t, a)
      ensures EvalT(t, c) == EvalT(t, b)
    {
      ShrunkTwice(a, b, c);
    }
  }

  lemma AboveBelow(t: Term, a: Args, b: Args, k: int)
    requires StoreBelow(b, a)
    ensures Above(t, a, k) ==> Above(t, b, k)
  {
    hide EvalT;
    forall c | Shrunk(b, c) && Above(t, a, k)
      ensures EvalT(t, c) >= k
    {
      ShrunkTwice(a, b, c);
    }
  }

  /** The signs stay right as domains shrink. */
  lemma {:induction false} SignsBelowT(t: Term, a: Args, b: Args)
    requires SignsT(t, a) && StoreBelow(b, a)
    ensures SignsT(t, b)
    decreases t
  {
    hide StoreBelow, Steady, Above;
    match t
    case Bin(op, p, q) =>
      SignsBelowT(p, a, b);
      SignsBelowT(q, a, b);
      SteadyBelow(p, a, b);
      SteadyBelow(q, a, b);
      AboveBelow(p, a, b, 0);
      AboveBelow(q, a, b, 0);
      AboveBelow(q, a, b, 1);
    case MinOf(r) => SignsBelowR(r, a, b);
    case MaxOf(r) => SignsBelowR(r, a, b);
    case Val(_) =>
    case MaxElem =>
    case Const(_) =>
    case MinVar(_) =>
    case MaxVar(_) =>
  }

  lemma {:induction false} SignsBelowR(r: Range, a: Args, b: Args)
    requires SignsR(r, a) && StoreBelow(b, a)
    ensures SignsR(r, b)
    decreases r
  {
    hide StoreBelow, Steady, Above;
    match r
    case Dom(_) =>
    case Span(lo, hi) =>
      SignsBelowT(lo, a, b);
      SignsBelowT(hi, a, b);
    case By(_, q, t) =>
      SignsBelowR(q, a, b);
      SteadyBelow(t, a, b);
    case Compl(q) => SignsBelowR(q, a, b);
    case Pair(_, p, q) =>
      SignsBelowR(p, a, b);
      SignsBelowR(q, a, b);
    case Check(p, q) =>
      SignsBelowR(p, a, b);
      SignsBelowR(q, a, b);
  }

  lemma SignsBelow(e: Outer, a: Args, b: Args)
    requires SignsO(e, a) && StoreBelow(b, a)
    ensures SignsO(e, b)
  {
    match e
    case OuterSpan(lo, hi) =>
      SignsBelowT(lo, a, b);
      SignsBelowT(hi, a, b);
    case Inner(r) => SignsBelowR(r, a, b);
    case Element(_, _) =>
  }

  // ------------------------------------------------ signs read off a range

  /** No bound of a variable or of a range occurs in the term. */
  predicate Fixed(t: Term) {
    match t
    case Val(_) => true
    case MaxElem => true
    case Const(_) => true
    case Bin(_, a, b) => Fixed(a) && Fixed(b)
    case MinVar(_) => false
    case MaxVar(_) => false
    case MinOf(_) => false
    case MaxOf(_) => false
  }

  /** The term is never negative, as far as its shape tells. */
  predicate NonNeg(t: Term) {
    match t
    case Val(_) => true
    case MaxElem => true
    case Const(c) => c >= 0
    case Bin(op, a, b) => op != Sub && NonNeg(a) && (op != Mod ==> NonNeg(b))
    case MinVar(_) => true
    case MaxVar(_) => true
    case MinOf(_) => true
    case MaxOf(_) => false
  }

  /** The term is positive, as far as its shape tells. */
  predicate Positive(t: Term) {
    match t
    case MaxElem => true
    case Const(c) => c > 0
    case Bin(op, a, b) =>
      if op == Add then NonNeg(a) && NonNeg(b) && (Positive(a) || Positive(b))
      else op == Mul && Positive(a) && Positive(b)
    case Val(_) => false
    case MinVar(_) => false
    case MaxVar(_) => false
    case MinOf(_) => false
    case MaxOf(_) => false
  }

  predicate ShapeOp(op: BinOp, p: Term, q: Term) {
    match op
    case Add => true
    case Sub => true
    case Mul =>
      (NonNeg(p) && NonNeg(q)) || (NonNeg(p) && Fixed(p)) || (NonNeg(q) && Fixed(q)) || (Fixed(p) && Fixed(q))
    case DivD => (Fixed(q) && (NonNeg(q) || Fixed(p))) || (NonNeg(p) && Positive(q))
    case DivU => (Fixed(q) && (NonNeg(q) || Fixed(p))) || (NonNeg(p) && Positive(q))
    case Mod => Fixed(p)
  }

  predicate ShapeT(t: Term) {
    match t
    case Bin(op, p, q) => ShapeT(p) && ShapeT(q) && ShapeOp(op, p, q)
    case MinOf(r) => ShapeR(r)
    case MaxOf(r) => ShapeR(r)
    case Val(_) => true
    case MaxElem => true
    case Const(_) => true
    case MinVar(_) => true
    case MaxVar(_) => true
  }

  predicate ShapeR(r: Range) {
    match r
    case Dom(_) => true
    case Span(lo, hi) => ShapeT(lo) && ShapeT(hi)
    case By(_, q, t) => ShapeR(q) && Fixed(t)
    case Compl(q) => ShapeR(q)
    case Pair(_, p, q) => ShapeR(p) && ShapeR(q)
    case Check(p, q) => ShapeR(p) && ShapeR(q)
  }

  predicate ShapeO(e: Outer) {
    match e
    case OuterSpan(lo, hi) => ShapeT(lo) && ShapeT(hi)
    case Inner(r) => ShapeR(r)
    case Element(_, _) => true
  }

  lemma FixedSteady(t: Term, b: Args)
    requires ValsT(t, b)
    ensures Fixed(t) ==> Steady(t, b)
  {
    forall c | Shrunk(b, c) && Fixed(t)
      ensures EvalT(t, c) == EvalT(t, b)
    {
      FixedKeeps(t, b, c);
    }
  }

  lemma NonNegAbove(t: Term, b: Args)
    ensures NonNeg(t) ==> Above(t, b, 0)
    ensures Positive(t) ==> Above(t, b, 1)
  {
    forall c | Shrunk(b, c)
      ensures NonNeg(t) ==> EvalT(t, c) >= 0
      ensures Positive(t) ==> EvalT(t, c) >= 1
    {
      InUniverse(b, c);
      if NonNeg(t) { NonNegHolds(t, c); }
      if Positive(t) { PositiveHolds(t, c); }
    }
  }

  lemma InUniverse(b: Args, c: Args)
    requires Shrunk(b, c)
    ensures forall x :: 0 <= x < |c| ==> c[x] != {} && c[x] <= Universe()
  {
    forall x | 0 <= x < |c|
      ensures c[x] != {} && c[x] <= Universe()
    {
      assert c[x] <= b[x];
    }
  }

  lemma {:induction false} PositiveHolds(t: Term, b: Args)
    requires Positive(t) && forall x :: 0 <= x < |b| ==> b[x] != {} && b[x] <= Universe()
    ensures EvalT(t, b) >= 1
    decreases t
  {
    match t
    case Bin(op, p, q) =>
      if op == Add {
        NonNegHolds(p, b);
        NonNegHolds(q, b);
        if Positive(p) { PositiveHolds(p, b); } else { PositiveHolds(q, b); }
      } else {
        PositiveHolds(p, b);
        PositiveHolds(q, b);
        MulScale(EvalT(p, b), 1, EvalT(q, b));
      }
    case MaxElem =>
    case Const(_) =>
  }

  /** What the shape of a range tells is so over every store. */
  lemma {:induction false} ShapeSignsT(t: Term, b: Args)
    requires ShapeT(t) && ValsT(t, b)
    ensures SignsT(t, b)
    decreases t
  {
    hide Steady, Above, Fixed, NonNeg, Positive;
    match t
    case Bin(op, p, q) =>
      ShapeSignsT(p, b);
      ShapeSignsT(q, b);
      FixedSteady(p, b);
      FixedSteady(q, b);
      NonNegAbove(p, b);
      NonNegAbove(q, b);
    case MinOf(r) => ShapeSignsR(r, b);
    case MaxOf(r) => ShapeSignsR(r, b);
    case Val(_) =>
    case MaxElem =>
    case Const(_) =>
    case MinVar(_) =>
    case MaxVar(_) =>
  }

  lemma {:induction false} ShapeSignsR(r: Range, b: Args)
    requires ShapeR(r) && ValsR(r, b)
    ensures SignsR(r, b)
    decreases r
  {
    hide Steady, Fixed;
    match r
    case Dom(_) =>
    case Span(lo, hi) =>
      ShapeSignsT(lo, b);
      ShapeSignsT(hi, b);
    case By(_, q, t) =>
      ShapeSignsR(q, b);
      FixedSteady(t, b);
    case Compl(q) => ShapeSignsR(q, b);
    case Pair(_, p, q) =>
      ShapeSignsR(p, b);
      ShapeSignsR(q, b);
    case Check(p, q) =>
      ShapeSignsR(p, b);
      ShapeSignsR(q, b);
  }

  lemma ShapeSigns(e: Outer, b: Args)
    requires ShapeO(e) && ValsO(e, b)
    ensures SignsO(e, b)
  {
    match e
    case OuterSpan(lo, hi) =>
      ShapeSignsT(lo, b);
      ShapeSignsT(hi, b);
    case Inner(r) => ShapeSignsR(r, b);
    case Element(_, _) =>
  }

  // ------------------------------------------------ arithmetic

  lemma SingleShrunk(s: set<int>, t: set<int>)
    requires Single(s) && t <= s && t != {}
    ensures t == s
  {
    var v :| s == {v};
    SomeElement(t);
    assert v in t;
  }

  lemma BoundsShrunk(s: set<int>, t: set<int>)
    requires t <= s && t != {}
    ensures VarMin(s) <= VarMin(t) && VarMax(t) <= VarMax(s)
  {
    SomeElement(t);
    assert s != {};
    assert IsMin(t, Least(t)) && IsMax(t, Greatest(t));
  }

  /** A fixed term keeps its value. */
  lemma {:induction false} FixedKeeps(t: Term, b: Args, c: Args)
    requires Shrunk(b, c) && Fixed(t) && ValsT(t, b)
    ensures EvalT(t, c) == EvalT(t, b)
    decreases t
  {
    match t
    case Val(x) => SingleShrunk(DomAt(b, x), DomAt(c, x));
    case Bin(_, p, q) => FixedKeeps(p, b, c); FixedKeeps(q, b, c);
    case MaxElem =>
    case Const(_) =>
  }

  lemma VarNonNeg(s: set<int>)
    requires s <= Universe()
    ensures VarMin(s) >= 0 && VarMax(s) >= 0
  {
    if s != {} {
      assert IsMin(s, Least(s)) && IsMax(s, Greatest(s));
    }
  }

  lemma {:induction false} NonNegHolds(t: Term, b: Args)
    requires NonNeg(t) && forall x :: 0 <= x < |b| ==> b[x] != {} && b[x] <= Universe()
    ensures EvalT(t, b) >= 0
    decreases t
  {
    match t
    case Val(x) => VarNonNeg(DomAt(b, x));
    case MinVar(x) => VarNonNeg(DomAt(b, x));
    case MaxVar(x) => VarNonNeg(DomAt(b, x));
    case MinOf(r) =>
      EvalWithin(r, b);
      if EvalR(r, b) != {} {
        assert IsMin(EvalR(r, b), Least(EvalR(r, b)));
      }
    case Bin(op, p, q) =>
      NonNegHolds(p, b);
      if op != Mod {
        NonNegHolds(q, b);
      }
      ArithNonNeg(op, EvalT(p, b), EvalT(q, b));
    case MaxElem =>
    case Const(_) =>
  }

  lemma ArithNonNeg(op: BinOp, x: nat, y: int)
    requires op != Sub && (op != Mod ==> y >= 0)
    ensures Arith(op, x, y) >= 0
  {
    hide TDiv, TMod;
    match op
    case Add =>
    case Mul => MulNonNeg(x, y);
    case DivD => TDivNonNeg(x, y);
    case DivU => if y == 0 { TDivNonNeg(0, 0); TDivByZero(x - 1); } else { TDivNonNeg(x + y - 1, y); }
    case Mod => ModNonNeg(x, y);
  }

  lemma TDivNonNeg(x: nat, y: nat)
    ensures TDiv(x, y) >= 0
  {
  }

  lemma TDivByZero(x: int)
    ensures TDiv(x, 0) == 0
  {
  }

  lemma MulNonNeg(a: nat, b: nat)
    ensures a * b >= 0
  {
  }

  lemma ModNonNeg(a: nat, b: int)
    ensures TMod(a, b) >= 0
  {
    if b > 0 {
      assert a == b * (a / b) + a % b;
    } else if b < 0 {
      var c := -b;
      assert a == c * (a / c) + a % c;
      assert b * -(a / c) == c * (a / c);
    }
  }

  lemma MulMono(a: int, b: int, c: int, d: int)
    requires a <= c && b <= d
    requires (0 <= a && 0 <= b) || (a == c && 0 <= a) || (b == d && 0 <= b) || (a == c && b == d)
    ensures a * b <= c * d
  {
    if 0 <= a && 0 <= b {
      MulScale(b, a, c);
      MulScale(c, b, d);
    } else if a == c && 0 <= a {
      MulScale(a, b, d);
    } else if b == d && 0 <= b {
      MulScale(b, a, c);
    }
  }

  lemma MulScale(k: nat, a: int, b: int)
    requires a <= b
    ensures k * a <= k * b
  {
  }

  lemma TDivMono(a: int, b: int, k: int)
    requires a <= b && k >= 0
    ensures TDiv(a, k) <= TDiv(b, k)
  {
    if k > 0 {
      TDivSigns(a, k);
      TDivSigns(b, k);
    }
    hide TDiv;
    if k > 0 {
      if a >= 0 {
        DivMono(a, b, k);
      } else if b < 0 {
        DivMono(-b, -a, k);
      }
    }
  }

  lemma TDivSigns(a: int, k: nat)
    requires k > 0
    ensures a >= 0 ==> TDiv(a, k) == a / k && a / k >= 0
    ensures a < 0 ==> TDiv(a, k) == -((-a) / k) && (-a) / k >= 0
  {
    if a >= 0 { QuotientNonNeg(a, k); } else { QuotientNonNeg(-a, k); }
  }

  lemma QuotientNonNeg(a: nat, k: nat)
    requires k > 0
    ensures a / k >= 0
  {
  }

  lemma MulCancel(k: nat, x: int, y: int)
    ensures k * x < k * y ==> x < y
  {
    if y <= x {
      MulScale(k, y, x);
    }
  }

  lemma DivMono(a: nat, b: nat, k: nat)
    requires a <= b && k > 0
    ensures a / k <= b / k
  {
    var x, y := a / k, b / k;
    assert k * x <= a && b < k * y + k;
    assert k * (y + 1) == k * y + k;
    MulCancel(k, x, y + 1);
  }

  // ------------------------------------------------ soundness

  /** What the analysis claims of a term, and of a range. */
  ghost predicate TermFollows(t: Term, b: Args, c: Args)
    requires Shrunk(b, c)
  {
    && (Determined(MonTerm(t).0, b) ==> EvalT(t, c) <= EvalT(t, b))
    && (Determined(MonTerm(t).1, b) ==> EvalT(t, b) <= EvalT(t, c))
  }

  ghost predicate RangeFollows(r: Range, b: Args, c: Args)
    requires Shrunk(b, c)
  {
    && (Determined(MonRange(r).0, b) ==> EvalR(r, c) <= EvalR(r, b))
    && (Determined(MonRange(r).1, b) ==> EvalR(r, b) <= EvalR(r, c))
  }

  lemma MergeDetermined(p: seq<nat>, q: seq<nat>, b: Args)
    ensures Determined(Merge(p, q), b) <==> Determined(p, b) && Determined(q, b)
  {
  }

  lemma {:induction false} TermMono(t: Term, b: Args, c: Args)
    requires Shrunk(b, c) && SignsT(t, b) && ValsT(t, b)
    ensures TermFollows(t, b, c)
    decreases t
  {
    match t
    case Val(x) => SingleShrunk(DomAt(b, x), DomAt(c, x));
    case MaxElem =>
    case Const(_) =>
    case MinVar(x) =>
      if x < |b| {
        BoundsShrunk(b[x], c[x]);
      }
      if x < |b| && Determined([x], b) {
        assert x in [x];
        SingleShrunk(b[x], c[x]);
      }
    case MaxVar(x) =>
      if x < |b| {
        BoundsShrunk(b[x], c[x]);
      }
      if x < |b| && Determined([x], b) {
        assert x in [x];
        SingleShrunk(b[x], c[x]);
      }
    case MinOf(r) =>
      RangeMono(r, b, c);
      RangeBounds(r, b, c);
    case MaxOf(r) =>
      RangeMono(r, b, c);
      RangeBounds(r, b, c);
    case Bin(op, p, q) =>
      TermMono(p, b, c);
      TermMono(q, b, c);
      match op {
        case Add => SumFollows(op, p, q, b, c);
        case Sub => SumFollows(op, p, q, b, c);
        case Mul => MulFollows(p, q, b, c);
        case DivD => DivFollows(op, p, q, b, c);
        case DivU => DivFollows(op, p, q, b, c);
        case Mod => ModFollows(p, q, b, c);
      }
  }

  lemma PairDetermined(p: (seq<nat>, seq<nat>), q: (seq<nat>, seq<nat>), b: Args)
    ensures Determined(MonBoth(p, q).0, b) <==> Determined(p.0, b) && Determined(q.0, b)
    ensures Determined(MonBoth(p, q).1, b) <==> Determined(p.1, b) && Determined(q.1, b)
    ensures Determined(MonCross(p, q).0, b) <==> Determined(p.0, b) && Determined(q.1, b)
    ensures Determined(MonCross(p, q).1, b) <==> Determined(p.1, b) && Determined(q.0, b)
    ensures Determined(MonSpan(p, q).0, b) <==> Determined(p.1, b) && Determined(q.0, b)
    ensures Determined(MonSpan(p, q).1, b) <==> Determined(p.0, b) && Determined(q.1, b)
  {
    MergeDetermined(p.0, q.0, b);
    MergeDetermined(p.1, q.1, b);
    MergeDetermined(p.0, q.1, b);
    MergeDetermined(p.1, q.0, b);
  }

  lemma SumFollows(op: BinOp, p: Term, q: Term, b: Args, c: Args)
    requires Shrunk(b, c) && (op == Add || op == Sub)
    requires TermFollows(p, b, c) && TermFollows(q, b, c)
    ensures TermFollows(Bin(op, p, q), b, c)
  {
    PairDetermined(MonTerm(p), MonTerm(q), b);
  }

  /** The two facts the sign conditions are about, at one pair of stores. */
  lemma AboveBoth(t: Term, b: Args, c: Args, k: int)
    requires Shrunk(b, c) && Above(t, b, k)
    ensures EvalT(t, b) >= k && EvalT(t, c) >= k
  {
    assert Shrunk(b, b);
  }

  lemma SteadyBoth(t: Term, b: Args, c: Args)
    requires Shrunk(b, c) && Steady(t, b)
    ensures EvalT(t, b) == EvalT(t, c)
  {
  }

  lemma MulFollows(p: Term, q: Term, b: Args, c: Args)
    requires Shrunk(b, c) && FactorsSigned(p, q, b)
    requires TermFollows(p, b, c) && TermFollows(q, b, c)
    ensures TermFollows(Bin(Mul, p, q), b, c)
  {
    PairDetermined(MonTerm(p), MonTerm(q), b);
    var pb, pc, qb, qc := EvalT(p, b), EvalT(p, c), EvalT(q, b), EvalT(q, c);
    hide Steady, Above, Shrunk;
    if Above(p, b, 0) { AboveBoth(p, b, c, 0); }
    if Above(q, b, 0) { AboveBoth(q, b, c, 0); }
    if Steady(p, b) { SteadyBoth(p, b, c); }
    if Steady(q, b) { SteadyBoth(q, b, c); }
    if pc <= pb && qc <= qb { MulMono(pc, qc, pb, qb); }
    if pb <= pc && qb <= qc { MulMono(pb, qb, pc, qc); }
  }

  /** A quotient grows with its dividend, and falls as a positive divisor of a
      non-negative dividend grows; rounded up or down. */
  lemma QuotientMono(op: BinOp, x: int, y: int, u: int, v: int)
    requires (op == DivD || op == DivU) && x <= u && v <= y
    requires (y == v && (y >= 0 || x == u)) || (0 <= x && 1 <= v)
    ensures Arith(op, x, y) <= Arith(op, u, v)
  {
    hide TDiv;
    if y != v {
      FallingDivisor(op, x, y, v);
    }
    if v >= 0 {
      if op == DivD { TDivMono(x, u, v); } else { TDivMono(x + v - 1, u + v - 1, v); }
    }
  }

  lemma FallingDivisor(op: BinOp, x: nat, y: nat, v: nat)
    requires (op == DivD || op == DivU) && 1 <= v <= y
    ensures Arith(op, x, y) <= Arith(op, x, v)
  {
    TDivSigns(x, y);
    TDivSigns(x, v);
    TDivSigns(x + y - 1, y);
    TDivSigns(x + v - 1, v);
    hide TDiv;
    if op == DivD {
      DivFalls(x, y, v);
    } else if x == 0 {
      SmallQuotient(y - 1, y);
      SmallQuotient(v - 1, v);
    } else {
      DivFalls(x - 1, y, v);
      OneMore(x - 1, y);
      OneMore(x - 1, v);
    }
  }

  lemma SmallQuotient(x: nat, k: nat)
    requires x < k
    ensures x / k == 0
  {
  }

  lemma OneMore(x: nat, k: nat)
    requires k > 0
    ensures (x + k) / k == x / k + 1
  {
    var q, r := x / k, x % k;
    assert x == k * q + r;
    assert k * (q + 1) == k * q + k;
    Quotient(x + k, k, q + 1, r);
  }

  lemma Quotient(x: nat, k: nat, q: int, r: int)
    requires k > 0 && x == k * q + r && 0 <= r < k
    ensures x / k == q
  {
    var z := x / k;
    assert x == k * z + x % k;
    assert k * (z + 1) == k * z + k && k * (q + 1) == k * q + k;
    MulCancel(k, z, q + 1);
    MulCancel(k, q, z + 1);
  }

  lemma DivFalls(x: nat, y: nat, v: nat)
    requires 1 <= v <= y
    ensures x / y <= x / v
  {
    var s, t := x / y, x / v;
    assert y * s <= x && x < v * t + v;
    QuotientNonNeg(x, y);
    MulScale(s, v, y);
    assert v * (t + 1) == v * t + v;
    MulCancel(v, s, t + 1);
  }

  lemma DivFollows(op: BinOp, p: Term, q: Term, b: Args, c: Args)
    requires (op == DivD || op == DivU) && Shrunk(b, c) && QuotientSigned(p, q, b)
    requires TermFollows(p, b, c) && TermFollows(q, b, c)
    ensures TermFollows(Bin(op, p, q), b, c)
  {
    PairDetermined(MonTerm(p), MonTerm(q), b);
    var pb, pc, qb, qc := EvalT(p, b), EvalT(p, c), EvalT(q, b), EvalT(q, c);
    hide Steady, Above, Shrunk, Arith, Determined;
    if Above(p, b, 0) { AboveBoth(p, b, c, 0); }
    if Above(q, b, 0) { AboveBoth(q, b, c, 0); }
    if Above(q, b, 1) { AboveBoth(q, b, c, 1); }
    if Steady(p, b) { SteadyBoth(p, b, c); }
    if Steady(q, b) { SteadyBoth(q, b, c); }
    if pc <= pb && qb <= qc { QuotientMono(op, pc, qc, pb, qb); }
    if pb <= pc && qc <= qb { QuotientMono(op, pb, qb, pc, qc); }
  }

  lemma ModFollows(p: Term, q: Term, b: Args, c: Args)
    requires Shrunk(b, c) && Steady(p, b)
    requires TermFollows(q, b, c)
    ensures TermFollows(Bin(Mod, p, q), b, c)
  {
    SteadyBoth(p, b, c);
    var m, n := MonTerm(p), MonTerm(q);
    var all := Merge(n.0, n.1);
    MergeDetermined(n.0, n.1, b);
    MergeDetermined(m.0, all, b);
    MergeDetermined(m.1, all, b);
  }

  /** The bounds of a set that shrinks move inwards. */
  lemma RangeBounds(r: Range, b: Args, c: Args)
    requires Shrunk(b, c)
    ensures EvalR(r, c) <= EvalR(r, b) ==>
              RangeMin(EvalR(r, b)) <= RangeMin(EvalR(r, c)) && RangeMax(EvalR(r, c)) <= RangeMax(EvalR(r, b))
    ensures EvalR(r, b) <= EvalR(r, c) ==>
              RangeMin(EvalR(r, c)) <= RangeMin(EvalR(r, b)) && RangeMax(EvalR(r, b)) <= RangeMax(EvalR(r, c))
  {
    EvalWithin(r, b);
    EvalWithin(r, c);
    SetBounds(EvalR(r, b), EvalR(r, c));
    SetBounds(EvalR(r, c), EvalR(r, b));
  }

  lemma SetBounds(s: set<int>, t: set<int>)
    requires s <= Universe() && t <= Universe()
    ensures t <= s ==> RangeMin(s) <= RangeMin(t) && RangeMax(t) <= RangeMax(s)
  {
    if s != {} {
      assert IsMin(s, Least(s)) && IsMax(s, Greatest(s));
    }
    if t != {} {
      assert IsMin(t, Least(t)) && IsMax(t, Greatest(t));
    }
  }

  lemma ModOfMono(s: set<int>, t: set<int>, i: int)
    requires s <= t
    ensures ModOf(s, i) <= ModOf(t, i)
  {
  }

  lemma {:induction false} RangeMono(r: Range, b: Args, c: Args)
    requires Shrunk(b, c) && SignsR(r, b) && ValsR(r, b)
    ensures RangeFollows(r, b, c)
    decreases r
  {
    match r
    case Dom(x) =>
      if x < |b| && Determined([x], b) {
        assert x in [x];
        SingleShrunk(b[x], c[x]);
      }
    case Span(lo, hi) =>
      TermMono(lo, b, c);
      TermMono(hi, b, c);
      SpanFollows(lo, hi, b, c);
    case By(op, q, t) =>
      RangeMono(q, b, c);
      ByFollows(op, q, t, b, c);
    case Compl(q) =>
      RangeMono(q, b, c);
    case Pair(op, p, q) =>
      RangeMono(p, b, c);
      RangeMono(q, b, c);
      PairFollows(op, p, q, b, c);
    case Check(p, q) =>
      RangeMono(p, b, c);
      RangeMono(q, b, c);
      PairDetermined(MonRange(p), MonRange(q), b);
  }

  lemma SpanFollows(lo: Term, hi: Term, b: Args, c: Args)
    requires Shrunk(b, c) && TermFollows(lo, b, c) && TermFollows(hi, b, c)
    ensures RangeFollows(Span(lo, hi), b, c)
  {
    PairDetermined(MonTerm(lo), MonTerm(hi), b);
    hide Shrunk, Determined;
  }

  lemma ByFollows(op: ByOp, q: Range, t: Term, b: Args, c: Args)
    requires Shrunk(b, c) && RangeFollows(q, b, c) && Steady(t, b)
    ensures RangeFollows(By(op, q, t), b, c)
  {
    SteadyBoth(t, b, c);
    hide Shrunk, Determined, Steady;
    if EvalR(q, c) <= EvalR(q, b) { ModOfMono(EvalR(q, c), EvalR(q, b), EvalT(t, b)); }
    if EvalR(q, b) <= EvalR(q, c) { ModOfMono(EvalR(q, b), EvalR(q, c), EvalT(t, b)); }
  }

  lemma PairFollows(op: PairOp, p: Range, q: Range, b: Args, c: Args)
    requires Shrunk(b, c) && RangeFollows(p, b, c) && RangeFollows(q, b, c)
    ensures RangeFollows(Pair(op, p, q), b, c)
  {
    PairDetermined(MonRange(p), MonRange(q), b);
    hide Shrunk, Determined;
  }

  /** Both ranges of element shrink with the domain of their argument. */
  lemma ElementMono(values: bool, list: seq<int>, b: Args, c: Args)
    requires Shrunk(b, c)
    ensures ElementOf(values, DomAt(c, 0), list) <= ElementOf(values, DomAt(b, 0), list)
    ensures Determined([0], b) ==> ElementOf(values, DomAt(b, 0), list) <= ElementOf(values, DomAt(c, 0), list)
  {
    if |b| > 0 && Determined([0], b) {
      var x: nat := 0;
      assert x in [0];
      SingleShrunk(b[x], c[x]);
    }
  }

  /** The analysis is sound: with M determined an indexical only gets stronger
      as domains shrink, with AM determined only weaker. */
  lemma AnalysisSound(e: Outer, b: Args, c: Args)
    requires Shrunk(b, c) && SignsO(e, b) && ValsO(e, b)
    ensures Determined(MonOuter(e).0, b) ==> EvalO(e, c) <= EvalO(e, b)
    ensures Determined(MonOuter(e).1, b) ==> EvalO(e, b) <= EvalO(e, c)
  {
    match e
    case OuterSpan(lo, hi) =>
      TermMono(lo, b, c);
      TermMono(hi, b, c);
      PairDetermined(MonTerm(lo), MonTerm(hi), b);
    case Inner(r) =>
      RangeMono(r, b, c);
    case Element(values, list) => ElementMono(values, list, b, c);
  }

  /** Where the sign conditions fail the analysis can be wrong: it takes each
      of these ranges to shrink with the domain of its only variable. */
  lemma AnalysisUnsound()
    ensures var e := OuterSpan(Const(0), Bin(Mul, Const(-1), Bin(Sub, MaxVar(0), Const(9))));
            MonOuter(e).0 == [] && !(EvalO(e, [{3}]) <= EvalO(e, [{3, 5}]))
    ensures var e := Inner(By(Plus, Span(Const(0), Const(4)), MinVar(0)));
            MonOuter(e).0 == [] && !(EvalO(e, [{5}]) <= EvalO(e, [{3, 5}]))
    ensures var e := OuterSpan(Const(0), Bin(Mod, MaxVar(0), Const(3)));
            MonOuter(e).0 == [] && !(EvalO(e, [{2}]) <= EvalO(e, [{2, 3}]))
  {
    BoundsOf({3, 5}, 3, 5);
    BoundsOf({3}, 3, 3);
    BoundsOf({5}, 5, 5);
    BoundsOf({2}, 2, 2);
    BoundsOf({2, 3}, 2, 3);
    assert 6 in EvalO(OuterSpan(Const(0), Bin(Mul, Const(-1), Bin(Sub, MaxVar(0), Const(9)))), [{3}]);
    assert 9 in EvalO(Inner(By(Plus, Span(Const(0), Const(4)), MinVar(0))), [{5}]);
    assert 2 in EvalO(OuterSpan(Const(0), Bin(Mod, MaxVar(0), Const(3))), [{2}]);
  }

  lemma BoundsOf(s: set<int>, lo: int, hi: int)
    requires IsMin(s, lo) && IsMax(s, hi)
    ensures VarMin(s) == lo && VarMax(s) == hi
  {
    assert IsMin(s, Least(s)) && IsMax(s, Greatest(s));
  }
}
