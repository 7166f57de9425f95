/** Indexicals with arithmetic over which nothing stops, read off their bounds:
    every divisor is positive, every offset can be shifted by, every interval
    ends within the universe. */
module FdCalc {
  import opened FdWords
  import opened FdExpr
  import opened FdMono
  import opened FdMachine
  import opened FdProblem
  import opened FdSafe

  /** What is known of the value of a term, however the domains narrow. */
  datatype Bound = Unknown | Within(lo: int, hi: int)

  function Lower(a: int, b: int): int {
    if a < b then a else b
  }

  function Higher(a: int, b: int): int {
    if a > b then a else b
  }

  ghost function BoundOf(t: Term, b: Args): Bound {
    match t
    case Val(x) => if x < |b| && Single(b[x]) then Within(VarMax(b[x]), VarMax(b[x])) else Unknown
    case MaxElem => Within(255, 255)
    case Const(c) => Within(c, c)
    case MinVar(x) => if x < |b| then Within(Lower(VarMin(b[x]), 1), Higher(VarMax(b[x]), 1)) else Unknown
    case MaxVar(x) => if x < |b| then Within(0, Higher(VarMax(b[x]), 0)) else Unknown
    case MinOf(_) => Within(0, 256)
    case MaxOf(_) => Within(-1, 255)
    case Bin(op, p, q) => Combine(op, BoundOf(p, b), BoundOf(q, b))
  }

  function Combine(op: BinOp, s: Bound, t: Bound): Bound {
    if s.Unknown? || t.Unknown? then Unknown
    else match op
      case Add => Within(s.lo + t.lo, s.hi + t.hi)
      case Sub => Within(s.lo - t.hi, s.hi - t.lo)
      case Mul => if s.lo >= 0 && t.lo >= 0 then Within(s.lo * t.lo, s.hi * t.hi) else Unknown
      case Mod => if s.lo >= 0 && t.lo >= 1 then Within(0, t.hi - 1) else Unknown
      case _ =>
        if s.lo >= 0 && t.lo >= 1 then Within(Arith(op, s.lo, t.hi), Arith(op, s.hi, t.lo)) else Unknown
  }

  predicate Holds1(s: Bound, x: int) {
    s.Within? ==> s.lo <= x <= s.hi
  }

  predicate Exceeds(s: Bound, k: int) {
    s.Within? && s.lo > k
  }

  predicate Ends(s: Bound, k: int) {
    s.Within? && s.hi <= k
  }

  lemma CombineHolds(op: BinOp, s: Bound, t: Bound, x: int, y: int)
    requires Holds1(s, x) && Holds1(t, y)
    ensures Holds1(Combine(op, s, t), Arith(op, x, y))
  {
    if s.Within? && t.Within? {
      match op {
        case Add =>
        case Sub =>
        case Mul =>
          if s.lo >= 0 && t.lo >= 0 {
            MulMono(s.lo, t.lo, x, y);
            MulMono(x, y, s.hi, t.hi);
          }
        case Mod =>
          if s.lo >= 0 && t.lo >= 1 {
            ModRange(x, y);
          }
        case DivD => DivBetween(op, s, t, x, y);
        case DivU => DivBetween(op, s, t, x, y);
      }
    }
  }

  lemma DivBetween(op: BinOp, s: Bound, t: Bound, x: int, y: int)
    requires (op == DivD || op == DivU) && s.Within? && t.Within? && Holds1(s, x) && Holds1(t, y)
    ensures s.lo >= 0 && t.lo >= 1 ==> Arith(op, s.lo, t.hi) <= Arith(op, x, y) <= Arith(op, s.hi, t.lo)
  {
    hide Arith;
    if s.lo >= 0 && t.lo >= 1 {
      QuotientMono(op, s.lo, t.hi, x, y);
      QuotientMono(op, x, y, s.hi, t.lo);
    }
  }

  lemma ModRange(x: nat, y: nat)
    requires y >= 1
    ensures 0 <= TMod(x, y) < y
  {
    assert x == y * (x / y) + x % y;
  }

  /** The bounds hold in every box the domains can narrow to. */
  lemma {:induction false} BoundHolds(t: Term, b: Args, c: Args)
    requires Narrows(b, c) && forall x :: 0 <= x < |b| ==> b[x] <= Universe()
    ensures Holds1(BoundOf(t, b), EvalT(t, c))
    decreases t
  {
    match t
    case Val(x) =>
    case MinVar(x) => if x < |b| { NarrowBounds(b[x], c[x]); }
    case MaxVar(x) => if x < |b| { NarrowBounds(b[x], c[x]); }
    case MinOf(r) =>
      EvalWithin(r, c);
      RangeEnds(EvalR(r, c));
    case MaxOf(r) =>
      EvalWithin(r, c);
      RangeEnds(EvalR(r, c));
    case Bin(op, p, q) =>
      BoundHolds(p, b, c);
      BoundHolds(q, b, c);
      CombineHolds(op, BoundOf(p, b), BoundOf(q, b), EvalT(p, c), EvalT(q, c));
    case MaxElem =>
    case Const(_) =>
  }

  lemma NarrowBounds(s: set<int>, t: set<int>)
    requires t <= s <= Universe()
    ensures Lower(VarMin(s), 1) <= VarMin(t) <= Higher(VarMax(s), 1)
    ensures 0 <= VarMax(t) <= Higher(VarMax(s), 0)
  {
    VarNonNeg(t);
    if t != {} {
      BoundsShrunk(s, t);
      assert IsMin(t, Least(t)) && IsMax(t, Greatest(t));
    }
  }

  lemma RangeEnds(s: set<int>)
    requires s <= Universe()
    ensures 0 <= RangeMin(s) <= 256 && -1 <= RangeMax(s) <= 255
  {
    if s != {} {
      assert IsMin(s, Least(s)) && IsMax(s, Greatest(s));
    }
  }

  // ------------------------------------------------ what can be computed

  ghost predicate CalcT(t: Term, b: Args) {
    match t
    case Val(x) => x < |b| && Single(b[x])
    case MinVar(x) => x < |b|
    case MaxVar(x) => x < |b|
    case Bin(op, p, q) => CalcT(p, b) && CalcT(q, b) && (NeedsDivisor(op) ==> Exceeds(BoundOf(q, b), 0))
    case MinOf(r) => CalcR(r, b)
    case MaxOf(r) => CalcR(r, b)
    case MaxElem => true
    case Const(_) => true
  }

  ghost predicate CalcR(r: Range, b: Args) {
    match r
    case Dom(x) => x < |b|
    case Span(lo, hi) => CalcT(lo, b) && CalcT(hi, b) && Ends(BoundOf(hi, b), 255)
    case By(op, q, t) => CalcR(q, b) && CalcT(t, b) && OffsetFits(op, BoundOf(t, b))
    case Compl(q) => CalcR(q, b)
    case Pair(_, p, q) => CalcR(p, b) && CalcR(q, b)
    case Check(p, q) => CalcR(p, b) && CalcR(q, b)
  }

  /** A set is moved by less than a word, or by a number that is known; it is
      reduced by a positive number. */
  predicate OffsetFits(op: ByOp, s: Bound) {
    s.Within? &&
    if op == Modulo then s.lo > 0
    else (0 <= s.lo && s.hi < 32) || (s.lo == s.hi && Shiftable(s.lo))
  }

  ghost predicate CalcO(e: Outer, b: Args) {
    match e
    case OuterSpan(lo, hi) => CalcT(lo, b) && CalcT(hi, b) && Ends(BoundOf(hi, b), 255)
    case Inner(r) => CalcR(r, b)
    case Element(values, list) => |b| > 0 && ElementOk(values, b[0], list)
  }

  lemma {:induction false} CalcOkT(t: Term, b: Args, c: Args)
    requires CalcT(t, b) && Narrows(b, c) && forall x :: 0 <= x < |b| ==> b[x] <= Universe()
    ensures OkT(t, c)
    decreases t
  {
    match t
    case Val(x) => assert c[x] == b[x];
    case Bin(op, p, q) =>
      CalcOkT(p, b, c);
      CalcOkT(q, b, c);
      BoundHolds(q, b, c);
    case MinOf(r) => CalcOkR(r, b, c);
    case MaxOf(r) => CalcOkR(r, b, c);
    case MinVar(_) =>
    case MaxVar(_) =>
    case MaxElem =>
    case Const(_) =>
  }

  lemma {:induction false} CalcOkR(r: Range, b: Args, c: Args)
    requires CalcR(r, b) && Narrows(b, c) && forall x :: 0 <= x < |b| ==> b[x] <= Universe()
    ensures OkR(r, c)
    decreases r
  {
    match r
    case Dom(_) =>
    case Span(lo, hi) =>
      CalcOkT(lo, b, c);
      CalcOkT(hi, b, c);
      BoundHolds(hi, b, c);
    case By(op, q, t) =>
      CalcOkR(q, b, c);
      CalcOkT(t, b, c);
      BoundHolds(t, b, c);
    case Compl(q) => CalcOkR(q, b, c);
    case Pair(_, p, q) =>
      CalcOkR(p, b, c);
      CalcOkR(q, b, c);
    case Check(p, q) =>
      CalcOkR(p, b, c);
      CalcOkR(q, b, c);
  }

  lemma CalcOk(e: Outer, b: Args, c: Args)
    requires CalcO(e, b) && Narrows(b, c) && forall x :: 0 <= x < |b| ==> b[x] <= Universe()
    ensures OkO(e, c) && EvalO(e, c) <= Universe()
  {
    match e
    case OuterSpan(lo, hi) =>
      CalcOkT(lo, b, c);
      CalcOkT(hi, b, c);
      BoundHolds(hi, b, c);
    case Inner(r) =>
      CalcOkR(r, b, c);
      EvalWithin(r, c);
    case Element(values, list) => ElementNarrows(values, b[0], c[0], list);
  }

  lemma ElementNarrows(values: bool, s: set<int>, t: set<int>, list: seq<int>)
    requires ElementOk(values, s, list) && t <= s && (Single(s) ==> t == s)
    ensures ElementOk(values, t, list)
  {
    if !values {
      assert PositionsOf(t, list) <= PositionsOf(s, list);
    }
  }

  /** Indexicals that can be computed and fit the stacks are safe. */
  lemma CalcSafe(p: Problem, box: Box)
    requires forall x :: 0 <= x < |box| ==> box[x] <= Universe()
    requires forall g :: 0 <= g < |p.fs| ==> CalcO(p.fs[g].e, ArgsOf(p.fs[g], box)) && FitsO(p.fs[g].e)
    ensures Safe(p, box)
  {
    forall next, g | Narrows(box, next) && 0 <= g < |p.fs|
      ensures SafeAt(p, g, next)
    {
      var f := p.fs[g];
      ArgsNarrow(f, box, next);
      CalcOk(f.e, ArgsOf(f, box), ArgsOf(f, next));
    }
    hide SafeAt, Narrows;
  }

  /** Such as X in (min(Y) + 3 * max(Z)) // min(Z) .. max(Y), for Z from 1 on. */
  lemma CalcExample(y: set<int>, z: set<int>)
    requires IsMin(y, 0) && IsMax(y, 20) && IsMin(z, 1) && IsMax(z, 9)
    ensures var sum := Bin(Add, MinVar(0), Bin(Mul, Const(3), MaxVar(1)));
            CalcO(OuterSpan(Bin(DivD, sum, MinVar(1)), MaxVar(0)), [y, z])
  {
    BoundsOf(y, 0, 20);
    BoundsOf(z, 1, 9);
    var b := [y, z];
    var times := Bin(Mul, Const(3), MaxVar(1));
    var plus := Bin(Add, MinVar(0), times);
    assert CalcT(Const(3), b) && CalcT(MaxVar(1), b) && CalcT(MinVar(0), b) && CalcT(MinVar(1), b);
    assert CalcT(times, b) && CalcT(plus, b) && BoundOf(MinVar(1), b) == Within(1, 9);
    assert CalcT(Bin(DivD, plus, MinVar(1)), b) && CalcT(MaxVar(0), b) && BoundOf(MaxVar(0), b) == Within(0, 20);
  }
}
