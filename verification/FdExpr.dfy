/** Range expressions: the right-hand sides of indexicals `X in r`, their
    meaning over a store of domains, and when evaluating them is defined. */
module FdExpr {
  import opened FdWords

  datatype BinOp = Add | Mul | Sub | DivD | DivU | Mod
  datatype ByOp = Plus | Minus | Modulo
  datatype PairOp = Union | Inter

  /** Arithmetic terms. Variables are numbered by their place in the argument
      environment of the indexical. */
  datatype Term =
    | Val(x: nat)
    | MaxElem
    | Const(c: int)
    | Bin(op: BinOp, a: Term, b: Term)
    | MinVar(x: nat)
    | MaxVar(x: nat)
    | MinOf(r: Range)
    | MaxOf(r: Range)

  datatype Range =
    | Dom(x: nat)
    | Span(lo: Term, hi: Term)
    | By(byOp: ByOp, r: Range, t: Term)
    | Compl(r: Range)
    | Pair(pairOp: PairOp, r1: Range, r2: Range)
    | Check(r1: Range, r2: Range)

  /** What an indexical evaluates: an outermost interval has its own
      instruction and is not limited to the universe; the two ranges of the
      constraint element have one instruction each, over the domain of argument
      0 and a list: the values of the list at the positions in the domain, or the
      positions of the values in it. */
  datatype Outer =
    | OuterSpan(lo: Term, hi: Term)
    | Inner(r: Range)
    | Element(values: bool, list: seq<int>)

  /** The domains of the argument variables. */
  type Args = seq<set<int>>

  /** The domain of argument x; an argument that does not exist has none. */
  ghost function DomAt(b: Args, x: nat): set<int> {
    if x < |b| then b[x] else {}
  }

  // ------------------------------------------------ meaning

  lemma SomeElement(s: set<int>)
    ensures s == {} || exists v :: v in s
  {
    if forall v :: v !in s {
      assert s == {};
    }
  }

  ghost function Least(s: set<int>): (m: int)
    requires s != {}
    ensures IsMin(s, m)
  {
    LeastExists(s);
    var m :| IsMin(s, m);
    m
  }

  ghost function Greatest(s: set<int>): (m: int)
    requires s != {}
    ensures IsMax(s, m)
  {
    GreatestExists(s);
    var m :| IsMax(s, m);
    m
  }

  lemma {:induction false} LeastExists(s: set<int>)
    requires s != {}
    ensures exists m :: IsMin(s, m)
  {
    SomeElement(s);
    var v :| v in s;
    if s == {v} {
      assert IsMin(s, v);
    } else {
      var rest := s - {v};
      assert s == {v} + rest;
      LeastExists(rest);
      var m :| IsMin(rest, m);
      assert IsMin(s, if v < m then v else m);
    }
  }

  lemma {:induction false} GreatestExists(s: set<int>)
    requires s != {}
    ensures exists m :: IsMax(s, m)
  {
    SomeElement(s);
    var v :| v in s;
    if s == {v} {
      assert IsMax(s, v);
    } else {
      var rest := s - {v};
      assert s == {v} + rest;
      GreatestExists(rest);
      var m :| IsMax(rest, m);
      assert IsMax(s, if v > m then v else m);
    }
  }

  /** The bounds kept in a variable. An emptied interval is left as 1..0. */
  ghost function VarMin(s: set<int>): int {
    if s == {} then 1 else Least(s)
  }

  ghost function VarMax(s: set<int>): int {
    if s == {} then 0 else Greatest(s)
  }

  /** Division as C does it, towards zero. */
  function TDiv(a: int, b: int): int {
    if b == 0 then 0
    else if b > 0 then if a >= 0 then a / b else -((-a) / b)
    else if a >= 0 then -(a / (-b)) else (-a) / (-b)
  }

  function TMod(a: int, b: int): int {
    a - b * TDiv(a, b)
  }

  function Arith(op: BinOp, x: int, y: int): int {
    match op
    case Add => x + y
    case Mul => x * y
    case Sub => x - y
    case DivD => TDiv(x, y)
    case DivU => TDiv(x + y - 1, y)
    case Mod => TMod(x, y)
  }

  predicate NeedsDivisor(op: BinOp) {
    op == DivD || op == DivU || op == Mod
  }

  /** An inner interval must not reach beyond the universe. */
  predicate InReach(x: int, y: int) {
    x > y || y <= 255
  }

  ghost function Spanned(x: int, y: int): set<int> {
    Interval(x, y) * Universe()
  }

  /** A set moved up, moved down, or reduced by a number. */
  ghost function MovedBy(op: ByOp, s: set<int>, k: int): set<int> {
    match op
    case Plus => Shifted(s, k)
    case Minus => Lowered(s, k)
    case Modulo => ModOf(s, k)
  }

  predicate NumberFits(op: ByOp, k: int) {
    if op == Modulo then k != 0 else Shiftable(k)
  }

  ghost function Combined(op: PairOp, s: set<int>, t: set<int>): set<int> {
    if op == Union then s + t else s * t
  }

  ghost function EvalT(t: Term, b: Args): int {
    match t
    case Val(x) => VarMax(DomAt(b, x))
    case MaxElem => 255
    case Const(c) => c
    case Bin(op, p, q) => Arith(op, EvalT(p, b), EvalT(q, b))
    case MinVar(x) => VarMin(DomAt(b, x))
    case MaxVar(x) => VarMax(DomAt(b, x))
    case MinOf(r) => RangeMin(EvalR(r, b))
    case MaxOf(r) => RangeMax(EvalR(r, b))
  }

  /** The bounds of an evaluated set, with the values for the empty set that
      min_bit and max_bit give. */
  ghost function RangeMin(s: set<int>): int {
    if s == {} then 256 else Least(s)
  }

  ghost function RangeMax(s: set<int>): int {
    if s == {} then -1 else Greatest(s)
  }

  ghost function EvalR(r: Range, b: Args): set<int> {
    match r
    case Dom(x) => DomAt(b, x) * Universe()
    case Span(lo, hi) => Spanned(EvalT(lo, b), EvalT(hi, b))
    case By(op, q, t) => MovedBy(op, EvalR(q, b), EvalT(t, b))
    case Compl(q) => Universe() - EvalR(q, b)
    case Pair(op, p, q) => Combined(op, EvalR(p, b), EvalR(q, b))
    case Check(p, q) => if EvalR(p, b) == {} then {} else EvalR(q, b)
  }

  ghost function ModOf(s: set<int>, i: int): set<int> {
    if i == 0 then {} else ModSet(s, i)
  }

  /** The set an indexical allows for its variable. */
  ghost function EvalO(e: Outer, b: Args): set<int> {
    match e
    case OuterSpan(lo, hi) => Clipped(EvalT(lo, b), EvalT(hi, b))
    case Inner(r) => EvalR(r, b)
    case Element(values, list) => ElementOf(values, DomAt(b, 0), list)
  }

  // ------------------------------------------------ positions in a list

  predicate Position(list: seq<int>, i: int) {
    1 <= i <= |list|
  }

  function ListAt(list: seq<int>, i: int): int {
    if Position(list, i) then list[i - 1] else -1
  }

  /** { L(i) : i in s } */
  ghost function ValuesAt(s: set<int>, list: seq<int>): set<int> {
    set i | i in s && Position(list, i) :: ListAt(list, i)
  }

  /** { i : L(i) in s } */
  ghost function PositionsOf(s: set<int>, list: seq<int>): set<int> {
    set i | 1 <= i <= |list| && ListAt(list, i) in s
  }

  ghost function ElementOf(values: bool, s: set<int>, list: seq<int>): set<int> {
    if values then ValuesAt(s, list) * Universe() else PositionsOf(s, list) * Universe()
  }

  /** The instruction neither reads outside the list nor writes outside the
      block; a single value below 0 is clipped. */
  ghost predicate ElementOk(values: bool, s: set<int>, list: seq<int>) {
    if values then
      forall i :: i in s ==> Position(list, i) && ListAt(list, i) <= 255 && (Single(s) || ListAt(list, i) >= 0)
    else forall i :: i in PositionsOf(s, list) ==> i <= 255
  }

  ghost function Clipped(lo: int, hi: int): set<int> {
    Interval(if lo < 0 then 0 else lo, hi)
  }

  lemma {:induction false} EvalWithin(r: Range, b: Args)
    ensures EvalR(r, b) <= Universe()
    decreases r
  {
    match r
    case By(_, q, t) =>
      EvalWithin(q, b);
      ModWithin(EvalR(q, b), EvalT(t, b));
    case Pair(_, p, q) =>
      EvalWithin(p, b);
      EvalWithin(q, b);
    case Check(p, q) =>
      EvalWithin(q, b);
    case Dom(_) =>
    case Span(_, _) =>
    case Compl(_) =>
  }

  lemma ModWithin(s: set<int>, i: int)
    requires s <= Universe()
    ensures ModOf(s, i) <= Universe()
  {
    if i != 0 {
      forall v | v in s
        ensures Rem(v, i) in Universe()
      {
        RemSmall(v, i);
      }
    }
  }

  // ------------------------------------------------ when evaluation is defined

  ghost predicate Single(s: set<int>) {
    exists v :: s == {v}
  }

  /** No missing argument, no division by zero, no undetermined variable used
      as a number. */
  ghost predicate OkT(t: Term, b: Args) {
    match t
    case Val(x) => x < |b| && Single(b[x])
    case MaxElem => true
    case Const(_) => true
    case MinVar(x) => x < |b|
    case MaxVar(x) => x < |b|
    case Bin(op, p, q) => OkT(p, b) && OkT(q, b) && (NeedsDivisor(op) ==> EvalT(q, b) != 0)
    case MinOf(r) => OkR(r, b)
    case MaxOf(r) => OkR(r, b)
  }

  /** No overflow of the universe, no shift by a whole number of words. */
  ghost predicate OkR(r: Range, b: Args) {
    match r
    case Dom(x) => x < |b|
    case Span(lo, hi) => OkT(lo, b) && OkT(hi, b) && InReach(EvalT(lo, b), EvalT(hi, b))
    case By(op, q, t) => OkR(q, b) && OkT(t, b) && NumberFits(op, EvalT(t, b))
    case Compl(q) => OkR(q, b)
    case Pair(_, p, q) => OkR(p, b) && OkR(q, b)
    case Check(p, q) => OkR(p, b) && (EvalR(p, b) != {} ==> OkR(q, b))
  }

  ghost predicate OkO(e: Outer, b: Args) {
    match e
    case OuterSpan(lo, hi) => OkT(lo, b) && OkT(hi, b)
    case Inner(r) => OkR(r, b)
    case Element(values, list) => |b| > 0 && ElementOk(values, b[0], list)
  }
}
