/** A finite-domain problem: indexicals over variables, the lists of indexicals
    suspended on each variable, and the solutions within a box of domains. */
module FdProblem {
  import opened FdWords
  import opened FdExpr
  import opened FdMono
  import opened FdDeps

  /** The dependency and change classes as the emulator numbers them: bit 0
      stands for the minimum, bit 1 for the maximum. */
  const P_DOM: int := 0
  const P_MIN: int := 1
  const P_MAX: int := 2
  const P_MINMAX: int := 3

  /** `d in e(args)`. The indexical is entailed once its variable ent is bound.
      It can only shrink when all of mon are determined, only grow when all of
      amon are. */
  datatype Indexical = Indexical(d: int, e: Outer, args: seq<int>, code: int, tell: bool, ent: int,
                                 mon: seq<int>, amon: seq<int>)

  datatype Susp = Susp(dep: int, f: int)

  /** n variables, their suspension lists, and e entailment variables. */
  datatype Problem = Problem(n: int, fs: seq<Indexical>, susp: seq<seq<Susp>>, e: int)

  type Box = seq<set<int>>

  /** The table of changes an indexical suspended with a class need not see. */
  predicate NotAffected(dep: int, change: int) {
    if dep == P_DOM then false
    else if dep == P_MIN then change == P_DOM || change == P_MAX
    else if dep == P_MAX then change == P_DOM || change == P_MIN
    else change == P_DOM
  }

  /** The bitwise or of two change classes. */
  function BothChanges(c: int, d: int): int {
    (if c % 2 == 1 || d % 2 == 1 then 1 else 0) + (if c >= 2 || d >= 2 then 2 else 0)
  }

  /** Which bounds move when a domain becomes another one. */
  ghost function ChangeOf(s: set<int>, t: set<int>): int {
    (if VarMin(s) == VarMin(t) then 0 else 1) + (if VarMax(s) == VarMax(t) then 0 else 2)
  }

  ghost function ArgsOf(f: Indexical, box: Box): Args {
    seq(|f.args|, i requires 0 <= i < |f.args| => Dom1(box, f.args[i]))
  }

  ghost function Dom1(box: Box, x: int): set<int> {
    if 0 <= x < |box| then box[x] else {}
  }

  ghost function Range1(f: Indexical, box: Box): set<int> {
    EvalO(f.e, ArgsOf(f, box))
  }

  /** The box of one assignment. */
  ghost function Point(a: seq<int>): Box {
    seq(|a|, i requires 0 <= i < |a| => {a[i]})
  }

  ghost predicate Holds(f: Indexical, a: seq<int>) {
    0 <= f.d < |a| && a[f.d] in Range1(f, Point(a))
  }

  ghost predicate Inside(a: seq<int>, box: Box) {
    |a| == |box| && forall x :: 0 <= x < |a| ==> a[x] in box[x]
  }

  ghost predicate Solves(p: Problem, a: seq<int>) {
    forall g :: 0 <= g < |p.fs| ==> Holds(p.fs[g], a)
  }

  // ------------------------------------------------ the solutions in a box

  ghost function Cons(v: int, b: seq<int>): seq<int> {
    [v] + b
  }

  ghost function Prepend(vs: set<int>, t: set<seq<int>>): (r: set<seq<int>>)
    ensures forall a :: a in r <==> |a| > 0 && a[0] in vs && a[1..] in t
  {
    assert forall a: seq<int> :: |a| > 0 ==> a == Cons(a[0], a[1..]);
    set v, b | v in vs && b in t :: Cons(v, b)
  }

  ghost function Points(box: Box): set<seq<int>> {
    if |box| == 0 then {[]} else Prepend(box[0], Points(box[1..]))
  }

  lemma {:induction false} PointsInside(box: Box, a: seq<int>)
    ensures a in Points(box) <==> Inside(a, box)
  {
    if |box| > 0 && |a| > 0 {
      PointsInside(box[1..], a[1..]);
      InsideParts(a, box);
    } else {
      assert |a| == 0 ==> a == [];
    }
  }

  lemma InsideParts(a: seq<int>, box: Box)
    requires |box| > 0 && |a| > 0
    ensures Inside(a, box) <==> a[0] in box[0] && Inside(a[1..], box[1..])
  {
    if a[0] in box[0] && Inside(a[1..], box[1..]) {
      forall x | 0 <= x < |a|
        ensures a[x] in box[x]
      {
        if x > 0 {
          assert a[1..][x - 1] in box[1..][x - 1];
        }
      }
    }
    if Inside(a, box) {
      forall x | 0 <= x < |a| - 1
        ensures a[1..][x] in box[1..][x]
      {
        assert a[x + 1] in box[x + 1];
      }
    }
  }

  /** The solutions of the problem with every variable in its domain. */
  ghost function Sols(p: Problem, box: Box): set<seq<int>> {
    set a | a in Points(box) && Solves(p, a)
  }

  lemma SolsAre(p: Problem, box: Box, a: seq<int>)
    ensures a in Sols(p, box) <==> Inside(a, box) && Solves(p, a)
  {
    PointsInside(box, a);
  }

  ghost function ValueAt(a: seq<int>, x: int): int {
    if 0 <= x < |a| then a[x] else 0
  }

  /** The solutions with a value below m for x. */
  ghost function SolsBelow(p: Problem, box: Box, x: int, m: int): set<seq<int>> {
    set a | a in Sols(p, box) && ValueAt(a, x) < m
  }

  lemma OneValueSols(p: Problem, box: Box, x: int, m: int, a: seq<int>)
    requires 0 <= x < |box| && m in box[x]
    ensures a in Sols(p, box[x := {m}]) <==> a in Sols(p, box) && ValueAt(a, x) == m
  {
    var n := box[x := {m}];
    SolsAre(p, box, a);
    SolsAre(p, n, a);
    hide Sols, Solves;
    if Inside(a, n) {
      forall y | 0 <= y < |a|
        ensures a[y] in box[y]
      {
        assert a[y] in n[y];
      }
      assert a[x] in n[x];
    }
  }

  // ------------------------------------------------ what a problem has to satisfy

  /** A class under which every change of an aspect is seen. */
  predicate Observes(dep: int, use: Prop) {
    match use
    case Dummy => true
    case PMin => dep != P_MAX
    case PMax => dep != P_MIN
    case PMinMax => dep != P_MIN && dep != P_MAX
    case PInt => dep == P_DOM
    case PDom => dep == P_DOM
  }

  ghost predicate InShape(p: Problem) {
    && 0 <= p.n && |p.susp| == p.n
    && (forall g :: 0 <= g < |p.fs| ==> IndexicalInShape(p, p.fs[g]))
    && (forall y, i :: 0 <= y < p.n && 0 <= i < |p.susp[y]| ==> SuspInShape(p, y, p.susp[y][i]))
  }

  predicate IndexicalInShape(p: Problem, f: Indexical) {
    && 0 <= f.d < p.n && 0 <= f.ent < p.e
    && (forall i :: 0 <= i < |f.args| ==> 0 <= f.args[i] < p.n)
    && (forall i :: 0 <= i < |f.mon| ==> 0 <= f.mon[i] < p.n)
    && (forall i :: 0 <= i < |f.amon| ==> 0 <= f.amon[i] < p.n)
  }

  /** No indexical is suspended on the variable it constrains. */
  predicate SuspInShape(p: Problem, y: int, s: Susp) {
    0 <= s.dep <= 3 && 0 <= s.f < |p.fs| && p.fs[s.f].d != y
  }

  predicate SuspendedOn(p: Problem, y: int, g: int, deps: set<int>)
    requires 0 <= y < |p.susp|
  {
    exists i :: 0 <= i < |p.susp[y]| && p.susp[y][i].f == g && p.susp[y][i].dep in deps
  }

  /** The classes under which every change of an aspect is seen. */
  function Watch(use: Prop): set<int> {
    set d | d in {P_DOM, P_MIN, P_MAX, P_MINMAX} && Observes(d, use)
  }

  /** Every argument is suspended on with a class that sees what the range uses
      of it, unless it is determined or used as a number. */
  ghost predicate ArgsWatched(p: Problem, g: int, box: Box)
    requires InShape(p) && 0 <= g < |p.fs| && |box| == p.n
  {
    var f := p.fs[g];
    var use := Props(f.e, |f.args|);
    forall i :: 0 <= i < |f.args| ==>
      Single(box[f.args[i]]) || use[i] == Dummy || SuspendedOn(p, f.args[i], g, Watch(use[i]))
  }

  /** The variables of a list that are not determined are suspended on with a
      class that sees them becoming determined. */
  ghost predicate ListWatched(p: Problem, g: int, vs: seq<int>, box: Box)
    requires |p.susp| == |box| == p.n && forall i :: 0 <= i < |vs| ==> 0 <= vs[i] < p.n
  {
    forall i :: 0 <= i < |vs| ==> Single(box[vs[i]]) || SuspendedOn(p, vs[i], g, {P_DOM, P_MINMAX})
  }

  /** Those that keep the range from only shrinking are watched. */
  ghost predicate MonWatched(p: Problem, g: int, box: Box)
    requires InShape(p) && 0 <= g < |p.fs| && |box| == p.n
  {
    assert IndexicalInShape(p, p.fs[g]);
    ListWatched(p, g, p.fs[g].mon, box)
  }

  /** Those that keep it from only growing are. */
  ghost predicate AmonWatched(p: Problem, g: int, box: Box)
    requires InShape(p) && 0 <= g < |p.fs| && |box| == p.n
  {
    assert IndexicalInShape(p, p.fs[g]);
    ListWatched(p, g, p.fs[g].amon, box)
  }

  /** mon and amon are the compiler's lists, over the actual arguments. */
  predicate MonCompiled(f: Indexical) {
    && (forall i :: i in MonOuter(f.e).0 && i < |f.args| ==> f.args[i] in f.mon)
    && (forall i :: i in MonOuter(f.e).1 && i < |f.args| ==> f.args[i] in f.amon)
  }

  ghost predicate Compiled(p: Problem, g: int, box: Box)
    requires InShape(p) && 0 <= g < |p.fs| && |box| == p.n
  {
    var f := p.fs[g];
    && MonCompiled(f) && SignsO(f.e, ArgsOf(f, box)) && ValsO(f.e, ArgsOf(f, box))
    && ArgsWatched(p, g, box) && MonWatched(p, g, box)
  }

  /** Indexicals that share an entailment variable stand for one constraint. */
  ghost predicate SameConstraint(p: Problem, box: Box, g: int, h: int)
    requires 0 <= g < |p.fs| && 0 <= h < |p.fs|
  {
    p.fs[g].ent == p.fs[h].ent ==> forall a :: Inside(a, box) && Holds(p.fs[g], a) ==> Holds(p.fs[h], a)
  }

  ghost predicate WellPosed(p: Problem, box: Box) {
    && InShape(p) && |box| == p.n
    && (forall x :: 0 <= x < p.n ==> box[x] <= Universe())
    && (forall g :: 0 <= g < |p.fs| ==> Compiled(p, g, box))
    && (forall g, h :: 0 <= g < |p.fs| && 0 <= h < |p.fs| ==> SameConstraint(p, box, g, h))
  }

  /** Domains only shrink, and a determined variable keeps its value. */
  ghost predicate Narrows(box: Box, next: Box) {
    |next| == |box| && forall x :: 0 <= x < |box| ==> next[x] <= box[x] && (Single(box[x]) ==> next[x] == box[x])
  }

  lemma SelfNarrows(box: Box)
    ensures Narrows(box, box)
  {
  }

  lemma NarrowsTwice(a: Box, b: Box, c: Box)
    requires Narrows(a, b) && Narrows(b, c)
    ensures Narrows(a, c)
  {
    forall x | 0 <= x < |a|
      ensures c[x] <= a[x] && (Single(a[x]) ==> c[x] == a[x])
    {
      assert b[x] <= a[x] && c[x] <= b[x];
    }
  }

  lemma InsideNarrows(a: seq<int>, box: Box, next: Box)
    requires Narrows(box, next) && Inside(a, next)
    ensures Inside(a, box)
  {
    forall x | 0 <= x < |a|
      ensures a[x] in box[x]
    {
      assert a[x] in next[x] && next[x] <= box[x];
    }
  }

  /** A well-posed problem stays so as domains shrink. */
  lemma WellPosedNarrows(p: Problem, box: Box, next: Box)
    requires WellPosed(p, box) && Narrows(box, next)
    ensures WellPosed(p, next)
  {
    forall x | 0 <= x < p.n
      ensures next[x] <= Universe()
    {
      assert next[x] <= box[x];
    }
    forall g | 0 <= g < |p.fs|
      ensures Compiled(p, g, next)
    {
      CompiledNarrows(p, g, box, next);
    }
    forall g, h | 0 <= g < |p.fs| && 0 <= h < |p.fs|
      ensures SameConstraint(p, next, g, h)
    {
      SameConstraintNarrows(p, box, next, g, h);
    }
  }

  lemma SameConstraintNarrows(p: Problem, box: Box, next: Box, g: int, h: int)
    requires 0 <= g < |p.fs| && 0 <= h < |p.fs|
    requires SameConstraint(p, box, g, h) && Narrows(box, next)
    ensures SameConstraint(p, next, g, h)
  {
    hide Inside, Holds, Narrows;
    forall a | Inside(a, next) && Holds(p.fs[g], a) && p.fs[g].ent == p.fs[h].ent
      ensures Holds(p.fs[h], a)
    {
      InsideNarrows(a, box, next);
    }
  }

  lemma CompiledNarrows(p: Problem, g: int, box: Box, next: Box)
    requires InShape(p) && 0 <= g < |p.fs| && |box| == p.n
    requires forall x :: 0 <= x < p.n ==> box[x] <= Universe()
    requires Compiled(p, g, box) && Narrows(box, next)
    ensures Compiled(p, g, next)
  {
    hide MonCompiled, SignsO, ValsO, Single, SuspendedOn, Watch;
    ArgsNarrow(p.fs[g], box, next);
    ValsNarrow(p.fs[g].e, ArgsOf(p.fs[g], box), ArgsOf(p.fs[g], next));
    ArgsBelow(p, g, box, next);
    SignsBelow(p.fs[g].e, ArgsOf(p.fs[g], box), ArgsOf(p.fs[g], next));
  }

  lemma ArgsBelow(p: Problem, g: int, box: Box, next: Box)
    requires InShape(p) && 0 <= g < |p.fs| && |box| == p.n && Narrows(box, next)
    requires forall x :: 0 <= x < p.n ==> box[x] <= Universe()
    ensures StoreBelow(ArgsOf(p.fs[g], next), ArgsOf(p.fs[g], box))
  {
    var f := p.fs[g];
    assert IndexicalInShape(p, f);
    var a, b := ArgsOf(f, box), ArgsOf(f, next);
    forall i | 0 <= i < |a|
      ensures b[i] <= a[i] <= Universe()
    {
      var x := f.args[i];
      assert 0 <= x < p.n && a[i] == box[x] && b[i] == next[x];
    }
  }

  lemma ArgsNarrow(f: Indexical, box: Box, next: Box)
    requires Narrows(box, next)
    ensures Narrows(ArgsOf(f, box), ArgsOf(f, next))
  {
  }

  lemma {:induction false} ValsNarrowT(t: Term, b: Args, c: Args)
    requires ValsT(t, b) && Narrows(b, c)
    ensures ValsT(t, c)
    decreases t
  {
    match t
    case Bin(_, q, r) =>
      ValsNarrowT(q, b, c);
      ValsNarrowT(r, b, c);
    case MinOf(r) => ValsNarrowR(r, b, c);
    case MaxOf(r) => ValsNarrowR(r, b, c);
    case Val(x) => assert DomAt(c, x) == DomAt(b, x);
    case MaxElem =>
    case Const(_) =>
    case MinVar(_) =>
    case MaxVar(_) =>
  }

  lemma {:induction false} ValsNarrowR(r: Range, b: Args, c: Args)
    requires ValsR(r, b) && Narrows(b, c)
    ensures ValsR(r, c)
    decreases r
  {
    match r
    case Dom(_) =>
    case Span(lo, hi) =>
      ValsNarrowT(lo, b, c);
      ValsNarrowT(hi, b, c);
    case By(_, q, t) =>
      ValsNarrowR(q, b, c);
      ValsNarrowT(t, b, c);
    case Compl(q) => ValsNarrowR(q, b, c);
    case Pair(_, q, s) =>
      ValsNarrowR(q, b, c);
      ValsNarrowR(s, b, c);
    case Check(q, s) =>
      ValsNarrowR(q, b, c);
      ValsNarrowR(s, b, c);
  }

  lemma ValsNarrow(e: Outer, b: Args, c: Args)
    requires ValsO(e, b) && Narrows(b, c)
    ensures ValsO(e, c)
  {
    match e
    case OuterSpan(lo, hi) =>
      ValsNarrowT(lo, b, c);
      ValsNarrowT(hi, b, c);
    case Inner(r) => ValsNarrowR(r, b, c);
    case Element(_, _) =>
  }

  // ------------------------------------------------ the direction of a range

  ghost predicate AllSingle(vs: seq<int>, box: Box) {
    forall i :: 0 <= i < |vs| ==> Single(Dom1(box, vs[i]))
  }

  lemma MonDetermined(f: Indexical, box: Box)
    requires MonCompiled(f)
    ensures AllSingle(f.mon, box) ==> Determined(MonOuter(f.e).0, ArgsOf(f, box))
    ensures AllSingle(f.amon, box) ==> Determined(MonOuter(f.e).1, ArgsOf(f, box))
  {
    hide MonOuter, Single;
    var b := ArgsOf(f, box);
    if AllSingle(f.mon, box) {
      forall x | x in MonOuter(f.e).0 && x < |b|
        ensures Single(b[x])
      {
        var i :| 0 <= i < |f.mon| && f.mon[i] == f.args[x];
      }
    }
    if AllSingle(f.amon, box) {
      forall x | x in MonOuter(f.e).1 && x < |b|
        ensures Single(b[x])
      {
        var i :| 0 <= i < |f.amon| && f.amon[i] == f.args[x];
      }
    }
  }

  lemma PointShrunk(f: Indexical, box: Box, a: seq<int>)
    requires Inside(a, box)
    requires forall i :: 0 <= i < |f.args| ==> 0 <= f.args[i] < |box|
    requires forall x :: 0 <= x < |box| ==> box[x] <= Universe()
    ensures Shrunk(ArgsOf(f, box), ArgsOf(f, Point(a)))
  {
    var b, c := ArgsOf(f, box), ArgsOf(f, Point(a));
    forall i | 0 <= i < |b|
      ensures c[i] != {} && c[i] <= b[i] <= Universe()
    {
      var x := f.args[i];
      assert c[i] == {a[x]} && b[i] == box[x] && a[x] in box[x];
    }
  }

  /** Every assignment in the box: with mon determined its range is within the
      range now, with amon determined it covers the range now. */
  lemma RangeAtPoint(p: Problem, g: int, box: Box, a: seq<int>)
    requires WellPosed(p, box) && 0 <= g < |p.fs| && Inside(a, box)
    ensures var f := p.fs[g];
            && (AllSingle(f.mon, box) ==> Range1(f, Point(a)) <= Range1(f, box))
            && (AllSingle(f.amon, box) ==> Range1(f, box) <= Range1(f, Point(a)))
  {
    var f := p.fs[g];
    assert IndexicalInShape(p, f) && Compiled(p, g, box);
    PointShrunk(f, box, a);
    MonDetermined(f, box);
    AnalysisSound(f.e, ArgsOf(f, box), ArgsOf(f, Point(a)));
  }

  /** Narrowing by a range that can only shrink loses no solution. */
  lemma NarrowKeepsSols(p: Problem, g: int, box: Box)
    requires WellPosed(p, box) && 0 <= g < |p.fs| && AllSingle(p.fs[g].mon, box)
    ensures var f := p.fs[g];
            Sols(p, box[f.d := box[f.d] * Range1(f, box)]) == Sols(p, box)
  {
    var f := p.fs[g];
    assert IndexicalInShape(p, f);
    var next := box[f.d := box[f.d] * Range1(f, box)];
    forall a
      ensures a in Sols(p, next) <==> a in Sols(p, box)
    {
      SolsAre(p, box, a);
      SolsAre(p, next, a);
      NarrowKeeps(p, g, box, a);
    }
  }

  lemma NarrowKeeps(p: Problem, g: int, box: Box, a: seq<int>)
    requires WellPosed(p, box) && 0 <= g < |p.fs| && AllSingle(p.fs[g].mon, box)
    ensures var f := p.fs[g];
            var next := box[f.d := box[f.d] * Range1(f, box)];
            (Inside(a, next) ==> Inside(a, box)) && (Inside(a, box) && Solves(p, a) ==> Inside(a, next))
  {
    var f := p.fs[g];
    assert IndexicalInShape(p, f);
    hide Solves, Range1, AllSingle, Holds;
    var next := box[f.d := box[f.d] * Range1(f, box)];
    if Inside(a, next) {
      forall x | 0 <= x < |a|
        ensures a[x] in box[x]
      {
        assert a[x] in next[x];
      }
    }
    if Inside(a, box) && Solves(p, a) {
      SolvesOne(p, g, a);
      RangeAtPoint(p, g, box, a);
      HoldsIn(f, a);
    }
  }

  lemma SolvesOne(p: Problem, g: int, a: seq<int>)
    requires Solves(p, a) && 0 <= g < |p.fs|
    ensures Holds(p.fs[g], a)
  {
  }

  lemma HoldsIn(f: Indexical, a: seq<int>)
    requires 0 <= f.d < |a|
    ensures Holds(f, a) <==> a[f.d] in Range1(f, Point(a))
  {
  }
}
