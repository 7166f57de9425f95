/** Suspending a compiled indexical on its arguments, and whether that meets
    what propagation relies on. */
module FdInstall {
  import opened FdWords
  import opened FdExpr
  import opened FdMono
  import opened FdDeps
  import opened FdProblem
  import opened FdFixpoint

  /** The number of a class; variables used as numbers or not at all are not
      suspended on. */
  function PropCode(use: Prop): int {
    match use
    case PDom => P_DOM
    case PMin => P_MIN
    case PMax => P_MAX
    case PMinMax => P_MINMAX
    case PInt => -1
    case Dummy => -2
  }

  predicate Watched(use: Prop) {
    use != PInt && use != Dummy
  }

  /** extract_props: the arguments to suspend on and their class numbers. */
  function DomainVars(args: seq<int>, info: Info): seq<int>
    requires |args| == |info|
  {
    if args == [] then []
    else (if Watched(info[0]) then [args[0]] else []) + DomainVars(args[1..], info[1..])
  }

  function PropVector(info: Info): seq<int> {
    if info == [] then []
    else (if Watched(info[0]) then [PropCode(info[0])] else []) + PropVector(info[1..])
  }

  lemma {:induction false} SameLength(args: seq<int>, info: Info)
    requires |args| == |info|
    ensures |DomainVars(args, info)| == |PropVector(info)|
  {
    if args != [] {
      SameLength(args[1..], info[1..]);
    }
  }

  ghost predicate PairAt(args: seq<int>, info: Info, y: int, d: int, k: int)
    requires |args| == |info|
  {
    0 <= k < |PropVector(info)| && k < |DomainVars(args, info)| && DomainVars(args, info)[k] == y
      && PropVector(info)[k] == d
  }

  predicate UseAt(args: seq<int>, info: Info, y: int, d: int, i: int)
    requires |args| == |info|
  {
    0 <= i < |args| && args[i] == y && Watched(info[i]) && PropCode(info[i]) == d
  }

  /** A pair is extracted just when it belongs to a watched argument. */
  lemma {:induction false} Extracted(args: seq<int>, info: Info, y: int, d: int)
    requires |args| == |info|
    ensures |DomainVars(args, info)| == |PropVector(info)|
    ensures (exists k :: PairAt(args, info, y, d, k)) <==> exists i :: UseAt(args, info, y, d, i)
  {
    SameLength(args, info);
    if args != [] {
      Extracted(args[1..], info[1..], y, d);
      hide DomainVars, PropVector, PairAt, UseAt;
      if i :| UseAt(args, info, y, d, i) {
        UseFirst(args, info, y, d, i);
        if i > 0 {
          var k :| PairAt(args[1..], info[1..], y, d, k);
          PairLater(args, info, y, d, k);
        }
      }
      if k :| PairAt(args, info, y, d, k) {
        PairFirst(args, info, y, d, k);
      }
    } else {
      assert forall k :: !PairAt(args, info, y, d, k);
    }
  }

  /** How many pairs the first argument gives. */
  function Given(info: Info): int {
    if info != [] && Watched(info[0]) then 1 else 0
  }

  lemma UseFirst(args: seq<int>, info: Info, y: int, d: int, i: int)
    requires |args| == |info| && UseAt(args, info, y, d, i)
    ensures i == 0 ==> PairAt(args, info, y, d, 0)
    ensures i > 0 ==> UseAt(args[1..], info[1..], y, d, i - 1)
  {
    SameLength(args, info);
  }

  lemma PairLater(args: seq<int>, info: Info, y: int, d: int, k: int)
    requires |args| == |info| && args != [] && PairAt(args[1..], info[1..], y, d, k)
    ensures PairAt(args, info, y, d, k + Given(info))
  {
    SameLength(args, info);
    VectorStep(args, info);
    hide DomainVars, PropVector, Given, Watched, PropCode;
  }

  lemma VectorStep(args: seq<int>, info: Info)
    requires |args| == |info| && args != []
    ensures Given(info) == 0 ==> DomainVars(args, info) == DomainVars(args[1..], info[1..])
    ensures Given(info) == 0 ==> PropVector(info) == PropVector(info[1..])
    ensures Given(info) != 0 ==> DomainVars(args, info) == [args[0]] + DomainVars(args[1..], info[1..])
    ensures Given(info) != 0 ==> PropVector(info) == [PropCode(info[0])] + PropVector(info[1..])
    ensures Given(info) == 0 || Given(info) == 1
  {
  }

  lemma PairFirst(args: seq<int>, info: Info, y: int, d: int, k: int)
    requires |args| == |info| && args != [] && PairAt(args, info, y, d, k)
    requires (exists h :: PairAt(args[1..], info[1..], y, d, h)) <==> exists i :: UseAt(args[1..], info[1..], y, d, i)
    ensures exists i :: UseAt(args, info, y, d, i)
  {
    SameLength(args[1..], info[1..]);
    if k < Given(info) {
      assert UseAt(args, info, y, d, 0);
    } else {
      assert PairAt(args[1..], info[1..], y, d, k - Given(info));
      var i :| UseAt(args[1..], info[1..], y, d, i);
      assert UseAt(args, info, y, d, i + 1);
    }
  }

  /** What suspending f pushes onto the list of y, the last one first. */
  function Front(f: int, dv: seq<int>, pv: seq<int>, det: seq<bool>, i: int, y: int): seq<Susp> {
    if !(0 < i <= |dv| && i <= |pv| && 0 <= y < |det|) then []
    else if dv[i - 1] == y && !det[y] then [Susp(pv[i - 1], f)] + Front(f, dv, pv, det, i - 1, y)
    else Front(f, dv, pv, det, i - 1, y)
  }

  lemma {:induction false} FrontHolds(f: int, dv: seq<int>, pv: seq<int>, det: seq<bool>, i: int, y: int, s: Susp)
    requires 0 <= i <= |dv| == |pv| && 0 <= y < |det| && !det[y]
    ensures s in Front(f, dv, pv, det, i, y) <==> exists k :: 0 <= k < i && dv[k] == y && s == Susp(pv[k], f)
    decreases i
  {
    if i > 0 {
      FrontHolds(f, dv, pv, det, i - 1, y, s);
    }
  }

  class Lists {
    /** isusp of every variable, newest suspension first. */
    var isusp: seq<seq<Susp>>

    constructor (n: nat)
      ensures isusp == seq(n, _ => [])
    {
      isusp := seq(n, _ => []);
    }

    /** suspend_indexical: f goes on the list of every argument named by dv that
        is not determined. */
    method SuspendIndexical(f: int, dv: seq<int>, pv: seq<int>, det: seq<bool>)
      requires |dv| == |pv| && |det| == |isusp| && forall i :: 0 <= i < |dv| ==> 0 <= dv[i] < |isusp|
      modifies this
      ensures |isusp| == old(|isusp|)
      ensures forall y :: 0 <= y < |isusp| ==> isusp[y] == Front(f, dv, pv, det, |dv|, y) + old(isusp)[y]
    {
      var i := 0;
      while i < |dv|
        invariant 0 <= i <= |dv| && |isusp| == old(|isusp|)
        invariant forall y :: 0 <= y < |isusp| ==> isusp[y] == Front(f, dv, pv, det, i, y) + old(isusp)[y]
      {
        var y := dv[i];
        if !det[y] {
          isusp := isusp[y := [Susp(pv[i], f)] + isusp[y]];
        }
        i := i + 1;
      }
    }
  }

  // ------------------------------------------------ what the compiler's classes see

  /** g is on the list of an undetermined variable just with the classes of the
      arguments that are this variable. */
  ghost predicate Installed(p: Problem, g: int, box: Box)
    requires InShape(p) && 0 <= g < |p.fs| && |box| == p.n
  {
    forall y, d :: 0 <= y < p.n && !Single(box[y]) ==> (Susp(d, g) in p.susp[y] <==> UsedAs(p.fs[g], y, d))
  }

  predicate UsedAs(f: Indexical, y: int, d: int) {
    var use := Props(f.e, |f.args|);
    exists i :: 0 <= i < |f.args| && f.args[i] == y && Watched(use[i]) && PropCode(use[i]) == d
  }

  /** Suspending g installs it. */
  lemma SuspendInstalls(p: Problem, g: int, box: Box, old_: seq<seq<Susp>>, det: seq<bool>)
    requires InShape(p) && 0 <= g < |p.fs| && |box| == p.n == |old_| == |det|
    requires forall y :: 0 <= y < p.n ==> (det[y] <==> Single(box[y]))
    requires forall y :: 0 <= y < p.n ==> forall s :: s in old_[y] ==> s.f != g
    requires var f := p.fs[g];
             var use := Props(f.e, |f.args|);
             forall y :: 0 <= y < p.n ==>
               p.susp[y] == Front(g, DomainVars(f.args, use), PropVector(use), det, |PropVector(use)|, y) + old_[y]
    ensures Installed(p, g, box)
  {
    var f := p.fs[g];
    var use := Props(f.e, |f.args|);
    hide Props, Single, Front, InShape;
    forall y, d | 0 <= y < p.n && !Single(box[y])
      ensures Susp(d, g) in p.susp[y] <==> UsedAs(f, y, d)
    {
      SameLength(f.args, use);
      var dv, pv := DomainVars(f.args, use), PropVector(use);
      FrontHolds(g, dv, pv, det, |pv|, y, Susp(d, g));
      Extracted(f.args, use, y, d);
      assert (exists k :: PairAt(f.args, use, y, d, k)) <==>
        exists k :: 0 <= k < |pv| && dv[k] == y && Susp(d, g) == Susp(pv[k], g) by {
        if k :| PairAt(f.args, use, y, d, k) {
          assert dv[k] == y && pv[k] == d;
        }
        if k :| 0 <= k < |pv| && dv[k] == y && Susp(d, g) == Susp(pv[k], g) {
          assert PairAt(f.args, use, y, d, k);
        }
      }
      assert UsedAs(f, y, d) <==> exists i :: UseAt(f.args, use, y, d, i) by {
        if i :| UseAt(f.args, use, y, d, i) {
          assert f.args[i] == y;
        }
        if UsedAs(f, y, d) {
          var i :| 0 <= i < |f.args| && f.args[i] == y && Watched(use[i]) && PropCode(use[i]) == d;
          assert UseAt(f.args, use, y, d, i);
        }
      }
    }
  }

  lemma CodeWatches(use: Prop)
    requires Watched(use)
    ensures PropCode(use) in Watch(use)
  {
  }

  /** A class left at "number" belongs to a variable used as a number only. */
  lemma {:induction false} NumberT(t: Term, info: Info, b: Args, x: nat)
    requires |b| == |info| && x < |info| && ValsT(t, b) && UsesT(t, info)[x] == PInt
    ensures Single(b[x]) || info[x] == PInt
    decreases t
  {
    match t
    case Bin(_, q, r) =>
      NumberT(q, UsesT(r, info), b, x);
      if UsesT(r, info)[x] == PInt {
        NumberT(r, info, b, x);
      }
    case MinOf(r) => NumberR(r, info, b, x);
    case MaxOf(r) => NumberR(r, info, b, x);
    case Val(y) =>
      if y == x {
        assert Single(DomAt(b, x));
      }
    case MaxElem =>
    case Const(_) =>
    case MinVar(_) =>
    case MaxVar(_) =>
  }

  lemma {:induction false} NumberR(r: Range, info: Info, b: Args, x: nat)
    requires |b| == |info| && x < |info| && ValsR(r, b) && UsesR(r, info)[x] == PInt
    ensures Single(b[x]) || info[x] == PInt
    decreases r
  {
    match r
    case Dom(_) =>
    case Span(lo, hi) =>
      NumberT(lo, UsesT(hi, info), b, x);
      if UsesT(hi, info)[x] == PInt {
        NumberT(hi, info, b, x);
      }
    case By(_, q, t) =>
      NumberR(q, UsesT(t, info), b, x);
      if UsesT(t, info)[x] == PInt {
        NumberT(t, info, b, x);
      }
    case Compl(q) => NumberR(q, info, b, x);
    case Pair(_, q, s) =>
      NumberR(q, UsesR(s, info), b, x);
      if UsesR(s, info)[x] == PInt {
        NumberR(s, info, b, x);
      }
    case Check(q, s) =>
      NumberR(s, UsesR(q, info), b, x);
      if UsesR(q, info)[x] == PInt {
        NumberR(q, info, b, x);
      }
  }

  lemma NumberO(e: Outer, b: Args, x: nat)
    requires x < |b| && ValsO(e, b) && Props(e, |b|)[x] == PInt
    ensures Single(b[x])
  {
    var info := seq(|b|, _ => Dummy);
    match e
    case OuterSpan(lo, hi) =>
      NumberT(lo, UsesT(hi, info), b, x);
      if UsesT(hi, info)[x] == PInt {
        NumberT(hi, info, b, x);
      }
    case Inner(r) => NumberR(r, info, b, x);
    case Element(_, _) =>
  }

  /** An installed indexical is suspended on everything its range looks at. */
  lemma InstalledWatches(p: Problem, g: int, box: Box)
    requires InShape(p) && 0 <= g < |p.fs| && |box| == p.n
    requires Installed(p, g, box) && ValsO(p.fs[g].e, ArgsOf(p.fs[g], box))
    ensures ArgsWatched(p, g, box)
  {
    var f := p.fs[g];
    var use := Props(f.e, |f.args|);
    assert IndexicalInShape(p, f);
    hide Props, Single, Watch, ValsO, InShape;
    forall i | 0 <= i < |f.args|
      ensures Single(box[f.args[i]]) || use[i] == Dummy || SuspendedOn(p, f.args[i], g, Watch(use[i]))
    {
      var y := f.args[i];
      if use[i] == PInt {
        NumberO(f.e, ArgsOf(f, box), i);
      } else if use[i] != Dummy && !Single(box[y]) {
        assert UsedAs(f, y, PropCode(use[i]));
        assert Susp(PropCode(use[i]), g) in p.susp[y];
        CodeWatches(use[i]);
      }
    }
  }

  /** Exactly these classes see every variable becoming determined. */
  lemma DeterminationSeen(dep: int)
    requires 0 <= dep <= 3
    ensures (forall s, t :: t <= s <= Universe() && !Single(s) && Single(t) ==> !NotAffected(dep, ChangeOf(s, t)))
            <==> dep == P_DOM || dep == P_MINMAX
  {
    if dep == P_DOM || dep == P_MINMAX {
      forall s, t | t <= s <= Universe() && !Single(s) && Single(t)
        ensures !NotAffected(dep, ChangeOf(s, t))
      {
        DeterminedMoves(s, t);
        ChangeInRange(s, t);
      }
    } else {
      var s: set<int>, v := {0, 1}, if dep == P_MIN then 0 else 1;
      Bits01(v);
      var t := {v};
      assert t <= s <= Universe() && !Single(s) && Single(t) && NotAffected(dep, ChangeOf(s, t));
    }
  }

  lemma Bits01(v: int)
    requires v == 0 || v == 1
    ensures !Single({0, 1}) && Single({v}) && ChangeOf({0, 1}, {v}) == if v == 0 then P_MAX else P_MIN
  {
    BoundsOf({0, 1}, 0, 1);
    BoundsOf({v}, v, v);
    TwoValues();
    var t := {v};
    assert t == {v};
  }

  lemma TwoValues()
    ensures !Single({0, 1})
  {
    forall u
      ensures {0, 1} != {u}
    {
      assert 0 in {0, 1} && 1 in {0, 1};
    }
  }

  /** Each variable of a list that is not yet determined is used as a domain or
      with both bounds. */
  ghost predicate BoundsUsed(f: Indexical, vs: seq<int>, box: Box) {
    forall i :: 0 <= i < |vs| && !Single(Dom1(box, vs[i])) ==> UsedAs(f, vs[i], P_DOM) || UsedAs(f, vs[i], P_MINMAX)
  }

  /** The compiler's classes see every change of direction just when each
      variable that decides it, and is not yet determined, is used as a domain
      or with both bounds: those of mon, for what may only shrink, and those of
      amon, for what is entailed. */
  lemma DirectionWatched(p: Problem, g: int, box: Box)
    requires InShape(p) && 0 <= g < |p.fs| && |box| == p.n && Installed(p, g, box)
    ensures MonWatched(p, g, box) <==> BoundsUsed(p.fs[g], p.fs[g].mon, box)
    ensures AmonWatched(p, g, box) <==> BoundsUsed(p.fs[g], p.fs[g].amon, box)
  {
    assert IndexicalInShape(p, p.fs[g]);
    hide Installed, ListWatched, BoundsUsed, InShape;
    ListUsed(p, g, p.fs[g].mon, box);
    ListUsed(p, g, p.fs[g].amon, box);
  }

  lemma ListUsed(p: Problem, g: int, vs: seq<int>, box: Box)
    requires InShape(p) && 0 <= g < |p.fs| && |box| == p.n && Installed(p, g, box)
    requires forall i :: 0 <= i < |vs| ==> 0 <= vs[i] < p.n
    ensures ListWatched(p, g, vs, box) <==> BoundsUsed(p.fs[g], vs, box)
  {
    var f := p.fs[g];
    hide Single, UsedAs, InShape;
    forall i | 0 <= i < |vs| && !Single(box[vs[i]])
      ensures SuspendedOn(p, vs[i], g, {P_DOM, P_MINMAX}) <==> UsedAs(f, vs[i], P_DOM) || UsedAs(f, vs[i], P_MINMAX)
    {
      var y := vs[i];
      OnList(p, y, g);
      assert Susp(P_DOM, g) in p.susp[y] <==> UsedAs(f, y, P_DOM);
      assert Susp(P_MINMAX, g) in p.susp[y] <==> UsedAs(f, y, P_MINMAX);
    }
    assert forall i :: 0 <= i < |vs| ==> Dom1(box, vs[i]) == box[vs[i]];
  }

  lemma OnList(p: Problem, y: int, g: int)
    requires 0 <= y < |p.susp|
    ensures SuspendedOn(p, y, g, {P_DOM, P_MINMAX}) <==> Susp(P_DOM, g) in p.susp[y] || Susp(P_MINMAX, g) in p.susp[y]
  {
    if SuspendedOn(p, y, g, {P_DOM, P_MINMAX}) {
      var i :| 0 <= i < |p.susp[y]| && p.susp[y][i].f == g && p.susp[y][i].dep in {P_DOM, P_MINMAX};
      assert p.susp[y][i] == Susp(P_DOM, g) || p.susp[y][i] == Susp(P_MINMAX, g);
    }
  }

  // ------------------------------------------------ a change that is missed

  /** X in 0..min(Y), as it is compiled and installed. */
  function BelowMin(): Indexical {
    Indexical(0, OuterSpan(Const(0), MinVar(0)), [1], 0, false, 0, [1], [])
  }

  function BelowMinProblem(): Problem {
    Problem(2, [BelowMin()], [[], [Susp(P_MIN, 0)]], 1)
  }

  function Start(): Pass {
    Pass([{0, 1, 2}, {0, 1}], [false], [0, 0], [0, 0], [0], 0, [], 0, map[0 := [{0, 1, 2}, {0, 1}]])
  }

  /** The class of Y is the minimum. Labelling Y with its minimum 0 leaves the
      minimum alone, so the indexical, which only now can do something, is
      passed over: X keeps the values 1 and 2, which are no solutions. */
  lemma LabelMissed()
    ensures var p, s := BelowMinProblem(), Narrowed(Start(), 1, {0});
            && InForm(p, s) && Installed(p, 0, Start().box) && MonCompiled(p.fs[0])
            && Reached(p, s, 0) && PassedOver(p, s, 0)
            && AllSingle(p.fs[0].mon, s.box) && !Entailed(p, s, 0) && !Settled(p.fs[0], s.box)
            && Inside([1, 0], s.box) && !Solves(p, [1, 0])
  {
    var p, s := BelowMinProblem(), Narrowed(Start(), 1, {0});
    assert MonOuter(BelowMin().e) == ([0], []);
    Bits01(0);
    MissedForm(p, s);
    MissedInstalled(p);
    MissedRange(p, s);
  }

  lemma MissedForm(p: Problem, s: Pass)
    requires p == BelowMinProblem() && s == Narrowed(Start(), 1, {0}) && ChangeOf({0, 1}, {0}) == P_MAX && Single({0})
    ensures InForm(p, s) && Reached(p, s, 0) && PassedOver(p, s, 0) && !Entailed(p, s, 0)
    ensures s.box == [{0, 1, 2}, {0}] && AllSingle(p.fs[0].mon, s.box)
  {
    hide ChangeOf, Single;
  }

  lemma MissedInstalled(p: Problem)
    requires p == BelowMinProblem()
    ensures InShape(p) && Installed(p, 0, Start().box)
  {
    var f := p.fs[0];
    assert Props(f.e, |f.args|) == [PMin];
    hide Props;
    forall y, d | 0 <= y < p.n
      ensures Susp(d, 0) in p.susp[y] <==> UsedAs(f, y, d)
    {
      assert UsedAs(f, y, d) <==> f.args[0] == y && d == P_MIN;
      assert p.susp[1] == [Susp(P_MIN, 0)];
    }
  }

  lemma MissedRange(p: Problem, s: Pass)
    requires p == BelowMinProblem() && s.box == [{0, 1, 2}, {0}]
    ensures !Settled(p.fs[0], s.box) && Inside([1, 0], s.box) && !Solves(p, [1, 0])
  {
    var f := p.fs[0];
    BoundsOf({0}, 0, 0);
    assert ArgsOf(f, s.box) == [{0}] && ArgsOf(f, Point([1, 0])) == [{0}];
    assert Range1(f, s.box) == Interval(0, 0) == Range1(f, Point([1, 0]));
    assert 1 in Dom1(s.box, 0);
    assert !Holds(f, [1, 0]);
  }

  /** What the pass over that label ends with. */
  ghost function MissedEnd(): Pass {
    Advanced(Skipped(Narrowed(Start(), 1, {0})))
  }

  /** X in 0..min(Y) holds just for the assignments with 0 <= X <= Y. */
  lemma BelowSolves(a: seq<int>)
    requires |a| == 2
    ensures Solves(BelowMinProblem(), a) <==> 0 <= a[0] <= a[1]
  {
    var p, f := BelowMinProblem(), BelowMin();
    BoundsOf({a[1]}, a[1], a[1]);
    assert ArgsOf(f, Point(a)) == [{a[1]}];
    assert Range1(f, Point(a)) == Interval(0, a[1]);
    hide Range1;
    assert Solves(p, a) <==> Holds(p.fs[0], a);
  }

  lemma BelowSols(box: Box, a: seq<int>)
    requires |box| == 2
    ensures a in Sols(BelowMinProblem(), box) <==> |a| == 2 && a[0] in box[0] && a[1] in box[1] && 0 <= a[0] <= a[1]
  {
    SolsAre(BelowMinProblem(), box, a);
    if |a| == 2 {
      BelowSolves(a);
    }
    hide Sols, Solves;
  }

  /** The count goes wrong. Labelling Y with 0 ends with an empty queue and X in
      {0, 1, 2}; nothing is suspended on X, so labelling X propagates nothing and
      each of its three values is counted, though only one solves the problem.
      With the two solutions for Y = 1 that makes five, where there are three. */
  lemma LabelMiscounts()
    ensures var p, e := BelowMinProblem(), MissedEnd();
            && e.q == [] && e.box == [{0, 1, 2}, {0}] && p.susp[0] == []
            && Sols(p, e.box) == {[0, 0]} && Sols(p, [{0, 1, 2}, {1}]) == {[0, 1], [1, 1]}
            && |Sols(p, Start().box)| == 3
            && |e.box[0]| + |Sols(p, [{0, 1, 2}, {1}])| == 5
  {
    var p, e := BelowMinProblem(), MissedEnd();
    EndIs();
    hide Sols, MissedEnd;
    var none, one, all := [{0, 1, 2}, {0}], [{0, 1, 2}, {1}], Start().box;
    forall a
      ensures a in Sols(p, none) <==> a in {[0, 0]}
      ensures a in Sols(p, one) <==> a in {[0, 1], [1, 1]}
      ensures a in Sols(p, all) <==> a in {[0, 0], [0, 1], [1, 1]}
    {
      BelowSols(none, a);
      BelowSols(one, a);
      BelowSols(all, a);
      TwoLong(a);
    }
    assert Sols(p, none) == {[0, 0]};
    assert Sols(p, one) == {[0, 1], [1, 1]};
    assert Sols(p, all) == {[0, 0], [0, 1], [1, 1]};
    assert [0, 1][0] == 0 && [1, 1][0] == 1;
    assert [0, 0][1] == 0 && [0, 1][1] == 1;
  }

  lemma EndIs()
    ensures MissedEnd().q == [] && MissedEnd().box == [{0, 1, 2}, {0}]
  {
    hide ChangeOf;
  }

  // ------------------------------------------------ an entailment that is missed

  /** X in 0..max(Y), as it is compiled and installed. */
  function BelowMax(): Indexical {
    Indexical(0, OuterSpan(Const(0), MaxVar(0)), [1], 0, true, 0, [], [1])
  }

  function BelowMaxProblem(): Problem {
    Problem(2, [BelowMax()], [[], [Susp(P_MAX, 0)]], 1)
  }

  function StartBelow(): Pass {
    Pass([{0, 1}, {0, 1}], [false], [0, 0], [0, 0], [0], 0, [], 0, map[0 := [{0, 1}, {0, 1}]])
  }

  /** The class of Y is the maximum. Labelling Y with its maximum 1 leaves the
      maximum alone, so the indexical is passed over: at rest its range is
      constant and has the domain of X in it, and yet it is not marked. */
  lemma EntailmentMissed()
    ensures var p, s := BelowMaxProblem(), Narrowed(StartBelow(), 1, {1});
            && InForm(p, s) && Installed(p, 0, StartBelow().box) && MonCompiled(p.fs[0])
            && Reached(p, s, 0) && PassedOver(p, s, 0)
            && var e := Advanced(Skipped(s));
               && e.q == [] && AllSingle(p.fs[0].mon, e.box) && AllSingle(p.fs[0].amon, e.box)
               && Settled(p.fs[0], e.box) && !Entailed(p, e, 0)
  {
    var p, s := BelowMaxProblem(), Narrowed(StartBelow(), 1, {1});
    assert MonOuter(BelowMax().e) == ([], [0]);
    Bits01(1);
    BelowForm(p, s);
    BelowInstalled(p);
    BelowRange(p, Advanced(Skipped(s)));
  }

  lemma BelowForm(p: Problem, s: Pass)
    requires p == BelowMaxProblem() && s == Narrowed(StartBelow(), 1, {1}) && ChangeOf({0, 1}, {1}) == P_MIN
    requires Single({1})
    ensures InForm(p, s) && Reached(p, s, 0) && PassedOver(p, s, 0) && !Entailed(p, s, 0)
    ensures s.box == [{0, 1}, {1}] && s.q == [1] && AllSingle(p.fs[0].mon, s.box) && AllSingle(p.fs[0].amon, s.box)
  {
    hide ChangeOf, Single;
  }

  lemma BelowInstalled(p: Problem)
    requires p == BelowMaxProblem()
    ensures InShape(p) && Installed(p, 0, StartBelow().box)
  {
    var f := p.fs[0];
    assert Props(f.e, |f.args|) == [PMax];
    hide Props;
    forall y, d | 0 <= y < p.n
      ensures Susp(d, 0) in p.susp[y] <==> UsedAs(f, y, d)
    {
      assert UsedAs(f, y, d) <==> f.args[0] == y && d == P_MAX;
      assert p.susp[1] == [Susp(P_MAX, 0)];
    }
  }

  lemma BelowRange(p: Problem, e: Pass)
    requires p == BelowMaxProblem() && e.box == [{0, 1}, {1}]
    ensures Settled(p.fs[0], e.box)
  {
    var f := p.fs[0];
    BoundsOf({1}, 1, 1);
    assert ArgsOf(f, e.box) == [{1}];
    assert Range1(f, e.box) == Interval(0, 1);
    assert Dom1(e.box, 0) == {0, 1};
  }

  lemma TwoLong(a: seq<int>)
    ensures |a| == 2 ==> a == [a[0], a[1]]
  {
  }
}
