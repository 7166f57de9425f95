/** A whole problem: its indexicals are loaded and suspended one after the
    other, and then it is what propagation and search rely on. */
module FdSetup {
  import opened FdWords
  import opened FdExpr
  import opened FdMono
  import opened FdDeps
  import opened FdCode
  import opened FdMachine
  import opened FdProblem
  import opened FdInstall
  import opened FdElement

  /** The code area after the first k indexicals have been loaded. */
  function LoadedTo(fs: seq<Indexical>, k: int): Loading
    decreases k
  {
    if k <= 0 || k > |fs| then Loading([], [])
    else
      var st := LoadedTo(fs, k - 1);
      if st == Full then Full else LoadAll(st, ParseO(fs[k - 1].e) + [Put(FD_HALT)])
  }

  /** Where the code of the indexical g begins. */
  function CodeStart(fs: seq<Indexical>, g: int): int {
    var st := LoadedTo(fs, g);
    if st.Loading? then |st.code| else -1
  }

  /** The suspension list of y after the first k indexicals have been suspended. */
  function ListTo(fs: seq<Indexical>, det: seq<bool>, k: int, y: int): seq<Susp>
    decreases k
  {
    if k <= 0 || k > |fs| then []
    else
      var use := Props(fs[k - 1].e, |fs[k - 1].args|);
      Front(k - 1, DomainVars(fs[k - 1].args, use), PropVector(use), det, |PropVector(use)|, y) + ListTo(fs, det,
        k - 1, y)
  }

  /** The problem has been set up this way. */
  ghost predicate SetUp(p: Problem, det: seq<bool>) {
    && 0 <= p.n && |p.susp| == |det| == p.n
    && LoadedTo(p.fs, |p.fs|) != Full
    && (forall g :: 0 <= g < |p.fs| ==> p.fs[g].code == CodeStart(p.fs, g) && NestO(p.fs[g].e) <= CheckDepth)
    && (forall y :: 0 <= y < p.n ==> p.susp[y] == ListTo(p.fs, det, |p.fs|, y))
  }

  // ------------------------------------------------ code

  lemma {:induction false} LoadedSteps(fs: seq<Indexical>, k: int)
    requires 0 <= k <= |fs| && LoadedTo(fs, k) != Full
    requires forall g :: 0 <= g < |fs| ==> NestO(fs[g].e) <= CheckDepth
    ensures LoadedTo(fs, k).Loading? && LoadedTo(fs, k).labels == []
    ensures forall g :: 0 <= g < k ==> CodeAt(fs, k, g)
    decreases k
  {
    if k > 0 {
      LoadedSteps(fs, k - 1);
      OneLoaded(fs, k);
      hide *;
      forall g | 0 <= g < k
        ensures CodeAt(fs, k, g)
      {
        if g < k - 1 {
          CodeStays(fs, k, g);
        }
      }
    }
  }

  /** Loading one more. */
  lemma OneLoaded(fs: seq<Indexical>, k: int)
    requires 0 < k <= |fs| && LoadedTo(fs, k) != Full && NestO(fs[k - 1].e) <= CheckDepth
    requires LoadedTo(fs, k - 1).Loading? && LoadedTo(fs, k - 1).labels == []
    ensures LoadedTo(fs, k).Loading? && LoadedTo(fs, k).labels == [] && CodeAt(fs, k, k - 1)
    ensures LoadedTo(fs, k - 1).code <= LoadedTo(fs, k).code
  {
    LoadedAt(fs[k - 1].e, LoadedTo(fs, k - 1), LoadedTo(fs, k));
  }

  lemma CodeStays(fs: seq<Indexical>, k: int, g: int)
    requires 0 <= g < k - 1 < |fs| && CodeAt(fs, k - 1, g)
    requires LoadedTo(fs, k - 1).Loading? && LoadedTo(fs, k).Loading?
    requires LoadedTo(fs, k - 1).code <= LoadedTo(fs, k).code
    ensures CodeAt(fs, k, g)
  {
    hide LoadedTo, CodeO, CodeStart, At;
    StillAt(LoadedTo(fs, k - 1).code, LoadedTo(fs, k).code, CodeStart(fs, g), CodeO(fs[g].e, CodeStart(fs, g)));
  }

  /** After k indexicals the code of g lies where it was loaded. */
  ghost predicate CodeAt(fs: seq<Indexical>, k: int, g: int)
    requires 0 <= g < |fs|
  {
    LoadedTo(fs, k).Loading? && At(LoadedTo(fs, k).code, CodeStart(fs, g), CodeO(fs[g].e, CodeStart(fs, g)))
  }

  lemma StillAt(code: seq<int>, more: seq<int>, pc: int, c: seq<int>)
    requires code <= more && At(code, pc, c)
    ensures At(more, pc, c)
  {
    assert more[pc..pc + |c|] == code[pc..pc + |c|];
  }

  // ------------------------------------------------ suspensions

  lemma {:induction false} FrontOf(g: int, dv: seq<int>, pv: seq<int>, det: seq<bool>, i: int, y: int, s: Susp)
    ensures s in Front(g, dv, pv, det, i, y) ==> s.f == g && exists k ::
            0 <= k < |dv| && k < |pv| && dv[k] == y && pv[k] == s.dep
    decreases i
  {
    if 0 < i <= |dv| && i <= |pv| {
      FrontOf(g, dv, pv, det, i - 1, y, s);
    }
  }

  /** A list holds suspensions of an indexical just as suspending it put them
      there. */
  lemma {:induction false} ListHas(fs: seq<Indexical>, det: seq<bool>, k: int, y: int, g: int, s: Susp)
    requires 0 <= k <= |fs| && 0 <= g < |fs| && s.f == g
    ensures s in ListTo(fs, det, k, y) <==> g < k && s in Fronted(fs, det, g, y)
    decreases k
  {
    if k > 0 {
      ListHas(fs, det, k - 1, y, g, s);
      var use := Props(fs[k - 1].e, |fs[k - 1].args|);
      FrontOf(k - 1, DomainVars(fs[k - 1].args, use), PropVector(use), det, |PropVector(use)|, y, s);
    }
  }

  function Fronted(fs: seq<Indexical>, det: seq<bool>, g: int, y: int): seq<Susp>
    requires 0 <= g < |fs|
  {
    var use := Props(fs[g].e, |fs[g].args|);
    Front(g, DomainVars(fs[g].args, use), PropVector(use), det, |PropVector(use)|, y)
  }

  lemma {:induction false} ListFrom(fs: seq<Indexical>, det: seq<bool>, k: int, y: int, s: Susp)
    requires 0 <= k <= |fs| && s in ListTo(fs, det, k, y)
    ensures 0 <= s.f < k && s in Fronted(fs, det, s.f, y)
    decreases k
  {
    if k > 0 {
      var use := Props(fs[k - 1].e, |fs[k - 1].args|);
      FrontOf(k - 1, DomainVars(fs[k - 1].args, use), PropVector(use), det, |PropVector(use)|, y, s);
      if s !in Fronted(fs, det, k - 1, y) {
        ListFrom(fs, det, k - 1, y, s);
      }
    }
  }

  // ------------------------------------------------ the problem

  /** What the compiler and the program have to provide: indices in range, no
      indexical over its own variable, the compiler's lists, signs as the
      analysis supposes, numbers determined, and one meaning for indexicals that
      share an entailment variable. */
  ghost predicate Provided(p: Problem, box: Box) {
    && |box| == p.n && (forall x :: 0 <= x < p.n ==> box[x] <= Universe())
    && (forall g :: 0 <= g < |p.fs| ==> ProvidedOne(p, g, box))
    && (forall g, h :: 0 <= g < |p.fs| && 0 <= h < |p.fs| ==> SameConstraint(p, box, g, h))
  }

  ghost predicate ProvidedOne(p: Problem, g: int, box: Box)
    requires 0 <= g < |p.fs| && |box| == p.n
  {
    var f := p.fs[g];
    && IndexicalInShape(p, f) && f.d !in f.args && MonCompiled(f)
    && SignsO(f.e, ArgsOf(f, box)) && ValsO(f.e, ArgsOf(f, box))
  }

  /** The condition under which the compiler's classes see every change of
      direction. */
  ghost predicate SeesDirection(p: Problem, box: Box) {
    forall g, i :: 0 <= g < |p.fs| && 0 <= i < |p.fs[g].mon| && !Single(Dom1(box, p.fs[g].mon[i])) ==>
      DirectionUse(p.fs[g], p.fs[g].mon[i])
  }

  predicate DirectionUse(f: Indexical, y: int) {
    UsedAs(f, y, P_DOM) || UsedAs(f, y, P_MINMAX)
  }

  lemma SetUpShape(p: Problem, det: seq<bool>, box: Box)
    requires SetUp(p, det) && Provided(p, box)
    ensures InShape(p)
  {
    forall g | 0 <= g < |p.fs|
      ensures IndexicalInShape(p, p.fs[g])
    {
      assert ProvidedOne(p, g, box);
    }
    forall y, i | 0 <= y < p.n && 0 <= i < |p.susp[y]|
      ensures SuspInShape(p, y, p.susp[y][i])
    {
      var s := p.susp[y][i];
      assert s in p.susp[y];
      ListFrom(p.fs, det, |p.fs|, y, s);
      assert ProvidedOne(p, s.f, box);
      FrontedUse(p.fs, det, s.f, y, s);
    }
  }

  lemma FrontedUse(fs: seq<Indexical>, det: seq<bool>, g: int, y: int, s: Susp)
    requires 0 <= g < |fs| && s in Fronted(fs, det, g, y)
    ensures s.f == g && 0 <= s.dep <= 3 && y in fs[g].args
  {
    var f := fs[g];
    var use := Props(f.e, |f.args|);
    hide Props;
    var dv, pv := DomainVars(f.args, use), PropVector(use);
    FrontOf(g, dv, pv, det, |pv|, y, s);
    var k :| 0 <= k < |dv| && k < |pv| && dv[k] == y && pv[k] == s.dep;
    Extracted(f.args, use, y, s.dep);
    assert PairAt(f.args, use, y, s.dep, k);
    var i :| UseAt(f.args, use, y, s.dep, i);
    assert f.args[i] == y;
  }

  lemma SetUpInstalled(p: Problem, det: seq<bool>, box: Box, g: int)
    requires SetUp(p, det) && Provided(p, box) && InShape(p) && 0 <= g < |p.fs|
    requires forall y :: 0 <= y < p.n ==> (det[y] <==> Single(box[y]))
    ensures Installed(p, g, box)
  {
    var f := p.fs[g];
    var use := Props(f.e, |f.args|);
    hide Props, Single, InShape, SetUp;
    var dv, pv := DomainVars(f.args, use), PropVector(use);
    SameLength(f.args, use);
    forall y, d | 0 <= y < p.n && !Single(box[y])
      ensures Susp(d, g) in p.susp[y] <==> UsedAs(f, y, d)
    {
      ListOfIs(p, det, y);
      ListHas(p.fs, det, |p.fs|, y, g, Susp(d, g));
      FrontHolds(g, dv, pv, det, |pv|, y, Susp(d, g));
      Extracted(f.args, use, y, d);
      PairsAre(f, use, g, y, d);
    }
  }

  lemma ListOfIs(p: Problem, det: seq<bool>, y: int)
    requires SetUp(p, det) && 0 <= y < p.n
    ensures |p.susp| == |det| == p.n && p.susp[y] == ListTo(p.fs, det, |p.fs|, y)
  {
  }

  lemma PairsAre(f: Indexical, use: Info, g: int, y: int, d: int)
    requires use == Props(f.e, |f.args|) && |use| == |f.args|
    requires (exists k :: PairAt(f.args, use, y, d, k)) <==> exists i :: UseAt(f.args, use, y, d, i)
    requires |DomainVars(f.args, use)| == |PropVector(use)|
    ensures var dv, pv := DomainVars(f.args, use), PropVector(use);
            (exists k :: 0 <= k < |pv| && dv[k] == y && Susp(d, g) == Susp(pv[k], g)) <==> UsedAs(f, y, d)
  {
    hide Props, DomainVars, PropVector;
    var dv, pv := DomainVars(f.args, use), PropVector(use);
    if k :| 0 <= k < |pv| && dv[k] == y && Susp(d, g) == Susp(pv[k], g) {
      assert PairAt(f.args, use, y, d, k);
      var i :| UseAt(f.args, use, y, d, i);
      assert f.args[i] == y;
    }
    if UsedAs(f, y, d) {
      var i :| 0 <= i < |f.args| && f.args[i] == y && Watched(use[i]) && PropCode(use[i]) == d;
      assert UseAt(f.args, use, y, d, i);
      var k :| PairAt(f.args, use, y, d, k);
      assert dv[k] == y && pv[k] == d;
    }
  }

  /** A problem set up from what the compiler provides is well posed, as far as
      the classes see every change of direction, and its code is loaded: what
      propagation and search ask for. */
  lemma SetUpReady(p: Problem, det: seq<bool>, box: Box)
    requires SetUp(p, det) && Provided(p, box) && SeesDirection(p, box)
    requires forall y :: 0 <= y < p.n ==> (det[y] <==> Single(box[y]))
    ensures WellPosed(p, box) && LoadedTo(p.fs, |p.fs|).Loading?
    ensures forall g :: 0 <= g < |p.fs| ==> At(LoadedTo(p.fs, |p.fs|).code, p.fs[g].code,
            CodeO(p.fs[g].e, p.fs[g].code))
  {
    SetUpShape(p, det, box);
    forall g | 0 <= g < |p.fs|
      ensures Compiled(p, g, box)
    {
      SetUpInstalled(p, det, box, g);
      SetUpCompiled(p, box, g);
    }
    LoadedSteps(p.fs, |p.fs|);
    hide CodeO, LoadedTo, InShape, Single;
    forall g | 0 <= g < |p.fs|
      ensures At(LoadedTo(p.fs, |p.fs|).code, p.fs[g].code, CodeO(p.fs[g].e, p.fs[g].code))
    {
      assert CodeAt(p.fs, |p.fs|, g);
    }
  }

  lemma SetUpCompiled(p: Problem, box: Box, g: int)
    requires InShape(p) && Provided(p, box) && SeesDirection(p, box) && 0 <= g < |p.fs| && Installed(p, g, box)
    ensures Compiled(p, g, box)
  {
    assert ProvidedOne(p, g, box);
    hide Installed, MonCompiled, SignsO, ValsO, UsedAs;
    InstalledWatches(p, g, box);
    DirectionWatched(p, g, box);
    forall i | 0 <= i < |p.fs[g].mon| && !Single(Dom1(box, p.fs[g].mon[i]))
      ensures UsedAs(p.fs[g], p.fs[g].mon[i], P_DOM) || UsedAs(p.fs[g], p.fs[g].mon[i], P_MINMAX)
    {
      assert DirectionUse(p.fs[g], p.fs[g].mon[i]);
    }
    assert MonWatched(p, g, box);
  }

  // ------------------------------------------------ element

  /** The two indexicals of element(I, L, X): X in the values of L at I, and I in
      the positions of X in L. */
  predicate ElementPair(f: Indexical, g: Indexical, i: int, list: seq<int>, x: int) {
    && f.e == Element(true, list) && f.args == [i] && f.d == x
    && g.e == Element(false, list) && g.args == [x] && g.d == i
  }

  /** They hold for the same assignments, those with L(I) = X, so they may share
      an entailment variable. */
  lemma ElementSame(f: Indexical, g: Indexical, i: int, list: seq<int>, x: int, box: Box, a: seq<int>)
    requires ElementPair(f, g, i, list, x) && Inside(a, box) && 0 <= i < |box| && 0 <= x < |box|
    requires forall y :: 0 <= y < |box| ==> box[y] <= Universe()
    ensures Holds(f, a) <==> Position(list, a[i]) && ListAt(list, a[i]) == a[x]
    ensures Holds(g, a) <==> Position(list, a[i]) && ListAt(list, a[i]) == a[x]
  {
    BothHold(a[i], a[x], list);
    var c := Point(a);
    assert a[i] in box[i] && a[x] in box[x];
    assert ArgsOf(f, c)[0] == {a[i]} && ArgsOf(g, c)[0] == {a[x]};
  }
}
