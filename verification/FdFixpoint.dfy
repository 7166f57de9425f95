/** The propagation loop as a machine over domains, and the invariant that
    every step of it keeps. */
module FdFixpoint {
  import opened FdWords
  import opened FdExpr
  import opened FdMono
  import opened FdDeps
  import opened FdProblem

  /** The domains, the entailment variables bound so far, the change class and
      the time stamp of every variable, the time of the last execution of every
      indexical, the clock, the queue, and the place reached in the suspension
      list of its head; and, for the proof, the domains that each indexical was
      last run in. */
  datatype Pass = Pass(box: Box, ent: seq<bool>, change: seq<int>, time: seq<int>,
                       last: seq<int>, now: int, q: seq<int>, at: int, ran: map<int, Box>)

  ghost predicate InForm(p: Problem, s: Pass) {
    && InShape(p) && |p.susp| == |s.box| == |s.change| == |s.time| == p.n && |s.ent| == p.e && |s.last| == |p.fs|
    && (forall k :: 0 <= k < |s.q| ==> 0 <= s.q[k] < p.n)
    && (forall y :: 0 <= y < p.n ==> 0 <= s.change[y] <= 3 && s.time[y] <= s.now)
    && (forall g :: 0 <= g < |p.fs| ==> s.last[g] <= s.now)
  }

  /** The i-th suspension on the k-th variable of the queue will run g. */
  ghost predicate Wakes(p: Problem, s: Pass, k: int, i: int, g: int) {
    && 0 <= k < |s.q| && 0 <= s.q[k] < |p.susp| && 0 <= i < |p.susp[s.q[k]]|
    && s.q[k] < |s.change| && s.q[k] < |s.time| && 0 <= g < |s.last|
    && (k == 0 ==> i >= s.at)
    && p.susp[s.q[k]][i].f == g
    && !NotAffected(p.susp[s.q[k]][i].dep, s.change[s.q[k]])
    && s.last[g] <= s.time[s.q[k]]
  }

  ghost predicate Pending(p: Problem, s: Pass, g: int) {
    exists k, i :: Wakes(p, s, k, i, g)
  }

  ghost predicate Entailed(p: Problem, s: Pass, g: int)
    requires 0 <= g < |p.fs|
  {
    0 <= p.fs[g].ent < |s.ent| && s.ent[p.fs[g].ent]
  }

  /** The domain the indexical constrains is within its range. */
  ghost predicate Settled(f: Indexical, box: Box) {
    Dom1(box, f.d) <= Range1(f, box)
  }

  /** Nothing is left to be done about g, or it is going to be run. */
  ghost predicate Served(p: Problem, s: Pass, g: int)
    requires 0 <= g < |p.fs|
  {
    Entailed(p, s, g) || !AllSingle(p.fs[g].mon, s.box) || Settled(p.fs[g], s.box) || Pending(p, s, g)
  }

  /** An entailed indexical holds for every assignment in the box. */
  ghost predicate EntailedHolds(p: Problem, s: Pass, g: int)
    requires 0 <= g < |p.fs|
  {
    Entailed(p, s, g) ==> forall a :: Inside(a, s.box) ==> Holds(p.fs[g], a)
  }

  /** Nothing that g uses, and nothing that decides its direction, differs
      between two boxes. */
  ghost predicate Unseen(f: Indexical, was: Box, box: Box) {
    && SameViews(Props(f.e, |f.args|), ArgsOf(f, was), ArgsOf(f, box))
    && forall y :: (y in f.mon || y in f.amon) && Single(Dom1(box, y)) ==> Single(Dom1(was, y))
  }

  /** The directions in which an indexical is not run. */
  ghost predicate Idle(f: Indexical, box: Box) {
    !AllSingle(f.mon, box) && (f.tell || !AllSingle(f.amon, box))
  }

  /** Since g was last run nothing has changed for it, or it is going to be run,
      or it is entailed or idle. */
  ghost predicate Heeded(p: Problem, s: Pass, g: int)
    requires InShape(p) && |s.box| == p.n && 0 <= g < |p.fs|
  {
    && g in s.ran && Narrows(s.ran[g], s.box)
    && (AmonWatched(p, g, s.ran[g]) ==>
          Entailed(p, s, g) || Pending(p, s, g) || Unseen(p.fs[g], s.ran[g], s.box) || Idle(p.fs[g], s.box))
  }

  ghost predicate Invariant(p: Problem, s: Pass) {
    && InForm(p, s) && WellPosed(p, s.box)
    && (forall g :: 0 <= g < |p.fs| ==> Served(p, s, g) && EntailedHolds(p, s, g) && Heeded(p, s, g))
  }

  // ------------------------------------------------ the steps

  /** The suspension the loop has reached. */
  ghost predicate Reached(p: Problem, s: Pass, f: int) {
    |s.q| > 0 && 0 <= s.q[0] < |p.susp| && 0 <= s.at < |p.susp[s.q[0]]| && p.susp[s.q[0]][s.at].f == f
  }

  /** The tests that pass over a suspension without running it. */
  ghost predicate PassedOver(p: Problem, s: Pass, f: int)
    requires InForm(p, s) && Reached(p, s, f) && 0 <= f < |p.fs|
  {
    || Entailed(p, s, f)
    || s.last[f] > s.time[s.q[0]]
    || NotAffected(p.susp[s.q[0]][s.at].dep, s.change[s.q[0]])
    || Idle(p.fs[f], s.box)
  }

  ghost function Skipped(s: Pass): Pass {
    s.(at := s.at + 1)
  }

  lemma SkipKeeps(p: Problem, s: Pass, f: int)
    requires Invariant(p, s) && 0 <= f < |p.fs| && Reached(p, s, f) && PassedOver(p, s, f)
    ensures Invariant(p, Skipped(s))
  {
    hide WellPosed, InShape, Inside, Holds, Settled, AllSingle;
    forall g | 0 <= g < |p.fs|
      ensures Served(p, Skipped(s), g) && EntailedHolds(p, Skipped(s), g) && Heeded(p, Skipped(s), g)
    {
      assert Served(p, s, g) && EntailedHolds(p, s, g) && Heeded(p, s, g);
      SkipServed(p, s, f, g);
      SkipHeeded(p, s, f, g);
    }
  }

  lemma SkipHeeded(p: Problem, s: Pass, f: int, g: int)
    requires InForm(p, s) && 0 <= f < |p.fs| && Reached(p, s, f) && PassedOver(p, s, f)
    requires 0 <= g < |p.fs| && Heeded(p, s, g)
    ensures Heeded(p, Skipped(s), g)
  {
    hide InShape, Idle, AllSingle, Unseen, Narrows, AmonWatched;
    if Pending(p, s, g) && !Entailed(p, s, g) && !Idle(p.fs[g], s.box) {
      var k, i :| Wakes(p, s, k, i, g);
      assert !(k == 0 && i == s.at);
      assert Wakes(p, Skipped(s), k, i, g);
    }
  }

  lemma SkipServed(p: Problem, s: Pass, f: int, g: int)
    requires InForm(p, s) && 0 <= f < |p.fs| && Reached(p, s, f) && PassedOver(p, s, f)
    requires 0 <= g < |p.fs| && Served(p, s, g)
    ensures Served(p, Skipped(s), g)
  {
    hide InShape, Settled, AllSingle;
    if Pending(p, s, g) && !Entailed(p, s, g) && AllSingle(p.fs[g].mon, s.box) {
      assert !Idle(p.fs[g], s.box);
      var k, i :| Wakes(p, s, k, i, g);
      assert !(k == 0 && i == s.at);
      assert Wakes(p, Skipped(s), k, i, g);
    }
  }

  /** The clock after f has been run. */
  ghost function Ran(s: Pass, f: int): Pass
    requires 0 <= f < |s.last|
  {
    s.(last := s.last[f := s.now + 1], now := s.now + 1, at := s.at + 1, ran := s.ran[f := s.box])
  }

  ghost function WithEntailed(s: Pass, v: int): Pass
    requires 0 <= v < |s.ent|
  {
    s.(ent := s.ent[v := true])
  }

  /** Domain y becomes t and y is put on the queue, or its entry is updated. */
  ghost function Narrowed(s: Pass, y: int, t: set<int>): Pass
    requires 0 <= y < |s.box| && y < |s.change| && y < |s.time|
  {
    var c := ChangeOf(s.box[y], t);
    s.(box := s.box[y := t],
       change := s.change[y := if y in s.q then BothChanges(s.change[y], c) else c],
       time := s.time[y := s.now],
       q := if y in s.q then s.q else s.q + [y])
  }

  ghost function Advanced(s: Pass): Pass
    requires |s.q| > 0
  {
    s.(time := if 0 <= s.q[0] < |s.time| then s.time[s.q[0] := 0] else s.time, q := s.q[1..], at := 0)
  }

  // ------------------------------------------------ running an indexical

  /** Running f leaves the others as they were served. */
  lemma RanServed(p: Problem, s: Pass, f: int, g: int)
    requires InForm(p, s) && 0 <= f < |p.fs| && Reached(p, s, f) && 0 <= g < |p.fs| && g != f && Served(p, s, g)
    ensures Served(p, Ran(s, f), g)
  {
    hide InShape, Settled, AllSingle, NotAffected;
    var t := Ran(s, f);
    if Pending(p, s, g) {
      var k, i :| Wakes(p, s, k, i, g);
      assert !(k == 0 && i == s.at);
      assert Wakes(p, t, k, i, g);
    }
  }

  /** f has been run and turned out to have nothing to say. */
  lemma RanKeeps(p: Problem, s: Pass, f: int)
    requires Invariant(p, s) && 0 <= f < |p.fs| && Reached(p, s, f)
    requires !AllSingle(p.fs[f].mon, s.box) || Settled(p.fs[f], s.box)
    ensures Invariant(p, Ran(s, f))
  {
    hide WellPosed, InShape, Inside, Holds, Settled, AllSingle;
    forall g | 0 <= g < |p.fs|
      ensures Served(p, Ran(s, f), g) && EntailedHolds(p, Ran(s, f), g) && Heeded(p, Ran(s, f), g)
    {
      assert Served(p, s, g) && EntailedHolds(p, s, g) && Heeded(p, s, g);
      RanHeeded(p, s, f, g);
      if g != f {
        RanServed(p, s, f, g);
      }
    }
  }

  lemma UnseenSelf(f: Indexical, box: Box)
    ensures Unseen(f, box, box)
  {
    hide Props;
    var use, b := Props(f.e, |f.args|), ArgsOf(f, box);
    forall i | 0 <= i < |b|
      ensures SameView(use[i], b[i], b[i])
    {
      SameViewSelf(use[i], b[i]);
    }
  }

  /** An indexical that has just been run has seen everything. */
  lemma RanHeeded(p: Problem, s: Pass, f: int, g: int)
    requires InForm(p, s) && 0 <= f < |p.fs| && Reached(p, s, f)
    requires 0 <= g < |p.fs| && Heeded(p, s, g)
    ensures Heeded(p, Ran(s, f), g)
  {
    hide InShape, Idle, AllSingle, Unseen, AmonWatched, NotAffected;
    var t := Ran(s, f);
    UnseenSelf(p.fs[f], s.box);
    if g != f && Pending(p, s, g) {
      var k, i :| Wakes(p, s, k, i, g);
      assert !(k == 0 && i == s.at);
      assert Wakes(p, t, k, i, g);
    }
  }

  /** Binding the entailment variable of f, which holds throughout the box. */
  lemma EntailKeeps(p: Problem, s: Pass, f: int)
    requires Invariant(p, s) && 0 <= f < |p.fs|
    requires 0 <= p.fs[f].ent < |s.ent|
    requires forall a :: Inside(a, s.box) ==> Holds(p.fs[f], a)
    ensures Invariant(p, WithEntailed(s, p.fs[f].ent))
  {
    hide InShape, Inside, Holds, Settled, AllSingle, Compiled;
    var t := WithEntailed(s, p.fs[f].ent);
    forall g | 0 <= g < |p.fs|
      ensures Served(p, t, g) && EntailedHolds(p, t, g) && Heeded(p, t, g)
    {
      assert Served(p, s, g) && EntailedHolds(p, s, g) && Heeded(p, s, g);
      EntailServed(p, s, f, g);
      EntailHeeded(p, s, f, g);
      assert SameConstraint(p, s.box, f, g);
    }
  }

  lemma EntailHeeded(p: Problem, s: Pass, f: int, g: int)
    requires InShape(p) && |s.box| == p.n && 0 <= f < |p.fs| && 0 <= p.fs[f].ent < |s.ent|
    requires 0 <= g < |p.fs| && Heeded(p, s, g)
    ensures Heeded(p, WithEntailed(s, p.fs[f].ent), g)
  {
    hide InShape, Idle, Unseen, Narrows, AmonWatched;
    var t := WithEntailed(s, p.fs[f].ent);
    if Pending(p, s, g) {
      var k, i :| Wakes(p, s, k, i, g);
      assert Wakes(p, t, k, i, g);
    }
  }

  lemma EntailServed(p: Problem, s: Pass, f: int, g: int)
    requires 0 <= f < |p.fs| && 0 <= p.fs[f].ent < |s.ent|
    requires 0 <= g < |p.fs| && Served(p, s, g)
    ensures Served(p, WithEntailed(s, p.fs[f].ent), g)
  {
    hide Settled, AllSingle;
    var t := WithEntailed(s, p.fs[f].ent);
    if Pending(p, s, g) {
      var k, i :| Wakes(p, s, k, i, g);
      assert Wakes(p, t, k, i, g);
    }
  }

  /** A range that can only grow and covers the domain holds for good. */
  lemma CoveredHolds(p: Problem, box: Box, f: int)
    requires WellPosed(p, box) && 0 <= f < |p.fs|
    requires AllSingle(p.fs[f].amon, box) && Settled(p.fs[f], box)
    ensures forall a :: Inside(a, box) ==> Holds(p.fs[f], a)
  {
    forall a | Inside(a, box)
      ensures Holds(p.fs[f], a)
    {
      CoveredHoldsAt(p, box, f, a);
    }
  }

  lemma CoveredHoldsAt(p: Problem, box: Box, f: int, a: seq<int>)
    requires WellPosed(p, box) && 0 <= f < |p.fs| && Inside(a, box)
    requires AllSingle(p.fs[f].amon, box) && Settled(p.fs[f], box)
    ensures Holds(p.fs[f], a)
  {
    assert IndexicalInShape(p, p.fs[f]);
    hide Range1, AllSingle, Compiled, SameConstraint, InShape;
    RangeAtPoint(p, f, box, a);
  }

  // ------------------------------------------------ narrowing a domain

  /** y is not the variable whose list is being worked off. */
  predicate Queueable(s: Pass, y: int) {
    if s.q == [] then s.at == 0 else y != s.q[0]
  }

  /** A class need not see a change just when it is one of bounds it does not
      watch; the class for the whole domain sees every change. */
  lemma SeenExactly(s: set<int>, t: set<int>)
    ensures !NotAffected(P_DOM, ChangeOf(s, t))
    ensures NotAffected(P_MIN, ChangeOf(s, t)) <==> VarMin(s) == VarMin(t)
    ensures NotAffected(P_MAX, ChangeOf(s, t)) <==> VarMax(s) == VarMax(t)
    ensures NotAffected(P_MINMAX, ChangeOf(s, t)) <==> VarMin(s) == VarMin(t) && VarMax(s) == VarMax(t)
  {
  }

  /** Two changes together are seen just where one of them is. */
  lemma BothSeen(dep: int, c: int, d: int)
    requires 0 <= c <= 3 && 0 <= d <= 3
    ensures NotAffected(dep, BothChanges(c, d)) <==> NotAffected(dep, c) && NotAffected(dep, d)
    ensures 0 <= BothChanges(c, d) <= 3
  {
  }

  /** An entry for y that sees the change is reached later on. */
  lemma ChangeWakes(p: Problem, s: Pass, y: int, t: set<int>, g: int, i: int)
    requires InForm(p, s) && 0 <= y < p.n && 0 <= g < |p.fs| && 0 <= i < |p.susp[y]| && p.susp[y][i].f == g
    requires Queueable(s, y)
    requires !NotAffected(p.susp[y][i].dep, ChangeOf(s.box[y], t))
    ensures Pending(p, Narrowed(s, y, t), g)
  {
    hide NotAffected, ChangeOf, InShape, BothChanges;
    var n := Narrowed(s, y, t);
    ChangeInRange(s.box[y], t);
    var k := if y in s.q then (var k :| 0 <= k < |s.q| && s.q[k] == y; k) else |s.q|;
    assert n.q[k] == y && (k == 0 ==> s.at == 0);
    BothSeen(p.susp[y][i].dep, s.change[y], ChangeOf(s.box[y], t));
    assert Wakes(p, n, k, i, g);
  }

  lemma ChangeInRange(s: set<int>, t: set<int>)
    ensures 0 <= ChangeOf(s, t) <= 3
  {
  }

  /** What was pending stays pending. */
  lemma StaysPending(p: Problem, s: Pass, y: int, t: set<int>, g: int)
    requires InForm(p, s) && 0 <= y < p.n && 0 <= g < |p.fs| && Pending(p, s, g)
    ensures Pending(p, Narrowed(s, y, t), g)
  {
    hide NotAffected, ChangeOf, InShape, BothChanges;
    var n := Narrowed(s, y, t);
    var k, i :| Wakes(p, s, k, i, g);
    ChangeInRange(s.box[y], t);
    if s.q[k] == y {
      BothSeen(p.susp[y][i].dep, s.change[y], ChangeOf(s.box[y], t));
    }
    assert n.q[k] == s.q[k];
    assert Wakes(p, n, k, i, g);
  }

  /** The determination of a variable moves a bound, whatever its domain was. */
  lemma DeterminedMoves(s: set<int>, t: set<int>)
    requires t <= s && !Single(s) && Single(t)
    ensures ChangeOf(s, t) != P_DOM
  {
    var v :| t == {v};
    assert v in s;
    assert IsMin(s, Least(s)) && IsMax(s, Greatest(s)) && IsMin(t, Least(t)) && IsMax(t, Greatest(t));
    if Least(s) == v && Greatest(s) == v {
      assert forall u :: u in s ==> u == v;
    }
  }

  /** If no watched aspect of y changes, the range does not change. */
  lemma RangeUnchanged(p: Problem, g: int, box: Box, y: int, t: set<int>)
    requires InShape(p) && 0 <= g < |p.fs| && |box| == p.n && 0 <= y < p.n
    requires SameViewsOf(p.fs[g], box, y, t)
    ensures Range1(p.fs[g], box[y := t]) == Range1(p.fs[g], box)
  {
    var f := p.fs[g];
    assert IndexicalInShape(p, f);
    var b, c := ArgsOf(f, box), ArgsOf(f, box[y := t]);
    SameViewsArgs(f, box, y, t);
    ClassesAdequate(f.e, b, c);
  }

  /** Every use of y by f looks the same in box and with t for y. */
  ghost predicate SameViewsOf(f: Indexical, box: Box, y: int, t: set<int>)
    requires 0 <= y < |box|
  {
    var use := Props(f.e, |f.args|);
    forall i :: 0 <= i < |f.args| && f.args[i] == y ==> SameView(use[i], box[y], t)
  }

  lemma SameViewsArgs(f: Indexical, box: Box, y: int, t: set<int>)
    requires 0 <= y < |box| && SameViewsOf(f, box, y, t)
    ensures SameViews(Props(f.e, |f.args|), ArgsOf(f, box), ArgsOf(f, box[y := t]))
  {
    hide Props;
    var use := Props(f.e, |f.args|);
    var b, c := ArgsOf(f, box), ArgsOf(f, box[y := t]);
    forall i | 0 <= i < |b|
      ensures SameView(use[i], b[i], c[i])
    {
      if f.args[i] == y {
        assert b[i] == box[y] && c[i] == t;
      } else {
        assert b[i] == c[i];
        SameViewSelf(use[i], b[i]);
      }
    }
  }

  lemma SameViewSelf(use: Prop, s: set<int>)
    ensures SameView(use, s, s)
  {
  }

  /** A change of y that g sees wakes it. */
  lemma ViewWakes(p: Problem, s: Pass, y: int, t: set<int>, g: int)
    requires InForm(p, s) && 0 <= y < p.n && 0 <= g < |p.fs| && ArgsWatched(p, g, s.box)
    requires Queueable(s, y) && t <= s.box[y] && !Single(s.box[y])
    requires !SameViewsOf(p.fs[g], s.box, y, t)
    ensures Pending(p, Narrowed(s, y, t), g)
  {
    hide Props, SameView, Single, InShape, Pending, Watch, ChangeOf;
    var f := p.fs[g];
    var use := Props(f.e, |f.args|);
    var i :| 0 <= i < |f.args| && f.args[i] == y && !SameView(use[i], s.box[y], t);
    UnwatchedSame(use[i], s.box[y], t);
    assert SuspendedOn(p, y, g, Watch(use[i]));
    var j :| 0 <= j < |p.susp[y]| && p.susp[y][j].f == g && p.susp[y][j].dep in Watch(use[i]);
    WatchedSees(p.susp[y][j].dep, use[i], s.box[y], t);
    ChangeWakes(p, s, y, t, g, j);
  }

  /** g has done its work and y changes: either the work stays done or the
      change wakes g. */
  lemma SettledOrWoken(p: Problem, s: Pass, y: int, t: set<int>, g: int)
    requires InForm(p, s) && 0 <= y < p.n && 0 <= g < |p.fs| && ArgsWatched(p, g, s.box)
    requires Queueable(s, y) && t <= s.box[y] && !Single(s.box[y])
    requires Settled(p.fs[g], s.box)
    ensures Settled(p.fs[g], Narrowed(s, y, t).box) || Pending(p, Narrowed(s, y, t), g)
  {
    hide InShape, Pending, Range1, ChangeOf, ArgsWatched, SameViewsOf;
    if SameViewsOf(p.fs[g], s.box, y, t) {
      RangeUnchanged(p, g, s.box, y, t);
    } else {
      ViewWakes(p, s, y, t, g);
    }
  }

  lemma UnwatchedSame(use: Prop, s: set<int>, t: set<int>)
    ensures use == Dummy ==> SameView(use, s, t)
  {
  }

  lemma WatchedSees(dep: int, use: Prop, s: set<int>, t: set<int>)
    requires dep in Watch(use) && !SameView(use, s, t)
    ensures !NotAffected(dep, ChangeOf(s, t))
  {
  }

  /** A watched variable becomes determined: the change wakes g. */
  lemma DeterminationWakes(p: Problem, s: Pass, y: int, t: set<int>, g: int)
    requires InForm(p, s) && 0 <= y < p.n && 0 <= g < |p.fs| && SuspendedOn(p, y, g, {P_DOM, P_MINMAX})
    requires Queueable(s, y) && t <= s.box[y] && !Single(s.box[y]) && Single(t)
    ensures Pending(p, Narrowed(s, y, t), g)
  {
    hide Single, InShape, Pending, ChangeOf;
    var j :| 0 <= j < |p.susp[y]| && p.susp[y][j].f == g && p.susp[y][j].dep in {P_DOM, P_MINMAX};
    DeterminedMoves(s.box[y], t);
    ChangeInRange(s.box[y], t);
    ChangeWakes(p, s, y, t, g, j);
  }

  /** y changes and with it the direction of g: the change wakes g. */
  lemma DirectionWakes(p: Problem, s: Pass, y: int, t: set<int>, g: int, vs: seq<int>)
    requires InForm(p, s) && 0 <= y < p.n && 0 <= g < |p.fs|
    requires (forall i :: 0 <= i < |vs| ==> 0 <= vs[i] < p.n) && ListWatched(p, g, vs, s.box)
    requires Queueable(s, y) && t <= s.box[y]
    requires !AllSingle(vs, s.box) && AllSingle(vs, s.box[y := t])
    ensures Pending(p, Narrowed(s, y, t), g)
  {
    hide Single, InShape, Pending, ChangeOf, SuspendedOn;
    var i :| 0 <= i < |vs| && !Single(Dom1(s.box, vs[i]));
    assert Single(Dom1(s.box[y := t], vs[i]));
    assert vs[i] == y;
    DeterminationWakes(p, s, y, t, g);
  }

  lemma NarrowServed(p: Problem, s: Pass, y: int, t: set<int>, g: int)
    requires InForm(p, s) && 0 <= y < p.n && 0 <= g < |p.fs| && Compiled(p, g, s.box)
    requires Queueable(s, y) && t <= s.box[y] && !Single(s.box[y])
    requires IndexicalInShape(p, p.fs[g])
    requires Served(p, s, g)
    ensures Served(p, Narrowed(s, y, t), g)
  {
    hide Single, InShape, Pending, Range1, ChangeOf, AllSingle, ArgsWatched, ListWatched, Settled, MonCompiled,
      BothChanges;
    var n := Narrowed(s, y, t);
    assert Entailed(p, n, g) == Entailed(p, s, g);
    if Pending(p, s, g) {
      StaysPending(p, s, y, t, g);
    } else if !Entailed(p, s, g) {
      if !AllSingle(p.fs[g].mon, s.box) {
        if AllSingle(p.fs[g].mon, n.box) {
          DirectionWakes(p, s, y, t, g, p.fs[g].mon);
        }
      } else {
        SettledOrWoken(p, s, y, t, g);
      }
    }
  }

  /** The variables still to be watched grow fewer. */
  lemma WatchNarrows(p: Problem, g: int, vs: seq<int>, box: Box, next: Box)
    requires |p.susp| == |box| == p.n && forall i :: 0 <= i < |vs| ==> 0 <= vs[i] < p.n
    requires ListWatched(p, g, vs, box) && Narrows(box, next)
    ensures ListWatched(p, g, vs, next)
  {
    hide Single, SuspendedOn;
  }

  lemma ViewsTwice(f: Indexical, was: Box, box: Box, y: int, t: set<int>)
    requires 0 <= y < |box| && SameViewsOf(f, box, y, t)
    requires SameViews(Props(f.e, |f.args|), ArgsOf(f, was), ArgsOf(f, box))
    ensures SameViews(Props(f.e, |f.args|), ArgsOf(f, was), ArgsOf(f, box[y := t]))
  {
    SameViewsArgs(f, box, y, t);
    hide Props;
    var use, a, b, c := Props(f.e, |f.args|), ArgsOf(f, was), ArgsOf(f, box), ArgsOf(f, box[y := t]);
    forall i | 0 <= i < |a|
      ensures SameView(use[i], a[i], c[i])
    {
      assert SameView(use[i], a[i], b[i]) && SameView(use[i], b[i], c[i]);
    }
  }

  /** Whatever g has seen when y changes: it has still seen everything, or the
      change wakes it. */
  lemma UnseenOrWoken(p: Problem, s: Pass, y: int, t: set<int>, g: int)
    requires InForm(p, s) && 0 <= y < p.n && 0 <= g < |p.fs| && IndexicalInShape(p, p.fs[g])
    requires ArgsWatched(p, g, s.box) && MonWatched(p, g, s.box) && AmonWatched(p, g, s.box)
    requires Queueable(s, y) && t <= s.box[y] && !Single(s.box[y])
    requires g in s.ran && Unseen(p.fs[g], s.ran[g], s.box)
    ensures Unseen(p.fs[g], s.ran[g], s.box[y := t]) || Pending(p, Narrowed(s, y, t), g)
  {
    var f := p.fs[g];
    hide InShape, Pending, ArgsWatched, SameViewsOf, SameViews, Single, SuspendedOn, Props;
    if (y in f.mon || y in f.amon) && Single(t) {
      assert SuspendedOn(p, y, g, {P_DOM, P_MINMAX});
      DeterminationWakes(p, s, y, t, g);
    } else if !SameViewsOf(f, s.box, y, t) {
      ViewWakes(p, s, y, t, g);
    } else {
      ViewsTwice(f, s.ran[g], s.box, y, t);
      forall z | (z in f.mon || z in f.amon) && Single(Dom1(s.box[y := t], z))
        ensures Single(Dom1(s.ran[g], z))
      {
        assert Dom1(s.box[y := t], z) == if z == y then t else Dom1(s.box, z);
      }
    }
  }

  lemma IdleOrWoken(p: Problem, s: Pass, y: int, t: set<int>, g: int)
    requires InForm(p, s) && 0 <= y < p.n && 0 <= g < |p.fs| && IndexicalInShape(p, p.fs[g])
    requires MonWatched(p, g, s.box) && AmonWatched(p, g, s.box)
    requires Queueable(s, y) && t <= s.box[y] && Idle(p.fs[g], s.box)
    ensures Idle(p.fs[g], s.box[y := t]) || Pending(p, Narrowed(s, y, t), g)
  {
    hide InShape, Pending, ListWatched, AllSingle;
    if AllSingle(p.fs[g].mon, s.box[y := t]) {
      DirectionWakes(p, s, y, t, g, p.fs[g].mon);
    } else if !p.fs[g].tell && AllSingle(p.fs[g].amon, s.box[y := t]) {
      DirectionWakes(p, s, y, t, g, p.fs[g].amon);
    }
  }

  lemma NarrowHeeded(p: Problem, s: Pass, y: int, t: set<int>, g: int)
    requires InForm(p, s) && 0 <= y < p.n && 0 <= g < |p.fs| && Compiled(p, g, s.box)
    requires Queueable(s, y) && t <= s.box[y] && !Single(s.box[y])
    requires IndexicalInShape(p, p.fs[g])
    requires Heeded(p, s, g)
    ensures Heeded(p, Narrowed(s, y, t), g)
  {
    var n := Narrowed(s, y, t);
    OneNarrows(s.box, y, t);
    NarrowsTwice(s.ran[g], s.box, n.box);
    assert n.box == s.box[y := t] && n.ran == s.ran && (Entailed(p, n, g) == Entailed(p, s, g));
    if AmonWatched(p, g, s.ran[g]) && !Entailed(p, s, g) {
      WatchNarrows(p, g, p.fs[g].amon, s.ran[g], s.box);
      hide InShape, Pending, Unseen, Idle, Narrowed, Narrows, ArgsWatched, MonWatched, ListWatched, Single;
      if Pending(p, s, g) {
        StaysPending(p, s, y, t, g);
      } else if Unseen(p.fs[g], s.ran[g], s.box) {
        UnseenOrWoken(p, s, y, t, g);
      } else {
        IdleOrWoken(p, s, y, t, g);
      }
    }
  }

  lemma OneNarrows(box: Box, y: int, t: set<int>)
    requires 0 <= y < |box| && t <= box[y] && !Single(box[y])
    ensures Narrows(box, box[y := t])
  {
  }

  lemma NarrowEntailed(p: Problem, s: Pass, y: int, t: set<int>, g: int)
    requires 0 <= y < |s.box| && y < |s.change| && y < |s.time| && t <= s.box[y] && !Single(s.box[y])
    requires 0 <= g < |p.fs| && EntailedHolds(p, s, g)
    ensures EntailedHolds(p, Narrowed(s, y, t), g)
  {
    hide Holds, Inside, Narrows, Single, ChangeOf, BothChanges;
    var n := Narrowed(s, y, t);
    OneNarrows(s.box, y, t);
    if Entailed(p, n, g) {
      assert Entailed(p, s, g);
      forall a | Inside(a, n.box)
        ensures Holds(p.fs[g], a)
      {
        InsideNarrows(a, s.box, n.box);
      }
    }
  }

  lemma NarrowForm(p: Problem, s: Pass, y: int, t: set<int>)
    requires InForm(p, s) && 0 <= y < p.n
    ensures InForm(p, Narrowed(s, y, t))
  {
    hide InShape, ChangeOf, BothChanges;
    ChangeInRange(s.box[y], t);
    BothSeen(P_DOM, s.change[y], ChangeOf(s.box[y], t));
  }

  /** Narrowing a domain and queueing its variable keeps the invariant. */
  lemma NarrowKeepsAll(p: Problem, s: Pass, y: int, t: set<int>)
    requires Invariant(p, s) && 0 <= y < p.n
    requires Queueable(s, y) && t <= s.box[y] && !Single(s.box[y])
    ensures Invariant(p, Narrowed(s, y, t))
  {
    var n := Narrowed(s, y, t);
    forall g | 0 <= g < |p.fs|
      ensures Served(p, n, g) && EntailedHolds(p, n, g) && Heeded(p, n, g)
    {
      NarrowOne(p, s, y, t, g);
    }
    NarrowForm(p, s, y, t);
    OneNarrows(s.box, y, t);
    WellPosedNarrows(p, s.box, n.box);
  }

  lemma NarrowOne(p: Problem, s: Pass, y: int, t: set<int>, g: int)
    requires Invariant(p, s) && 0 <= y < p.n && 0 <= g < |p.fs|
    requires Queueable(s, y) && t <= s.box[y] && !Single(s.box[y])
    ensures Served(p, Narrowed(s, y, t), g) && EntailedHolds(p, Narrowed(s, y, t), g) && Heeded(p, Narrowed(s, y, t), g)
  {
    assert Served(p, s, g) && EntailedHolds(p, s, g) && Compiled(p, g, s.box) && IndexicalInShape(p, p.fs[g]);
    assert Heeded(p, s, g);
    hide Served, EntailedHolds, Compiled, IndexicalInShape, WellPosed, InShape, Heeded;
    NarrowServed(p, s, y, t, g);
    NarrowHeeded(p, s, y, t, g);
    NarrowEntailed(p, s, y, t, g);
  }

  /** A range does not use the variable it constrains, unless as a number. */
  lemma OwnRangeUnchanged(p: Problem, box: Box, f: int, t: set<int>)
    requires InShape(p) && 0 <= f < |p.fs| && |box| == p.n && ArgsWatched(p, f, box)
    requires 0 <= p.fs[f].d < |box| && !Single(box[p.fs[f].d])
    ensures Range1(p.fs[f], box[p.fs[f].d := t]) == Range1(p.fs[f], box)
  {
    hide Props, SameView, Single, Range1, Watch;
    var y := p.fs[f].d;
    var use := Props(p.fs[f].e, |p.fs[f].args|);
    forall i | 0 <= i < |p.fs[f].args| && p.fs[f].args[i] == y
      ensures SameView(use[i], box[y], t)
    {
      NotSelfSuspended(p, f, Watch(use[i]));
      UnwatchedSame(use[i], box[y], t);
    }
    RangeUnchanged(p, f, box, y, t);
  }

  lemma NotSelfSuspended(p: Problem, f: int, deps: set<int>)
    requires InShape(p) && 0 <= f < |p.fs| && 0 <= p.fs[f].d < p.n
    ensures !SuspendedOn(p, p.fs[f].d, f, deps)
  {
    var y := p.fs[f].d;
    assert forall j :: 0 <= j < |p.susp[y]| ==> SuspInShape(p, y, p.susp[y][j]);
  }

  /** The domain of f's variable cut down to f's range. */
  ghost function Cut(p: Problem, box: Box, f: int): set<int>
    requires 0 <= f < |p.fs| && 0 <= p.fs[f].d < |box|
  {
    box[p.fs[f].d] * Range1(p.fs[f], box)
  }

  /** f has been run and cuts the domain of its variable. */
  lemma CutKeeps(p: Problem, s: Pass, f: int)
    requires Invariant(p, s) && 0 <= f < |p.fs| && Reached(p, s, f)
    requires 0 <= p.fs[f].d < p.n && !Single(s.box[p.fs[f].d])
    ensures Invariant(p, Narrowed(Ran(s, f), p.fs[f].d, Cut(p, s.box, f)))
    ensures Settled(p.fs[f], s.box[p.fs[f].d := Cut(p, s.box, f)])
  {
    var y, t := p.fs[f].d, Cut(p, s.box, f);
    var r := Ran(s, f);
    var n := Narrowed(r, y, t);
    NotOnHead(p, s, f);
    RanForm(p, s, f);
    NarrowForm(p, r, y, t);
    OneNarrows(s.box, y, t);
    WellPosedNarrows(p, s.box, n.box);
    CutSettles(p, s.box, f);
    forall g | 0 <= g < |p.fs|
      ensures Served(p, n, g) && EntailedHolds(p, n, g) && Heeded(p, n, g)
    {
      CutOne(p, s, f, g);
    }
  }

  lemma NotOnHead(p: Problem, s: Pass, f: int)
    requires InShape(p) && 0 <= f < |p.fs| && Reached(p, s, f)
    ensures s.q[0] != p.fs[f].d
  {
    assert SuspInShape(p, s.q[0], p.susp[s.q[0]][s.at]);
  }

  lemma RanForm(p: Problem, s: Pass, f: int)
    requires InForm(p, s) && 0 <= f < |p.fs|
    ensures InForm(p, Ran(s, f))
  {
    hide InShape;
  }

  lemma CutSettles(p: Problem, box: Box, f: int)
    requires WellPosed(p, box) && 0 <= f < |p.fs| && 0 <= p.fs[f].d < |box| && !Single(box[p.fs[f].d])
    ensures Settled(p.fs[f], box[p.fs[f].d := Cut(p, box, f)])
  {
    assert Compiled(p, f, box);
    CompiledArgs(p, f, box);
    hide Range1, Compiled, SameConstraint, ArgsWatched;
    OwnRangeUnchanged(p, box, f, Cut(p, box, f));
  }

  lemma CompiledArgs(p: Problem, f: int, box: Box)
    requires InShape(p) && 0 <= f < |p.fs| && |box| == p.n && Compiled(p, f, box)
    ensures ArgsWatched(p, f, box)
  {
  }

  lemma CutOne(p: Problem, s: Pass, f: int, g: int)
    requires Invariant(p, s) && 0 <= f < |p.fs| && Reached(p, s, f) && 0 <= g < |p.fs|
    requires 0 <= p.fs[f].d < p.n && !Single(s.box[p.fs[f].d])
    ensures var n := Narrowed(Ran(s, f), p.fs[f].d, Cut(p, s.box, f));
            Served(p, n, g) && EntailedHolds(p, n, g) && Heeded(p, n, g)
  {
    var y, t := p.fs[f].d, Cut(p, s.box, f);
    assert Served(p, s, g) && EntailedHolds(p, s, g) && Compiled(p, g, s.box) && IndexicalInShape(p, p.fs[g]);
    assert Heeded(p, s, g);
    RanHeeded(p, s, f, g);
    NotOnHead(p, s, f);
    RanForm(p, s, f);
    CutSettles(p, s.box, f);
    var r := Ran(s, f);
    assert EntailedHolds(p, r, g);
    hide Served, EntailedHolds, Compiled, IndexicalInShape, WellPosed, InForm, InShape, Reached, Settled, Range1,
      Heeded;
    NarrowEntailed(p, r, y, t, g);
    NarrowHeeded(p, r, y, t, g);
    if g == f {
      SettledServed(p, Narrowed(r, y, t), f);
    } else {
      RanServed(p, s, f, g);
      NarrowServed(p, r, y, t, g);
    }
  }

  lemma SettledServed(p: Problem, s: Pass, f: int)
    requires 0 <= f < |p.fs| && Settled(p.fs[f], s.box)
    ensures Served(p, s, f)
  {
  }

  /** A range that cannot change holds for every assignment left by the cut. */
  lemma CutHolds(p: Problem, box: Box, f: int)
    requires WellPosed(p, box) && 0 <= f < |p.fs| && 0 <= p.fs[f].d < |box|
    requires AllSingle(p.fs[f].amon, box)
    ensures forall a :: Inside(a, box[p.fs[f].d := Cut(p, box, f)]) ==> Holds(p.fs[f], a)
  {
    hide Range1, AllSingle, WellPosed;
    var n := box[p.fs[f].d := Cut(p, box, f)];
    forall a | Inside(a, n)
      ensures Holds(p.fs[f], a)
    {
      forall x | 0 <= x < |a|
        ensures a[x] in box[x]
      {
        assert a[x] in n[x];
      }
      assert a[p.fs[f].d] in n[p.fs[f].d];
      RangeAtPoint(p, f, box, a);
    }
  }

  /** An indexical whose range cannot meet the domain: no solution is left. */
  lemma EmptyNoSols(p: Problem, box: Box, f: int)
    requires WellPosed(p, box) && 0 <= f < |p.fs| && 0 <= p.fs[f].d < |box|
    requires AllSingle(p.fs[f].mon, box) && Cut(p, box, f) == {}
    ensures Sols(p, box) == {}
  {
    NarrowKeepsSols(p, f, box);
    var n := box[p.fs[f].d := Cut(p, box, f)];
    hide Range1, WellPosed, AllSingle;
    forall a
      ensures a !in Sols(p, n)
    {
      SolsAre(p, n, a);
      NotInside(a, n, p.fs[f].d);
    }
  }

  lemma NotInside(a: seq<int>, box: Box, x: int)
    requires 0 <= x < |box| && box[x] == {}
    ensures !Inside(a, box)
  {
    assert |a| == |box| ==> a[x] !in box[x];
  }

  // ------------------------------------------------ one suspension further

  /** The number of values left in all domains. */
  ghost function Total(box: Box): nat {
    if |box| == 0 then 0 else |box[0]| + Total(box[1..])
  }

  lemma SmallerSet(s: set<int>, t: set<int>)
    requires t <= s && !(s <= t)
    ensures |t| < |s|
  {
    SomeElement(s - t);
    var v :| v in s - t;
    assert s == t + (s - t);
    assert |s - t| > 0 by {
      assert s - t == {v} + (s - t - {v});
    }
  }

  lemma {:induction false} TotalShrinks(box: Box, y: int, t: set<int>)
    requires 0 <= y < |box| && t <= box[y] && !(box[y] <= t)
    ensures Total(box[y := t]) < Total(box)
  {
    var n := box[y := t];
    if y == 0 {
      assert n[1..] == box[1..];
      SmallerSet(box[0], t);
    } else {
      assert n[1..] == box[1..][y - 1 := t];
      TotalShrinks(box[1..], y - 1, t);
    }
  }

  /** r is reached from s by working off one suspension: the invariant holds,
      the solutions are the same, and either values have gone or the queue is
      what it was. */
  ghost predicate Onward(p: Problem, s: Pass, r: Pass) {
    && Invariant(p, r) && Sols(p, r.box) == Sols(p, s.box) && Narrows(s.box, r.box)
    && s.q != [] && r.q != [] && r.q[0] == s.q[0] && r.at == s.at + 1 && r.now >= s.now
    && ((r.box == s.box && r.q == s.q) || Total(r.box) < Total(s.box))
    && (NoRepeats(s.q) ==> NoRepeats(r.q))
  }

  lemma OnwardFacts(p: Problem, s: Pass, r: Pass)
    requires Onward(p, s, r)
    ensures Invariant(p, r) && InForm(p, r) && r.q != [] && s.q != [] && r.q[0] == s.q[0] && r.at == s.at + 1
  {
  }

  ghost predicate NoRepeats(q: seq<int>) {
    forall i, j :: 0 <= i < j < |q| ==> q[i] != q[j]
  }

  lemma SkipOnward(p: Problem, s: Pass, f: int)
    requires Invariant(p, s) && 0 <= f < |p.fs| && Reached(p, s, f) && PassedOver(p, s, f)
    ensures Onward(p, s, Skipped(s))
  {
    SkipKeeps(p, s, f);
    hide Invariant, Sols, InForm;
  }

  lemma RanOnward(p: Problem, s: Pass, f: int)
    requires Invariant(p, s) && 0 <= f < |p.fs| && Reached(p, s, f)
    requires !AllSingle(p.fs[f].mon, s.box) || Settled(p.fs[f], s.box)
    ensures Onward(p, s, Ran(s, f))
  {
    RanKeeps(p, s, f);
    hide Invariant, Sols, InForm;
  }

  lemma EntailOnward(p: Problem, s: Pass, r: Pass, f: int)
    requires Onward(p, s, r) && 0 <= f < |p.fs| && 0 <= p.fs[f].ent < |r.ent|
    requires forall a :: Inside(a, r.box) ==> Holds(p.fs[f], a)
    ensures Onward(p, s, WithEntailed(r, p.fs[f].ent))
  {
    EntailKeeps(p, r, f);
    hide Invariant, Sols, InForm;
  }

  lemma CutOnward(p: Problem, s: Pass, f: int)
    requires Invariant(p, s) && 0 <= f < |p.fs| && Reached(p, s, f)
    requires 0 <= p.fs[f].d < p.n && !Single(s.box[p.fs[f].d]) && AllSingle(p.fs[f].mon, s.box)
    requires !(s.box[p.fs[f].d] <= Range1(p.fs[f], s.box))
    ensures Onward(p, s, Narrowed(Ran(s, f), p.fs[f].d, Cut(p, s.box, f)))
  {
    var y, t := p.fs[f].d, Cut(p, s.box, f);
    CutKeeps(p, s, f);
    NarrowKeepsSols(p, f, s.box);
    OneNarrows(s.box, y, t);
    hide Range1, Invariant, Sols, AllSingle, ChangeOf, BothChanges;
    TotalShrinks(s.box, y, t);
  }

  // ------------------------------------------------ labelling

  /** At rest the clock and the execution times do not matter. */
  lemma AtRest(p: Problem, s: Pass, t: Pass)
    requires Invariant(p, s) && s.q == [] && InForm(p, t)
    requires t.box == s.box && t.ent == s.ent && (t.ran == s.ran || t.ran == AllRan(s.box, |p.fs|))
    ensures Invariant(p, t)
  {
    forall g | 0 <= g < |p.fs|
      ensures Served(p, t, g) && EntailedHolds(p, t, g) && Heeded(p, t, g)
    {
      FixpointReached(p, s, g);
      assert EntailedHolds(p, s, g) && Heeded(p, s, g);
      RestHeeded(p, s, t, g);
    }
  }

  /** The first n indexicals have seen the domains as they are. */
  ghost function AllRan(box: Box, n: nat): (r: map<int, Box>)
    ensures forall g :: 0 <= g < n ==> g in r && r[g] == box
  {
    if n == 0 then map[] else AllRan(box, n - 1)[n - 1 := box]
  }

  ghost function Afresh(p: Problem, s: Pass): Pass {
    s.(ran := AllRan(s.box, |p.fs|))
  }

  lemma RestHeeded(p: Problem, s: Pass, t: Pass, g: int)
    requires InForm(p, s) && s.q == [] && InForm(p, t) && 0 <= g < |p.fs| && Heeded(p, s, g)
    requires t.box == s.box && t.ent == s.ent && (t.ran == s.ran || t.ran == AllRan(s.box, |p.fs|))
    ensures Heeded(p, t, g)
  {
    assert forall k, i :: !Wakes(p, s, k, i, g);
    UnseenSelf(p.fs[g], s.box);
    hide InShape, Idle, Unseen, AmonWatched;
  }

  /** Giving an undetermined variable one of its values, and queueing it. */
  lemma LabelKeeps(p: Problem, s: Pass, x: int, v: int)
    requires Invariant(p, s) && s.q == [] && s.at == 0
    requires 0 <= x < p.n && !Single(s.box[x]) && v in s.box[x]
    ensures Invariant(p, Narrowed(s, x, {v}))
  {
    NarrowKeepsAll(p, s, x, {v});
  }

  /** The class used for a label: the bound it leaves alone tells the other one. */
  lemma LabelChange(s: set<int>, v: int)
    requires v in s && !Single(s)
    ensures ChangeOf(s, {v}) == if v == VarMin(s) then P_MAX else if v == VarMax(s) then P_MIN else P_MINMAX
  {
    assert IsMin(s, Least(s)) && IsMax(s, Greatest(s)) && IsMin({v}, Least({v})) && IsMax({v}, Greatest({v}));
    assert Least({v}) == v && Greatest({v}) == v;
    BoundsDiffer(s, v);
  }

  lemma BoundsDiffer(s: set<int>, v: int)
    requires v in s && !Single(s)
    ensures Least(s) < Greatest(s)
  {
    assert IsMin(s, Least(s)) && IsMax(s, Greatest(s));
    if Least(s) == Greatest(s) {
      OneIsSingle(s, v);
    }
  }

  lemma OneIsSingle(s: set<int>, v: int)
    requires v in s && forall u :: u in s ==> u == v
    ensures Single(s)
  {
    forall u
      ensures u in s <==> u in {v}
    {
    }
    assert s == {v};
  }

  /** At rest with every variable determined, the one assignment left solves
      the problem. */
  lemma DeterminedSolves(p: Problem, s: Pass)
    requires Invariant(p, s) && s.q == [] && forall x :: 0 <= x < p.n ==> Single(s.box[x])
    ensures exists a :: Sols(p, s.box) == {a} && Inside(a, s.box)
  {
    var a := Values(s.box);
    ValuesOnly(s.box);
    assert WellPosed(p, s.box);
    forall g | 0 <= g < |p.fs|
      ensures Holds(p.fs[g], a)
    {
      assert IndexicalInShape(p, p.fs[g]);
      FixpointReached(p, s, g);
      assert EntailedHolds(p, s, g);
      DeterminedHolds(p, s, g, a);
    }
    assert Solves(p, a);
    hide WellPosed, InForm, Solves, Invariant;
    forall b
      ensures b in Sols(p, s.box) <==> b == a
    {
      SolsAre(p, s.box, b);
    }
    assert Sols(p, s.box) == {a};
  }

  lemma DeterminedHolds(p: Problem, s: Pass, g: int, a: seq<int>)
    requires InForm(p, s) && WellPosed(p, s.box) && 0 <= g < |p.fs| && Inside(a, s.box)
    requires forall x :: 0 <= x < p.n ==> Single(s.box[x])
    requires IndexicalInShape(p, p.fs[g]) && EntailedHolds(p, s, g)
    requires Entailed(p, s, g) || !AllSingle(p.fs[g].mon, s.box) || Settled(p.fs[g], s.box)
    ensures Holds(p.fs[g], a)
  {
    hide WellPosed, InShape, Inside, Holds, Settled, Range1, Single;
    assert AllSingle(p.fs[g].mon, s.box) && AllSingle(p.fs[g].amon, s.box);
    if !Entailed(p, s, g) {
      CoveredHoldsAt(p, s.box, g, a);
    }
  }

  ghost function Values(box: Box): (a: seq<int>)
    requires forall x :: 0 <= x < |box| ==> Single(box[x])
    ensures |a| == |box| && forall x :: 0 <= x < |box| ==> box[x] == {a[x]}
  {
    seq(|box|, x requires 0 <= x < |box| => Only(box[x]))
  }

  ghost function Only(s: set<int>): (v: int)
    requires Single(s)
    ensures s == {v}
  {
    var v :| s == {v};
    v
  }

  lemma ValuesOnly(box: Box)
    requires forall x :: 0 <= x < |box| ==> Single(box[x])
    ensures forall a :: Inside(a, box) <==> a == Values(box)
  {
    forall a
      ensures Inside(a, box) <==> a == Values(box)
    {
      if Inside(a, box) {
        forall x | 0 <= x < |a|
          ensures a[x] == Values(box)[x]
        {
          assert a[x] in box[x];
        }
      }
    }
  }

  /** Leaving the head of the queue behind, its list worked off. */
  lemma AdvanceKeeps(p: Problem, s: Pass)
    requires Invariant(p, s) && |s.q| > 0 && s.at == |p.susp[s.q[0]]| && s.now >= 0
    requires forall k :: 0 < k < |s.q| ==> s.q[k] != s.q[0]
    ensures Invariant(p, Advanced(s))
  {
    hide WellPosed, InShape, Inside, Holds, Settled, AllSingle, NotAffected;
    var n := Advanced(s);
    forall g | 0 <= g < |p.fs|
      ensures Served(p, n, g) && EntailedHolds(p, n, g) && Heeded(p, n, g)
    {
      assert Served(p, s, g) && EntailedHolds(p, s, g) && Heeded(p, s, g);
      AdvanceServed(p, s, g);
      AdvanceHeeded(p, s, g);
    }
  }

  lemma AdvanceHeeded(p: Problem, s: Pass, g: int)
    requires InForm(p, s) && |s.q| > 0 && s.at == |p.susp[s.q[0]]| && 0 <= g < |p.fs| && Heeded(p, s, g)
    requires forall k :: 0 < k < |s.q| ==> s.q[k] != s.q[0]
    ensures Heeded(p, Advanced(s), g)
  {
    hide InShape, Idle, Unseen, Narrows, AmonWatched, NotAffected;
    var n := Advanced(s);
    if Pending(p, s, g) {
      var k, i :| Wakes(p, s, k, i, g);
      assert k > 0;
      assert n.q[k - 1] == s.q[k];
      assert Wakes(p, n, k - 1, i, g);
    }
  }

  lemma AdvanceServed(p: Problem, s: Pass, g: int)
    requires InForm(p, s) && |s.q| > 0 && s.at == |p.susp[s.q[0]]| && 0 <= g < |p.fs| && Served(p, s, g)
    requires forall k :: 0 < k < |s.q| ==> s.q[k] != s.q[0]
    ensures Served(p, Advanced(s), g)
  {
    hide InShape, Settled, AllSingle, NotAffected;
    var n := Advanced(s);
    if Pending(p, s, g) {
      var k, i :| Wakes(p, s, k, i, g);
      assert k > 0;
      assert n.q[k - 1] == s.q[k];
      assert Wakes(p, n, k - 1, i, g);
    }
  }

  // ------------------------------------------------ the end

  /** With the queue empty every indexical that is not entailed and whose range
      can only shrink contains the domain it constrains. */
  lemma FixpointReached(p: Problem, s: Pass, g: int)
    requires Invariant(p, s) && s.q == [] && 0 <= g < |p.fs|
    ensures Entailed(p, s, g) || !AllSingle(p.fs[g].mon, s.box) || Settled(p.fs[g], s.box)
  {
    assert Served(p, s, g);
    assert forall k, i :: !Wakes(p, s, k, i, g);
  }
}
