/** Search by labelling: counting all solutions, finding one, in the order of
    the list or smallest domain first. */
module FdSearch {
  import opened FdWords
  import opened FdExpr
  import opened FdVar
  import opened FdVm
  import opened FdProblem
  import opened FdFixpoint
  import opened FdEntail
  import opened FdStore
  import opened FdState
  import opened FdSafe
  import opened FdFirst
  import opened FdSolver

  /** The same pass later on. */
  ghost function Later(s: Pass, last: seq<int>, now: int): Pass {
    s.(last := last, now := now)
  }

  lemma LaterBox(s: Pass, last: seq<int>, now: int)
    ensures Later(s, last, now).box == s.box
  {
  }

  /** Propagation is done, and nothing is stamped at the choice point reached. */
  ghost predicate Rest(v: Solver, s: Pass)
    reads v
  {
    && v.Shows(s) && Invariant(v.p, s) && s.q == [] && s.at == 0 && s.now >= 0
    && BlocksBelow(v.mem, v.brk) && AllBefore(v.p.n, v.mem, |v.trail|)
  }

  /** Between two values tried: memory holds what it held at the choice point
      m0 with a trail of k entries, where s was represented. */
  ghost predicate AtChoice(v: Solver, s: Pass, k: int, m0: Mem)
    reads v
  {
    && InForm(v.p, s) && Rep(v.p, m0, s) && Invariant(v.p, s) && s.q == [] && s.at == 0 && s.now >= 0
    && v.Undoable(k, m0) && |v.trail| == k && Within(m0, v.mem) && v.Clock(s.now) && AllBefore(v.p.n, m0, k)
  }

  lemma ChoiceStarts(v: Solver, s: Pass)
    requires Rest(v, s)
    ensures AtChoice(v, s, |v.trail|, v.mem)
  {
    hide Journal, InForm, Rep, Invariant;
    JournalStart(v.p.n, v.mem, v.trail, v.brk);
    v.ShowsClock(s);
  }

  /** At a choice point the pass is at rest, only later. */
  lemma ChoiceShows(v: Solver, s: Pass, k: int, m0: Mem)
    requires AtChoice(v, s, k, m0)
    ensures v.Shows(Later(s, v.lastExec, v.time)) && Invariant(v.p, Later(s, v.lastExec, v.time))
  {
    var r := Later(s, v.lastExec, v.time);
    LaterForm(v.p, s, v.lastExec, v.time);
    AtRest(v.p, s, r);
    hide Journal, InForm, Rep, Invariant;
    RepWithin(v.p, m0, v.mem, s);
    RepSame(v.p, v.mem, s, r);
  }

  lemma LaterForm(p: Problem, s: Pass, last: seq<int>, now: int)
    requires InForm(p, s) && s.now <= now && |last| == |p.fs| && forall g :: 0 <= g < |p.fs| ==> last[g] <= now
    ensures InForm(p, Later(s, last, now))
  {
    hide InShape;
  }

  // ------------------------------------------------ undoing

  /** reset_trail. */
  method ResetTrail(v: Solver, cp: int, ghost k: int, ghost m0: Mem)
    requires v.Undoable(k, m0) && cp == 1 + 2 * k && AllBefore(v.p.n, m0, k)
    modifies v`mem, v`trail
    ensures v.Undoable(k, m0) && |v.trail| == k && v.trail == old(v.trail)[..k] && Within(m0, v.mem)
  {
    ghost var m, t := v.mem, v.trail;
    UndoneRestores(m, t, k, m0);
    UndoneKeys(m, t, k);
    hide Undone, Restores, Stamps, BlocksBelow, Known, AllBefore;
    assert t[..|t|] == t;
    while Cp(v.trail) != cp
      invariant k <= |v.trail| <= |t| && v.trail == t[..|v.trail|]
      invariant Undone(v.mem, v.trail, k) == Undone(m, t, k)
    {
      UndoneStep(v.mem, v.trail, k);
      var e := v.trail[|v.trail| - 1];
      v.mem := v.mem[e.l := e.v];
      v.trail := v.trail[..|v.trail| - 1];
    }
    UndoneAll(v.mem, v.trail, k);
    JournalUndone(v.p.n, m, t, v.brk, k, m0, v.mem);
  }

  lemma UndoneAll(m: Mem, t: Trail, k: int)
    requires k == |t|
    ensures Undone(m, t, k) == m
  {
  }

  lemma JournalUndone(n: int, m: Mem, t: Trail, b: int, k: int, m0: Mem, u: Mem)
    requires Journal(n, m, t, b, k, m0) && AllBefore(n, m0, k) && Within(m0, u) && u.Keys == m.Keys
    ensures Journal(n, u, t[..k], b, k, m0)
  {
    assert forall l :: l in u ==> l in m;
    forall x | 0 <= x < n
      ensures StampAt(u, t[..k], k, x)
    {
      assert Stamp(x) in m0;
    }
  }

  lemma StampsPresent(v: Solver, s: Pass)
    requires v.Shows(s)
    ensures forall x :: 0 <= x < v.p.n ==> Stamp(x) in v.mem
  {
    hide InForm, VarKeys, FunRep, EntRep, QueueRep;
    forall x | 0 <= x < v.p.n
      ensures Stamp(x) in v.mem
    {
      v.ShowsVar(s, x);
      KeysHave(v.mem, x);
    }
  }

  /** Back at the choice point after the trail has been reset. */
  lemma ChoiceAgain(v: Solver, s: Pass, k: int, m0: Mem)
    requires InForm(v.p, s) && Rep(v.p, m0, s) && Invariant(v.p, s) && s.q == [] && s.at == 0 && s.now >= 0
    requires v.Undoable(k, m0) && |v.trail| == k && Within(m0, v.mem) && v.Clock(s.now) && AllBefore(v.p.n, m0, k)
    ensures AtChoice(v, s, k, m0)
  {
  }

  /** A later choice point, undone, leaves this one as it was. */
  lemma DeeperUndone(v: Solver, trail: Trail, m: Mem, brk: int, r: Pass, k2: int, k: int, m0: Mem)
    requires Journal(v.p.n, m, trail, brk, k, m0) && trail == v.trail && AtChoice(v, r, k2, m)
    ensures v.Undoable(k, m0) && v.Clock(r.now)
  {
    assert forall x :: 0 <= x < v.p.n ==> Stamp(x) in m;
    hide Restores, Stamps, AllBefore, InForm, Rep, Invariant;
    JournalWithin(v.p.n, m, trail, brk, k, m0, v.mem, v.brk);
  }

  // ------------------------------------------------ trying a value

  /** in_dom, for a value between the bounds. */
  method InDom(v: Solver, i: int, x: int, ghost s: Pass) returns (b: bool)
    requires v.Shows(s) && 0 <= x < v.p.n && !Single(s.box[x]) && VarMin(s.box[x]) <= i <= VarMax(s.box[x])
    ensures b <==> i in s.box[x]
  {
    v.ShowsVar(s, x);
    hide InForm, Rep;
    var d := View(v.mem, x);
    DomFacts(d);
    hide VarKeys, View;
    b := InFd(d, i);
  }

  function PropV(m: int, min: int, max: int): int {
    if min == m then P_MAX else if max == m then P_MIN else P_MINMAX
  }

  lemma BoundRecord(m: Mem, s: Pass, y: int, i: int)
    requires 0 <= y < |s.box| && y < |s.change| && y < |s.time| && VarRep(m, s, y) && 0 <= i <= 255
    ensures VarRep(m[Cell(y) := N(i)], s.(box := s.box[y := {i}]), y)
  {
    hide SetOf;
  }

  /** fd_set_value. */
  method SetValue(v: Solver, x: int, i: int, cp: int, ghost s: Pass, ghost k: int, ghost m0: Mem)
    requires v.Undoable(k, m0) && v.Shows(s) && s.q == [] && |v.trail| == k && cp == 1 + 2 * k
    requires 0 <= x < v.p.n && !Single(s.box[x]) && i in s.box[x] && 0 <= i <= 255
    modifies v`mem, v`trail
    ensures v.Undoable(k, m0) && v.Shows(s.(box := s.box[x := {i}])) && FieldsSaved(v.trail, k, x)
    ensures |v.trail| > k && old(v.trail) <= v.trail
  {
    ghost var r := s.(box := s.box[x := {i}]);
    OneNarrows(s.box, x, {i});
    v.ShowsVar(s, x);
    hide Journal, FieldsSaved, Rep, View, VarKeys, InShape, Narrows, Num;
    v.TrailOnce(x, cp, s, k, m0);
    v.ShowsVar(s, x);
    KeysHave(v.mem, x);
    ghost var t, m := v.trail, v.mem;
    BoundRecord(m, s, x, i);
    v.BindValue(x, i, k, m0);
    FieldsGrow(t, v.trail, k, x);
    CellOnly(m, x, N(i));
    NarrowFrame(v.p, m, v.mem, s, r, x);
  }

  lemma CellOnly(m: Mem, x: int, u: Val)
    ensures SameOutside(m, m[Cell(x) := u], x)
  {
  }

  lemma LabelStarts(p: Problem, s: Pass, x: int, i: int)
    requires Invariant(p, s) && s.q == [] && s.at == 0
    requires 0 <= x < p.n && !Single(s.box[x]) && i in s.box[x]
    ensures var c := PropV(i, VarMin(s.box[x]), VarMax(s.box[x]));
            0 <= c <= 3 && Invariant(p, Started(s.(box := s.box[x := {i}]), x, c))
  {
    LabelKeeps(p, s, x, i);
    LabelChange(s.box[x], i);
    hide Invariant, InForm, VarMin, VarMax, ChangeOf;
    assert Started(s.(box := s.box[x := {i}]), x, ChangeOf(s.box[x], {i})) == Narrowed(s, x, {i});
  }

  /** Gives x the value i and propagates. */
  method Try(v: Solver, x: int, i: int, min: int, max: int, cp: int, ghost s: Pass, ghost k: int, ghost m0: Mem)
    returns (a: Answer, ghost r: Pass)
    requires AtChoice(v, s, k, m0) && v.Loaded() && cp == 1 + 2 * k
    requires 0 <= x < v.p.n && !Single(s.box[x]) && i in s.box[x] && min == VarMin(s.box[x]) && max == VarMax(s.box[x])
    modifies v`mem, v`trail, v`brk, v`time, v`lastExec, v.ev`v, v.ev`b, v.ev.vStack, v.ev.bHeap
    ensures v.Undoable(k, m0) && |v.trail| > k && old(v.trail) <= v.trail
    ensures a == TRUE ==> Rest(v, r) && r.now >= s.now
    ensures a == TRUE ==> Sols(v.p, r.box) == Sols(v.p, s.box[x := {i}]) && Narrows(s.box[x := {i}], r.box)
    ensures a == TRUE ==> forall g :: 0 <= g < |v.p.fs| && Come(v.p, s.box, r.box, g) ==> Entailed(v.p, r, g)
    ensures a == FALSE ==> Sols(v.p, s.box[x := {i}]) == {} && v.Clock(s.now)
    ensures Safe(v.p, s.box) ==> a != FATAL && (a == TRUE ==> Safe(v.p, r.box))
  {
    TrySafe(v.p, s.box, x, i);
    ghost var s1 := Afresh(v.p, Later(s, v.lastExec, v.time));
    ChoiceShows(v, s, k, m0);
    AfreshShows(v, Later(s, v.lastExec, v.time));
    LabelStarts(v.p, s1, x, i);
    ValueInUniverse(v.p, s, x, i);
    ChoiceClock(v, s, k, m0);
    LabelTold(v.p, s, Later(s, v.lastExec, v.time), x, i);
    hide Journal, Rep, Invariant, InForm, FieldsSaved, Sols, Narrows, VarMin, VarMax, AtChoice, Safe, Tells, Told, Come;
    SetValue(v, x, i, cp, s1, k, m0);
    ghost var s2 := s1.(box := s1.box[x := {i}]);
    a, r := v.FdProp(x, PropV(i, min, max), cp, s2, k, m0);
    if a == TRUE {
      AllReached(v.p, s.box, s2, r);
      RestReached(v, r, k, m0);
      SafeNarrows(v.p, s.box[x := {i}], r.box);
    } else if a == FALSE {
      v.ClockBack(s1.now, s.now);
    }
  }

  /** What has been seen is no part of memory. */
  lemma AfreshShows(v: Solver, s: Pass)
    requires v.Shows(s) && Invariant(v.p, s) && s.q == []
    ensures v.Shows(Afresh(v.p, s)) && Invariant(v.p, Afresh(v.p, s))
  {
    var r := Afresh(v.p, s);
    AtRest(v.p, s, r);
    hide Rep, Invariant, InShape;
    RepSame(v.p, v.mem, s, r);
  }

  lemma LabelTold(p: Problem, s: Pass, t: Pass, x: int, i: int)
    requires 0 <= x < |s.box| && i in s.box[x] && !Single(s.box[x]) && t.box == s.box
    ensures var s2 := Afresh(p, t).(box := s.box[x := {i}]);
            Narrows(s.box, s2.box) && forall g :: 0 <= g < |p.fs| ==> Told(p, s.box, s2, g)
  {
    OneNarrows(s.box, x, {i});
    var s2 := Afresh(p, t).(box := s.box[x := {i}]);
    forall g | 0 <= g < |p.fs|
      ensures Told(p, s.box, s2, g)
    {
      AfreshTold(p, t, g);
    }
  }

  lemma AllReached(p: Problem, b: Box, s: Pass, r: Pass)
    requires Invariant(p, r) && r.q == [] && |b| == p.n && Narrows(b, s.box) && Tells(p, s, r)
    requires forall g :: 0 <= g < |p.fs| ==> Told(p, b, s, g)
    ensures forall g :: 0 <= g < |p.fs| && Come(p, b, r.box, g) ==> Entailed(p, r, g)
  {
    assert InShape(p);
    hide Come, Told, Invariant, InShape, Narrows;
    forall g | 0 <= g < |p.fs| && Come(p, b, r.box, g)
      ensures Entailed(p, r, g)
    {
      assert Told(p, b, s, g);
      EntailmentReached(p, b, r, g);
    }
  }

  lemma TrySafe(p: Problem, box: Box, x: int, i: int)
    requires 0 <= x < |box| && i in box[x] && !Single(box[x])
    ensures Safe(p, box) ==> Safe(p, box[x := {i}])
  {
    hide Safe, Narrows;
    OneNarrows(box, x, {i});
    SafeNarrows(p, box, box[x := {i}]);
  }

  lemma ValueInUniverse(p: Problem, s: Pass, x: int, i: int)
    requires Invariant(p, s) && 0 <= x < p.n && i in s.box[x]
    ensures 0 <= i <= 255
  {
    assert s.box[x] <= Universe();
  }

  lemma ChoiceClock(v: Solver, s: Pass, k: int, m0: Mem)
    requires AtChoice(v, s, k, m0)
    ensures s.now <= v.time && v.Undoable(k, m0) && |v.trail| == k && s.now >= 0 && s.q == [] && s.at == 0
  {
  }

  lemma RestReached(v: Solver, r: Pass, k: int, m0: Mem)
    requires v.Undoable(k, m0) && |v.trail| > k
    requires v.Shows(r) && Invariant(v.p, r) && r.q == [] && r.at == 0 && r.now >= 0
    ensures Rest(v, r)
  {
    StampsPresent(v, r);
    BeforeNext(v.p.n, v.mem, v.trail, v.brk, k, m0);
  }

  // ------------------------------------------------ counting by the values of one variable

  /** One more value of x: its solutions are counted once. */
  lemma CountStep(p: Problem, box: Box, x: int, m: int)
    requires 0 <= x < |box|
    ensures m in box[x] ==>
              |SolsBelow(p, box, x, m + 1)| == |SolsBelow(p, box, x, m)| + |Sols(p, box[x := {m}])|
    ensures m !in box[x] ==> SolsBelow(p, box, x, m + 1) == SolsBelow(p, box, x, m)
  {
    hide Sols;
    if m in box[x] {
      var t := Sols(p, box[x := {m}]);
      forall a
        ensures a in SolsBelow(p, box, x, m + 1) <==> a in SolsBelow(p, box, x, m) + t
        ensures !(a in SolsBelow(p, box, x, m) && a in t)
      {
        OneValueSols(p, box, x, m, a);
      }
      assert SolsBelow(p, box, x, m + 1) == SolsBelow(p, box, x, m) + t;
      assert SolsBelow(p, box, x, m) !! t;
    } else {
      forall a | a in Sols(p, box)
        ensures ValueAt(a, x) != m
      {
        SolsAre(p, box, a);
      }
    }
  }

  lemma CountEnds(p: Problem, box: Box, x: int)
    requires 0 <= x < |box|
    ensures SolsBelow(p, box, x, VarMin(box[x])) == {}
    ensures forall m :: m > VarMax(box[x]) ==> SolsBelow(p, box, x, m) == Sols(p, box)
  {
    hide Sols;
    forall a | a in Sols(p, box)
      ensures VarMin(box[x]) <= ValueAt(a, x) <= VarMax(box[x])
    {
      SolsAre(p, box, a);
      assert a[x] in box[x];
      assert IsMin(box[x], Least(box[x])) && IsMax(box[x], Greatest(box[x]));
    }
  }

  lemma {:induction false} TotalNarrows(a: Box, b: Box)
    requires Narrows(a, b)
    ensures Total(b) <= Total(a)
  {
    if |a| > 0 {
      assert b[0] <= a[0];
      CardLess(b[0], a[0]);
      assert Narrows(a[1..], b[1..]) by {
        forall x | 0 <= x < |a| - 1
          ensures b[1..][x] <= a[1..][x] && (Single(a[1..][x]) ==> b[1..][x] == a[1..][x])
        {
          assert b[x + 1] <= a[x + 1];
        }
      }
      TotalNarrows(a[1..], b[1..]);
    }
  }

  lemma CardLess(s: set<int>, t: set<int>)
    requires s <= t
    ensures |s| <= |t|
  {
    assert t == s + (t - s);
  }

  /** Every value tried leaves fewer values. */
  lemma TriedSmaller(box: Box, x: int, i: int, r: Box)
    requires 0 <= x < |box| && i in box[x] && !Single(box[x]) && Narrows(box[x := {i}], r)
    ensures Total(r) < Total(box)
  {
    var d := box[x];
    if d <= {i} {
      OneIsSingle(d, i);
    }
    hide Narrows, Total;
    TotalShrinks(box, x, {i});
    TotalNarrows(box[x := {i}], r);
  }

  // ------------------------------------------------ the size of a domain

  function CountBits(w: seq<bool>): nat {
    if w == [] then 0 else CountBits(w[..|w| - 1]) + if w[|w| - 1] then 1 else 0
  }

  /** number_of_bits: the word is shifted right bit by bit. */
  method NumberOfBits(w: Word) returns (i: int)
    ensures i == CountBits(w)
  {
    i := 0;
    var j := 0;
    assert w[..32] == w;
    while j < 32
      invariant 0 <= j <= 32
      invariant i + CountBits(w[..32 - j]) == CountBits(w)
    {
      assert w[..32 - j][..32 - j - 1] == w[..32 - j - 1];
      if w[31 - j] {
        i := i + 1;
      }
      j := j + 1;
    }
  }

  /** The elements below a word, and those in its first n bits. */
  lemma {:induction false} BitsBelow(ws: seq<Word>, k: int, n: int)
    requires 0 <= k < |ws| && 0 <= n <= 32
    ensures |Below(SetOf(ws), 32 * k + n)| == |Below(SetOf(ws), 32 * k)| + CountBits(ws[k][..n])
    decreases n
  {
    if n > 0 {
      BitsBelow(ws, k, n - 1);
      var v := 32 * k + n - 1;
      BelowNext(ws, v);
      assert v / 32 == k && v % 32 == n - 1;
      assert ws[k][..n][..n - 1] == ws[k][..n - 1];
    }
  }

  lemma OneWordMore(ws: seq<Word>, k: int)
    requires 0 <= k < |ws|
    ensures |Below(SetOf(ws), 32 * (k + 1))| == |Below(SetOf(ws), 32 * k)| + CountBits(ws[k])
  {
    BitsBelow(ws, k, 32);
    hide SetOf, CountBits;
    assert ws[k][..32] == ws[k];
  }

  lemma BelowEnds(s: set<int>, n: int)
    requires forall v :: v in s ==> 0 <= v < n
    ensures Below(s, 0) == {} && Below(s, n) == s
  {
  }

  method WordsSize(ws: seq<Word>) returns (sz: int)
    ensures sz == |SetOf(ws)|
  {
    ghost var s := SetOf(ws);
    ShowsSetOf(ws);
    ShowsBounds(ws, s);
    BelowEnds(s, 32 * |ws|);
    hide *;
    sz := 0;
    var k := 0;
    while k < |ws|
      invariant 0 <= k <= |ws|
      invariant sz == |Below(s, 32 * k)|
    {
      var i := NumberOfBits(ws[k]);
      OneWordMore(ws, k);
      sz := sz + i;
      k := k + 1;
    }
  }

  lemma {:induction false} IntervalSize(i: int, j: int)
    requires i <= j + 1
    ensures |Interval(i, j)| == j - i + 1
    decreases j - i
  {
    if i <= j {
      IntervalSize(i, j - 1);
      assert Interval(i, j) == Interval(i, j - 1) + {j};
    } else {
      assert Interval(i, j) == {};
    }
  }

  method DomSize(v: Solver, x: int, ghost s: Pass) returns (sz: int)
    requires v.Shows(s) && 0 <= x < v.p.n && !Single(s.box[x])
    ensures sz == |s.box[x]|
  {
    v.ShowsVar(s, x);
    hide InForm, Rep, SetOf;
    var d := View(v.mem, x);
    DomFacts(d);
    if d.interval {
      IntervalSize(d.lo, d.hi);
      return d.hi - d.lo + 1;
    }
    sz := WordsSize(d.words);
  }

  // ------------------------------------------------ choosing a variable

  method Determined(v: Solver, x: int, ghost s: Pass) returns (b: bool)
    requires v.Shows(s) && 0 <= x < v.p.n
    ensures b <==> Single(s.box[x])
  {
    v.ShowsVar(s, x);
    hide InForm, Rep;
    DomFacts(View(v.mem, x));
    b := Num(v.mem, Cell(x)) >= 0;
  }

  /** The first undetermined variable of the list. */
  method FirstOf(v: Solver, vs: seq<int>, ghost s: Pass) returns (i: int)
    requires v.Shows(s) && forall i :: 0 <= i < |vs| ==> 0 <= vs[i] < v.p.n
    ensures 0 <= i <= |vs| && forall j :: 0 <= j < i ==> Single(Dom1(s.box, vs[j]))
    ensures i < |vs| ==> FirstOpen(vs, s.box, i)
  {
    assert |s.box| == v.p.n;
    hide InForm, Rep, Single;
    i := 0;
    while i < |vs|
      invariant 0 <= i <= |vs| && forall j :: 0 <= j < i ==> Single(Dom1(s.box, vs[j]))
    {
      var b := Determined(v, vs[i], s);
      if !b {
        return;
      }
      i := i + 1;
    }
  }

  /** The first variable with a smallest domain among those of the list that
      are not determined; the first of these is the one at position i. */
  method SmallestOf(v: Solver, vs: seq<int>, i: int, ghost s: Pass) returns (x: int)
    requires v.Shows(s) && forall i :: 0 <= i < |vs| ==> 0 <= vs[i] < v.p.n
    requires FirstOpen(vs, s.box, i)
    ensures FirstSmallest(vs, s.box, x)
  {
    assert |s.box| == v.p.n;
    hide InForm, Rep, Single;
    x := vs[i];
    var szm := DomSize(v, x, s);
    var j := i + 1;
    ghost var k := i;
    while j < |vs|
      invariant i <= k < j <= |vs| && x == vs[k] && !Single(Dom1(s.box, x)) && szm == |Dom1(s.box, x)|
      invariant forall h :: 0 <= h < k && !Single(Dom1(s.box, vs[h])) ==> szm < |Dom1(s.box, vs[h])|
      invariant forall h :: k <= h < j && !Single(Dom1(s.box, vs[h])) ==> szm <= |Dom1(s.box, vs[h])|
    {
      var b := Determined(v, vs[j], s);
      if !b {
        var sz := DomSize(v, vs[j], s);
        if sz < szm {
          x, szm, k := vs[j], sz, j;
        }
      }
      j := j + 1;
    }
    assert SmallestAt(vs, s.box, k);
  }

  /** The variable to label next and the list to go on with. */
  method Choose(v: Solver, vs: seq<int>, ff: bool, ghost s: Pass) returns (done: bool, x: int, rest: seq<int>)
    requires v.Shows(s) && Listed(v.p.n, vs, s.box)
    ensures done <==> forall i :: 0 <= i < |vs| ==> Single(Dom1(s.box, vs[i]))
    ensures done ==> forall x :: 0 <= x < v.p.n ==> Single(Dom1(s.box, x))
    ensures !done ==> Chosen(vs, ff, s.box, x, rest)
    ensures !done ==> 0 <= x < v.p.n && x in vs && !Single(Dom1(s.box, x)) && ListedWithout(v.p.n, rest, x, s.box)
  {
    assert |s.box| == v.p.n;
    hide InForm, Rep, Single, FirstSmallest;
    var i := FirstOf(v, vs, s);
    if i == |vs| {
      return true, 0, [];
    }
    done := false;
    if ff {
      x := SmallestOf(v, vs, i, s);
      rest := vs[i..];
    } else {
      x := vs[i];
      rest := vs[i + 1..];
    }
    assert ChosenAt(vs, ff, s.box, i, x, rest);
    ChosenListed(vs, ff, s.box, x, rest);
  }

  // ------------------------------------------------ counting

  /** Back at the choice point after a value has been tried. */
  method Back(v: Solver, cp: int, ghost s: Pass, ghost k: int, ghost m0: Mem, ghost t: Trail)
    requires InForm(v.p, s) && Rep(v.p, m0, s) && Invariant(v.p, s) && s.q == [] && s.at == 0 && s.now >= 0
    requires v.Undoable(k, m0) && v.Clock(s.now) && AllBefore(v.p.n, m0, k) && cp == 1 + 2 * k
    requires |t| == k && t <= v.trail
    modifies v`mem, v`trail
    ensures AtChoice(v, s, k, m0) && v.trail == t
  {
    hide Journal, InForm, Rep, Invariant, AllBefore;
    ghost var u := v.trail;
    ResetTrail(v, cp, k, m0);
    ChoiceAgain(v, s, k, m0);
    assert u[..k] == t;
  }

  lemma ChoiceFacts(v: Solver, s: Pass, k: int, m0: Mem)
    requires AtChoice(v, s, k, m0)
    ensures InForm(v.p, s) && Rep(v.p, m0, s) && Invariant(v.p, s) && s.q == [] && s.at == 0 && s.now >= 0
    ensures AllBefore(v.p.n, m0, k) && v.Clock(s.now) && v.Undoable(k, m0) && |v.trail| == k
  {
  }

  /** fd_numb_of, and with ff fd_numb_of_ff: adds the number of solutions to the
      counter, and leaves memory and trail as they were. */
  method NumbOf(v: Solver, vs: seq<int>, ff: bool, ghost s: Pass) returns (ok: bool)
    requires Rest(v, s) && v.Loaded() && Listed(v.p.n, vs, s.box)
    modifies v, v.ev`v, v.ev`b, v.ev.vStack, v.ev.bHeap
    ensures ok ==> v.solutions == old(v.solutions) + |Sols(v.p, s.box)|
    ensures ok ==> AtChoice(v, s, |old(v.trail)|, old(v.mem)) && v.trail == old(v.trail)
    ensures Safe(v.p, s.box) ==> ok
    decreases Total(s.box), 1, 1
  {
    ghost var k, m0, t := |v.trail|, v.mem, v.trail;
    ChoiceStarts(v, s);
    ok := true;
    var done, x, rest := Choose(v, vs, ff, s);
    if done {
      AllDetermined(v.p, s);
      v.solutions := v.solutions + 1;
      return;
    }
    ok := CountAll(v, x, rest, ff, s, k, m0);
  }

  lemma ChoiceBox(v: Solver, s: Pass, x: int, k: int, m0: Mem, cp: int)
    requires AtChoice(v, s, k, m0) && 0 <= x < v.p.n && cp == Cp(v.trail)
    ensures |s.box| == v.p.n && Dom1(s.box, x) == s.box[x] && cp == 1 + 2 * k
  {
  }

  /** The labelling loop for the variable x. */
  method CountAll(v: Solver, x: int, rest: seq<int>, ff: bool, ghost s: Pass, ghost k: int,
    ghost m0: Mem)
    returns (ok: bool)
    requires AtChoice(v, s, k, m0) && v.Shows(s) && v.Loaded()
    requires 0 <= x < v.p.n && !Single(Dom1(s.box, x)) && ListedWithout(v.p.n, rest, x, s.box)
    modifies v, v.ev`v, v.ev`b, v.ev.vStack, v.ev.bHeap
    ensures ok ==> v.solutions == old(v.solutions) + |Sols(v.p, s.box)|
    ensures ok ==> AtChoice(v, s, k, m0) && v.trail == old(v.trail)
    ensures Safe(v.p, s.box) ==> ok
    decreases Total(s.box), 1, 0
  {
    hide *;
    ghost var t := v.trail;
    var cp := Cp(v.trail);
    ChoiceBox(v, s, x, k, m0, cp);
    var min, max := Bounds1(v, x, s);
    CountEnds(v.p, s.box, x);
    ok := true;
    var m := min;
    while m <= max
      invariant m <= max ==> min <= m
      invariant AtChoice(v, s, k, m0) && v.trail == t
      invariant v.solutions == old(v.solutions) + |SolsBelow(v.p, s.box, x, m)|
    {
      CountStep(v.p, s.box, x, m);
      ok := CountValue(v, x, m, min, max, rest, ff, cp, s, k, m0);
      if !ok {
        return;
      }
      m := m + 1;
    }
  }

  /** One round of the labelling loop: the value m of x, if it is in the
      domain, is tried, its solutions are counted, and it is undone. */
  method CountValue(v: Solver, x: int, m: int, min: int, max: int, rest: seq<int>, ff: bool, cp: int,
                    ghost s: Pass, ghost k: int, ghost m0: Mem) returns (ok: bool)
    requires AtChoice(v, s, k, m0) && v.Loaded() && cp == 1 + 2 * k && |s.box| == v.p.n
    requires 0 <= x < v.p.n && !Single(s.box[x]) && min == VarMin(s.box[x]) && max == VarMax(s.box[x])
             && min <= m <= max
    requires ListedWithout(v.p.n, rest, x, s.box)
    modifies v, v.ev`v, v.ev`b, v.ev.vStack, v.ev.bHeap
    ensures ok ==> v.trail == old(v.trail) && AtChoice(v, s, k, m0)
    ensures ok ==> v.solutions == old(v.solutions) + if m in s.box[x] then |Sols(v.p, s.box[x := {m}])| else 0
    ensures Safe(v.p, s.box) ==> ok
    decreases Total(s.box), 0
  {
    hide *;
    ok := true;
    ChoiceShows(v, s, k, m0);
    LaterBox(s, v.lastExec, v.time);
    var b := InDom(v, m, x, Later(s, v.lastExec, v.time));
    if !b {
      return;
    }
    ghost var t := v.trail;
    ChoiceFacts(v, s, k, m0);
    var a;
    ghost var r;
    a, r := Try(v, x, m, min, max, cp, s, k, m0);
    if a == FATAL {
      return false;
    }
    if a == TRUE {
      TriedSmaller(s.box, x, m, r.box);
      TriedListed(v.p.n, rest, x, m, s.box, r.box);
      ok := CountDeeper(v, rest, ff, r, k, m0, s.now);
      if !ok {
        return;
      }
    }
    Back(v, cp, s, k, m0, t);
  }

  /** The recursive call, seen from the choice point above it. */
  method CountDeeper(v: Solver, rest: seq<int>, ff: bool, ghost r: Pass, ghost k: int, ghost m0: Mem, ghost since: int)
    returns (ok: bool)
    requires Rest(v, r) && v.Loaded() && Listed(v.p.n, rest, r.box) && v.Undoable(k, m0) && since <= r.now
    modifies v, v.ev`v, v.ev`b, v.ev.vStack, v.ev.bHeap
    ensures ok ==> v.solutions == old(v.solutions) + |Sols(v.p, r.box)|
    ensures ok ==> v.trail == old(v.trail) && v.Undoable(k, m0) && v.Clock(since)
    ensures Safe(v.p, r.box) ==> ok
    decreases Total(r.box), 2
  {
    ghost var t, m, b := v.trail, v.mem, v.brk;
    hide Rest, Listed, Journal, Total, Sols, AtChoice;
    ok := NumbOf(v, rest, ff, r);
    if ok {
      DeeperUndone(v, t, m, b, r, |t|, k, m0);
      v.ClockBack(r.now, since);
    }
  }

  method Bounds1(v: Solver, x: int, ghost s: Pass) returns (min: int, max: int)
    requires v.Shows(s) && 0 <= x < v.p.n && !Single(s.box[x])
    ensures min == VarMin(s.box[x]) && max == VarMax(s.box[x])
  {
    v.ShowsVar(s, x);
    hide InForm, Rep;
    DomFacts(View(v.mem, x));
    min, max := Num(v.mem, Min(x)), Num(v.mem, Max(x));
  }

  lemma AllDetermined(p: Problem, s: Pass)
    requires Invariant(p, s) && s.q == [] && forall x :: 0 <= x < p.n ==> Single(Dom1(s.box, x))
    ensures |Sols(p, s.box)| == 1
  {
    forall x | 0 <= x < p.n
      ensures Single(s.box[x])
    {
      assert Dom1(s.box, x) == s.box[x];
    }
    DeterminedSolves(p, s);
    hide Invariant, Sols, Inside;
    var a :| Sols(p, s.box) == {a} && Inside(a, s.box);
  }

  // ------------------------------------------------ finding a solution

  lemma DeterminedSolution(p: Problem, s: Pass)
    requires Invariant(p, s) && s.q == [] && forall x :: 0 <= x < p.n ==> Single(Dom1(s.box, x))
    ensures IsSolution(p, s.box, s.box)
  {
    forall x | 0 <= x < p.n
      ensures Single(s.box[x])
    {
      assert Dom1(s.box, x) == s.box[x];
    }
    DeterminedSolves(p, s);
    assert |s.box| == p.n;
    hide Invariant, Sols, Solves, InForm;
    var a :| Sols(p, s.box) == {a} && Inside(a, s.box);
    PointOnly(s.box, a);
    assert a in Sols(p, s.box);
  }

  lemma PointOnly(box: Box, a: seq<int>)
    requires Inside(a, box) && forall x :: 0 <= x < |box| ==> Single(box[x])
    ensures box == Point(a)
  {
    forall x | 0 <= x < |box|
      ensures box[x] == Point(a)[x]
    {
      assert a[x] in box[x];
      var v :| box[x] == {v};
    }
  }

  /** fd_one_solution, and with ff fd_one_solution_ff: TRUE leaves a solution in
      memory, the first in the order of labelling; FALSE tells there is none, and
      leaves memory as it was. */
  method OneSolution(v: Solver, vs: seq<int>, ff: bool, ghost s: Pass) returns (a: Answer, ghost r: Pass)
    requires Rest(v, s) && v.Loaded() && Listed(v.p.n, vs, s.box)
    modifies v, v.ev`v, v.ev`b, v.ev.vStack, v.ev.bHeap
    ensures a == TRUE ==> v.Shows(r) && FirstFound(v.p, vs, ff, s.box, r.box)
    ensures a == FALSE ==>
            Sols(v.p, s.box) == {} && AtChoice(v, s, |old(v.trail)|, old(v.mem)) && v.trail == old(v.trail)
    ensures Safe(v.p, s.box) ==> a != FATAL
    decreases Total(s.box), 1, 1
  {
    ghost var k, m0 := |v.trail|, v.mem;
    ChoiceStarts(v, s);
    a, r := TRUE, s;
    var done, x, rest := Choose(v, vs, ff, s);
    if done {
      DeterminedSolution(v.p, s);
      return;
    }
    hide Sols, Rest, AtChoice, IsSolution, Chosen, FoundAt, Single;
    a, r := FindOne(v, x, rest, ff, s, k, m0);
  }

  /** The labelling loop for the variable x. */
  method FindOne(v: Solver, x: int, rest: seq<int>, ff: bool, ghost s: Pass, ghost k: int, ghost m0: Mem)
    returns (a: Answer, ghost r: Pass)
    requires AtChoice(v, s, k, m0) && v.Shows(s) && v.Loaded()
    requires 0 <= x < v.p.n && !Single(Dom1(s.box, x)) && ListedWithout(v.p.n, rest, x, s.box)
    modifies v, v.ev`v, v.ev`b, v.ev.vStack, v.ev.bHeap
    ensures a == TRUE ==> v.Shows(r) && exists m :: FoundAt(v.p, rest, ff, s.box, x, m, r.box)
    ensures a == FALSE ==> Sols(v.p, s.box) == {} && AtChoice(v, s, k, m0) && v.trail == old(v.trail)
    ensures Safe(v.p, s.box) ==> a != FATAL
    decreases Total(s.box), 1, 0
  {
    hide *;
    ghost var t := v.trail;
    var cp := Cp(v.trail);
    ChoiceBox(v, s, x, k, m0, cp);
    var min, max := Bounds1(v, x, s);
    CountEnds(v.p, s.box, x);
    a, r := FALSE, s;
    var m := min;
    while m <= max
      invariant m <= max ==> min <= m
      invariant a == FALSE && AtChoice(v, s, k, m0) && v.trail == t
      invariant SolsBelow(v.p, s.box, x, m) == {}
    {
      a, r := FindValue(v, x, m, min, max, rest, ff, cp, s, k, m0);
      if a != FALSE {
        if a == TRUE {
          FoundFirst(v.p, rest, ff, s.box, x, m, r.box);
        }
        return;
      }
      NoneBelow(v.p, s.box, x, m);
      m := m + 1;
    }
  }

  lemma NoneBelow(p: Problem, box: Box, x: int, m: int)
    requires 0 <= x < |box| && SolsBelow(p, box, x, m) == {}
    requires m in box[x] ==> Sols(p, box[x := {m}]) == {}
    ensures SolsBelow(p, box, x, m + 1) == {}
  {
    CountStep(p, box, x, m);
    hide Sols, SolsBelow;
    NoElements(SolsBelow(p, box, x, m + 1));
  }

  lemma NoElements(s: set<seq<int>>)
    ensures |s| == 0 ==> s == {}
  {
  }

  /** One round of the labelling loop. */
  method FindValue(v: Solver, x: int, m: int, min: int, max: int, rest: seq<int>, ff: bool, cp: int,
                   ghost s: Pass, ghost k: int, ghost m0: Mem) returns (a: Answer, ghost r: Pass)
    requires AtChoice(v, s, k, m0) && v.Loaded() && cp == 1 + 2 * k && |s.box| == v.p.n
    requires 0 <= x < v.p.n && !Single(s.box[x]) && min == VarMin(s.box[x]) && max == VarMax(s.box[x])
             && min <= m <= max
    requires ListedWithout(v.p.n, rest, x, s.box)
    modifies v, v.ev`v, v.ev`b, v.ev.vStack, v.ev.bHeap
    ensures a == TRUE ==> v.Shows(r) && m in s.box[x] && FoundWith(v.p, rest, ff, s.box, x, m, r.box)
    ensures a == FALSE ==> v.trail == old(v.trail) && AtChoice(v, s, k, m0)
    ensures a == FALSE ==> (m in s.box[x] ==> Sols(v.p, s.box[x := {m}]) == {})
    ensures Safe(v.p, s.box) ==> a != FATAL
    decreases Total(s.box), 0
  {
    hide *;
    a, r := FALSE, s;
    ChoiceShows(v, s, k, m0);
    LaterBox(s, v.lastExec, v.time);
    var b := InDom(v, m, x, Later(s, v.lastExec, v.time));
    if !b {
      return;
    }
    ghost var t := v.trail;
    ChoiceFacts(v, s, k, m0);
    ghost var r1;
    a, r1 := Try(v, x, m, min, max, cp, s, k, m0);
    if a == FATAL {
      return;
    }
    if a == TRUE {
      TriedSmaller(s.box, x, m, r1.box);
      TriedListed(v.p.n, rest, x, m, s.box, r1.box);
      a, r := FindDeeper(v, rest, ff, r1, k, m0, s.now);
      if a == TRUE {
        FoundOne(v.p, rest, ff, s.box, x, m, r1.box, r.box);
      }
      if a != FALSE {
        return;
      }
    }
    Back(v, cp, s, k, m0, t);
  }

  method FindDeeper(v: Solver, rest: seq<int>, ff: bool, ghost r1: Pass, ghost k: int, ghost m0: Mem, ghost since: int)
    returns (a: Answer, ghost r: Pass)
    requires Rest(v, r1) && v.Loaded() && Listed(v.p.n, rest, r1.box) && v.Undoable(k, m0) && since <= r1.now
    modifies v, v.ev`v, v.ev`b, v.ev.vStack, v.ev.bHeap
    ensures a == TRUE ==> v.Shows(r) && FirstFound(v.p, rest, ff, r1.box, r.box)
    ensures a == FALSE ==> Sols(v.p, r1.box) == {} && v.trail == old(v.trail) && v.Undoable(k, m0) && v.Clock(since)
    ensures Safe(v.p, r1.box) ==> a != FATAL
    decreases Total(r1.box), 2
  {
    ghost var t, m, b := v.trail, v.mem, v.brk;
    hide Rest, Listed, Journal, Total, Sols, AtChoice;
    a, r := OneSolution(v, rest, ff, r1);
    if a == FALSE {
      DeeperUndone(v, t, m, b, r1, |t|, k, m0);
      v.ClockBack(r1.now, since);
    }
  }

  // ------------------------------------------------ the builtins

  /** fd_numberof and fd_numberof_ff: the number of solutions. The trail starts
      out empty, and no record carries a stamp. */
  method NumberOf(v: Solver, vs: seq<int>, ff: bool, ghost s: Pass) returns (ok: bool, n: int)
    requires v.Shows(s) && Invariant(v.p, s) && s.q == [] && s.at == 0 && s.now >= 0 && v.Loaded()
    requires BlocksBelow(v.mem, v.brk) && AllBefore(v.p.n, v.mem, 0) && Listed(v.p.n, vs, s.box)
    modifies v, v.ev`v, v.ev`b, v.ev.vStack, v.ev.bHeap
    ensures ok ==> n == |Sols(v.p, s.box)| && Within(old(v.mem), v.mem)
    ensures Safe(v.p, s.box) ==> ok
  {
    hide *;
    v.trail := [];
    v.solutions := 0;
    EmptyTrail(v, s);
    ghost var m0 := v.mem;
    ok := NumbOf(v, vs, ff, s);
    n := v.solutions;
    if ok {
      ChoiceWithin(v, s, 0, m0);
    }
  }

  lemma EmptyTrail(v: Solver, s: Pass)
    requires v.Shows(s) && Invariant(v.p, s) && s.q == [] && s.at == 0 && s.now >= 0
    requires BlocksBelow(v.mem, v.brk) && AllBefore(v.p.n, v.mem, 0) && v.trail == []
    ensures Rest(v, s)
  {
  }

  lemma ChoiceWithin(v: Solver, s: Pass, k: int, m0: Mem)
    requires AtChoice(v, s, k, m0)
    ensures Within(m0, v.mem)
  {
  }

  /** fd_one and fd_one_ff. In the order of the list it is the least solution. */
  method One(v: Solver, vs: seq<int>, ff: bool, ghost s: Pass) returns (a: Answer, ghost r: Pass)
    requires v.Shows(s) && Invariant(v.p, s) && s.q == [] && s.at == 0 && s.now >= 0 && v.Loaded()
    requires BlocksBelow(v.mem, v.brk) && AllBefore(v.p.n, v.mem, 0) && Listed(v.p.n, vs, s.box)
    modifies v, v.ev`v, v.ev`b, v.ev.vStack, v.ev.bHeap
    ensures a == TRUE ==> v.Shows(r) && IsSolution(v.p, s.box, r.box) && FirstFound(v.p, vs, ff, s.box, r.box)
    ensures a == TRUE && !ff ==> exists a :: r.box == Point(a) && LeastSolution(v.p, vs, s.box, a)
    ensures a != FATAL ==> (a == TRUE <==> Sols(v.p, s.box) != {})
    ensures Safe(v.p, s.box) ==> a != FATAL
  {
    hide *;
    v.trail := [];
    EmptyTrail(v, s);
    BoxShape(v, s);
    a, r := OneSolution(v, vs, ff, s);
    if a == TRUE {
      FirstIsSolution(v.p, vs, ff, s.box, r.box);
      if !ff {
        FirstIsLeast(v.p, vs, s.box, r.box);
      }
      SolutionExists(v.p, s.box, r.box);
    }
  }

  lemma BoxShape(v: Solver, s: Pass)
    requires v.Shows(s)
    ensures |s.box| == v.p.n
  {
  }

  lemma SolutionExists(p: Problem, box: Box, found: Box)
    requires IsSolution(p, box, found)
    ensures Sols(p, box) != {}
  {
    hide Sols;
  }
}
