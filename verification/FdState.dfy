/** How memory represents a pass of the propagation loop. */
module FdState {
  import opened FdWords
  import opened FdExpr
  import opened FdVar
  import opened FdProblem
  import opened FdFixpoint
  import opened FdStore

  /** The first k words of a domain block. */
  function WordsOf(m: Mem, x: int, block: int, k: int): seq<Word> {
    if k <= 0 then [] else WordsOf(m, x, block, k - 1) + [WordAt(m, DomainWord(x, block, k - 1))]
  }

  lemma {:induction false} WordsOfAt(m: Mem, x: int, block: int, k: int)
    requires 0 <= k
    ensures |WordsOf(m, x, block, k)| == k
    ensures forall i :: 0 <= i < k ==> WordsOf(m, x, block, k)[i] == WordAt(m, DomainWord(x, block, i))
  {
    if k > 0 {
      WordsOfAt(m, x, block, k - 1);
    }
  }

  predicate Boxed(m: Mem, x: int) {
    Num(m, Cell(x)) < 0 && !InfoAt(m, x).interval
  }

  /** Variable x as its record shows it. */
  function View(m: Mem, x: int): Fd {
    Fd(Num(m, Cell(x)), InfoAt(m, x).interval, Num(m, Min(x)), Num(m, Max(x)),
       if Boxed(m, x) then WordsOf(m, x, Num(m, Domain(x)), InfoAt(m, x).lm + 1) else [])
  }

  ghost predicate VarKeys(m: Mem, x: int) {
    && Cell(x) in m && Next(x) in m && Min(x) in m && Max(x) in m && InfoOf(x) in m && Stamp(x) in m && Domain(x) in m
    && (Boxed(m, x) ==> forall i :: 0 <= i <= InfoAt(m, x).lm ==> DomainWord(x, Num(m, Domain(x)), i) in m)
  }

  ghost predicate VarRep(m: Mem, s: Pass, x: int)
    requires 0 <= x < |s.box| && x < |s.change| && x < |s.time|
  {
    && VarKeys(m, x) && ValidFd(View(m, x)) && DomOf(View(m, x)) == s.box[x]
    && InfoAt(m, x).change == s.change[x] && InfoAt(m, x).time == s.time[x]
  }

  /** The variables a list position has passed are determined. */
  ghost predicate PrefixSingle(vs: seq<int>, k: int, box: Box) {
    0 <= k <= |vs| && forall i :: 0 <= i < k ==> Single(Dom1(box, vs[i]))
  }

  ghost predicate FunRep(p: Problem, m: Mem, s: Pass, f: int)
    requires 0 <= f < |p.fs|
  {
    && Mon(f) in m && Amon(f) in m && Method(f) in m
    && PrefixSingle(p.fs[f].mon, Num(m, Mon(f)), s.box)
    && PrefixSingle(p.fs[f].amon, Num(m, Amon(f)), s.box)
  }

  /** An entailment variable is bound to ZERO or unbound. */
  ghost predicate EntRep(m: Mem, s: Pass, e: int)
    requires 0 <= e < |s.ent|
  {
    Ent(e) in m && (s.ent[e] <==> Num(m, Ent(e)) == 0)
  }

  ghost predicate NoDup(q: seq<int>) {
    forall i, j :: 0 <= i < j < |q| ==> q[i] != q[j]
  }

  function LinkAfter(q: seq<int>, i: int): int {
    if 0 <= i && i + 1 < |q| then q[i + 1] else NULL
  }

  /** The queue: each variable links to the one behind it, and every other
      variable's link is NULL. */
  ghost predicate QueueRep(m: Mem, n: int, q: seq<int>) {
    && NoDup(q)
    && (forall i :: 0 <= i < |q| ==> 0 <= q[i] < n && Num(m, Next(q[i])) == LinkAfter(q, i))
    && (forall x :: 0 <= x < n && x !in q ==> Num(m, Next(x)) == NULL)
  }

  ghost predicate Rep(p: Problem, m: Mem, s: Pass)
    requires InForm(p, s)
  {
    && (forall x :: 0 <= x < p.n ==> VarRep(m, s, x))
    && (forall f :: 0 <= f < |p.fs| ==> FunRep(p, m, s, f))
    && (forall e :: 0 <= e < p.e ==> EntRep(m, s, e))
    && QueueRep(m, p.n, s.q)
  }

  lemma RepParts(p: Problem, m: Mem, s: Pass)
    requires InForm(p, s) && Rep(p, m, s)
    ensures forall f :: 0 <= f < |p.fs| ==> FunRep(p, m, s, f)
    ensures forall e :: 0 <= e < p.e ==> EntRep(m, s, e)
    ensures QueueRep(m, p.n, s.q)
  {
  }

  // ------------------------------------------------ what a write leaves alone

  predicate SameAt(m: Mem, t: Mem, l: Loc) {
    (l in m <==> l in t) && (l in m ==> m[l] == t[l])
  }

  /** The locations that decide the domain of x. */
  predicate Owns(x: int, l: Loc) {
    (l.Cell? || l.Min? || l.Max? || l.InfoOf? || l.Domain? || l.DomainWord?) && l.x == x
  }

  ghost predicate SameOutside(m: Mem, t: Mem, y: int) {
    forall l :: !Owns(y, l) ==> SameAt(m, t, l)
  }

  lemma {:induction false} WordsFrame(m: Mem, t: Mem, x: int, block: int, k: int)
    requires forall i :: SameAt(m, t, DomainWord(x, block, i))
    ensures WordsOf(m, x, block, k) == WordsOf(t, x, block, k)
  {
    if k > 0 {
      assert SameAt(m, t, DomainWord(x, block, k - 1));
      WordsFrame(m, t, x, block, k - 1);
    }
  }

  lemma ViewFrame(m: Mem, t: Mem, x: int)
    requires forall l :: Owns(x, l) ==> SameAt(m, t, l)
    ensures View(m, x) == View(t, x)
  {
    assert SameAt(m, t, Cell(x)) && SameAt(m, t, Min(x)) && SameAt(m, t, Max(x));
    assert SameAt(m, t, InfoOf(x)) && SameAt(m, t, Domain(x));
    var b := Num(m, Domain(x));
    forall i
      ensures SameAt(m, t, DomainWord(x, b, i))
    {
      assert Owns(x, DomainWord(x, b, i));
    }
    WordsFrame(m, t, x, b, InfoAt(m, x).lm + 1);
  }

  lemma KeysFrame(m: Mem, t: Mem, x: int)
    requires VarKeys(m, x) && forall l :: Owns(x, l) ==> SameAt(m, t, l)
    requires Next(x) in t && Stamp(x) in t
    ensures VarKeys(t, x)
  {
    assert SameAt(m, t, Cell(x)) && SameAt(m, t, Min(x)) && SameAt(m, t, Max(x));
    assert SameAt(m, t, InfoOf(x)) && SameAt(m, t, Domain(x));
    forall i | Boxed(t, x) && 0 <= i <= InfoAt(t, x).lm
      ensures DomainWord(x, Num(t, Domain(x)), i) in t
    {
      assert SameAt(m, t, DomainWord(x, Num(m, Domain(x)), i));
    }
  }

  /** x is represented as before when nothing it owns has changed. */
  lemma VarFrame(m: Mem, t: Mem, s: Pass, r: Pass, x: int)
    requires 0 <= x < |s.box| && x < |s.change| && x < |s.time| && VarRep(m, s, x)
    requires x < |r.box| && x < |r.change| && x < |r.time|
    requires r.box[x] == s.box[x] && r.change[x] == s.change[x] && r.time[x] == s.time[x]
    requires forall l :: Owns(x, l) ==> SameAt(m, t, l)
    requires Next(x) in t && Stamp(x) in t
    ensures VarRep(t, r, x)
  {
    hide ValidFd, DomOf, View;
    ViewFrame(m, t, x);
    KeysFrame(m, t, x);
    assert SameAt(m, t, InfoOf(x));
  }

  lemma PrefixNarrows(vs: seq<int>, k: int, box: Box, next: Box)
    requires PrefixSingle(vs, k, box) && Narrows(box, next)
    ensures PrefixSingle(vs, k, next)
  {
    forall i | 0 <= i < k
      ensures Single(Dom1(next, vs[i]))
    {
      assert Single(Dom1(box, vs[i]));
    }
  }

  lemma FunFrame(p: Problem, m: Mem, t: Mem, s: Pass, r: Pass, f: int)
    requires 0 <= f < |p.fs| && FunRep(p, m, s, f) && Narrows(s.box, r.box)
    requires SameAt(m, t, Mon(f)) && SameAt(m, t, Amon(f)) && Method(f) in t
    ensures FunRep(p, t, r, f)
  {
    hide Narrows, PrefixSingle;
    PrefixNarrows(p.fs[f].mon, Num(m, Mon(f)), s.box, r.box);
    PrefixNarrows(p.fs[f].amon, Num(m, Amon(f)), s.box, r.box);
  }

  lemma QueueFrame(m: Mem, t: Mem, n: int, q: seq<int>)
    requires QueueRep(m, n, q) && forall x :: 0 <= x < n ==> Num(t, Next(x)) == Num(m, Next(x))
    ensures QueueRep(t, n, q)
  {
  }

  /** Locations that say nothing about the pass. */
  predicate Silent(l: Loc) {
    l.Stamp? || l.Method?
  }

  lemma SilentFrame(p: Problem, m: Mem, t: Mem, s: Pass)
    requires InForm(p, s) && Rep(p, m, s)
    requires forall l :: (!Silent(l) ==> SameAt(m, t, l)) && (l in m ==> l in t)
    ensures Rep(p, t, s)
  {
    hide VarKeys, ValidFd, DomOf, View, InShape, PrefixSingle;
    SelfNarrows(s.box);
    forall x | 0 <= x < p.n
      ensures VarRep(t, s, x)
    {
      assert VarRep(m, s, x);
      KeysHave(m, x);
      VarFrame(m, t, s, s, x);
    }
    forall f | 0 <= f < |p.fs|
      ensures FunRep(p, t, s, f)
    {
      assert FunRep(p, m, s, f);
      FunFrame(p, m, t, s, s, f);
    }
    forall e | 0 <= e < p.e
      ensures EntRep(t, s, e)
    {
      assert EntRep(m, s, e);
      assert SameAt(m, t, Ent(e));
    }
    forall x | 0 <= x < p.n
      ensures Num(t, Next(x)) == Num(m, Next(x))
    {
      assert SameAt(m, t, Next(x));
    }
    QueueFrame(m, t, p.n, s.q);
  }

  lemma StampStep(p: Problem, m: Mem, s: Pass, x: int, v: Val)
    requires InForm(p, s) && Rep(p, m, s)
    ensures Rep(p, m[Stamp(x) := v], s)
  {
    hide InForm, Rep;
    SilentFrame(p, m, m[Stamp(x) := v], s);
  }

  lemma MethodStep(p: Problem, m: Mem, s: Pass, f: int, v: Val)
    requires InForm(p, s) && Rep(p, m, s)
    ensures Rep(p, m[Method(f) := v], s)
  {
    hide InForm, Rep;
    SilentFrame(p, m, m[Method(f) := v], s);
  }

  lemma KeysHave(m: Mem, x: int)
    requires VarKeys(m, x)
    ensures Cell(x) in m && Next(x) in m && Min(x) in m && Max(x) in m && InfoOf(x) in m && Stamp(x) in m
            && Domain(x) in m
  {
  }

  /** Variable y has a new domain and a new record; the rest is as it was. */
  lemma NarrowFrame(p: Problem, m: Mem, t: Mem, s: Pass, r: Pass, y: int)
    requires InForm(p, s) && InForm(p, r) && Rep(p, m, s) && 0 <= y < p.n
    requires SameOutside(m, t, y) && VarRep(t, r, y)
    requires Narrows(s.box, r.box) && r.ent == s.ent && r.q == s.q
    requires forall x :: 0 <= x < p.n && x != y ==>
               r.box[x] == s.box[x] && r.change[x] == s.change[x] && r.time[x] == s.time[x]
    ensures Rep(p, t, r)
  {
    hide VarKeys, ValidFd, DomOf, View, InShape, PrefixSingle, Narrows;
    forall x | 0 <= x < p.n
      ensures VarRep(t, r, x)
    {
      if x != y {
        assert VarRep(m, s, x);
        KeysHave(m, x);
        assert SameAt(m, t, Next(x)) && SameAt(m, t, Stamp(x));
        VarFrame(m, t, s, r, x);
      }
    }
    forall f | 0 <= f < |p.fs|
      ensures FunRep(p, t, r, f)
    {
      assert FunRep(p, m, s, f);
      assert SameAt(m, t, Mon(f)) && SameAt(m, t, Amon(f)) && SameAt(m, t, Method(f));
      FunFrame(p, m, t, s, r, f);
    }
    forall e | 0 <= e < p.e
      ensures EntRep(t, r, e)
    {
      assert EntRep(m, s, e);
      assert SameAt(m, t, Ent(e));
    }
    forall x | 0 <= x < p.n
      ensures Num(t, Next(x)) == Num(m, Next(x))
    {
      assert SameAt(m, t, Next(x));
    }
    QueueFrame(m, t, p.n, s.q);
  }

  // ------------------------------------------------ single steps

  /** A list position moves past determined variables. */
  lemma MonStep(p: Problem, m: Mem, s: Pass, f: int, k: int, l: Loc)
    requires InForm(p, s) && Rep(p, m, s) && 0 <= f < |p.fs|
    requires (l == Mon(f) && PrefixSingle(p.fs[f].mon, k, s.box))
             || (l == Amon(f) && PrefixSingle(p.fs[f].amon, k, s.box))
    ensures Rep(p, m[l := N(k)], s)
  {
    hide VarKeys, ValidFd, DomOf, View, InShape, PrefixSingle;
    var t := m[l := N(k)];
    forall x | 0 <= x < p.n
      ensures VarRep(t, s, x)
    {
      assert VarRep(m, s, x);
      KeysHave(m, x);
      VarFrame(m, t, s, s, x);
    }
    forall g | 0 <= g < |p.fs|
      ensures FunRep(p, t, s, g)
    {
      assert FunRep(p, m, s, g);
    }
    forall e | 0 <= e < p.e
      ensures EntRep(t, s, e)
    {
      assert EntRep(m, s, e);
    }
  }

  /** An entailment variable is bound. */
  lemma EntStep(p: Problem, m: Mem, s: Pass, e: int)
    requires InForm(p, s) && Rep(p, m, s) && 0 <= e < p.e
    ensures Rep(p, m[Ent(e) := N(0)], WithEntailed(s, e))
  {
    hide VarKeys, ValidFd, DomOf, View, InShape, PrefixSingle;
    var t, r := m[Ent(e) := N(0)], WithEntailed(s, e);
    forall x | 0 <= x < p.n
      ensures VarRep(t, r, x)
    {
      assert VarRep(m, s, x);
      KeysHave(m, x);
      VarFrame(m, t, s, r, x);
    }
    forall g | 0 <= g < |p.fs|
      ensures FunRep(p, t, r, g)
    {
      assert FunRep(p, m, s, g);
    }
    forall d | 0 <= d < p.e
      ensures EntRep(t, r, d)
    {
      assert EntRep(m, s, d);
    }
  }

  /** The record of y with another change class and time stamp. */
  function Marked(m: Mem, y: int, change: int, time: int): Mem {
    m[InfoOf(y) := I(InfoAt(m, y).(change := change, time := time))]
  }

  ghost function MarkedPass(s: Pass, y: int, change: int, time: int): Pass
    requires 0 <= y < |s.change| && y < |s.time|
  {
    s.(change := s.change[y := change], time := s.time[y := time])
  }

  lemma MarkView(m: Mem, y: int, change: int, time: int)
    ensures View(Marked(m, y, change, time), y) == View(m, y)
    ensures VarKeys(m, y) ==> VarKeys(Marked(m, y, change, time), y)
  {
    var t := Marked(m, y, change, time);
    WordsFrame(m, t, y, Num(m, Domain(y)), InfoAt(m, y).lm + 1);
  }

  lemma MarkStep(p: Problem, m: Mem, s: Pass, y: int, change: int, time: int)
    requires InForm(p, s) && Rep(p, m, s) && 0 <= y < p.n && 0 <= change <= 3 && time <= s.now
    ensures InForm(p, MarkedPass(s, y, change, time))
    ensures Rep(p, Marked(m, y, change, time), MarkedPass(s, y, change, time))
  {
    hide VarKeys, ValidFd, DomOf, View, InShape, PrefixSingle;
    var t, r := Marked(m, y, change, time), MarkedPass(s, y, change, time);
    assert VarRep(m, s, y);
    MarkView(m, y, change, time);
    assert VarRep(t, r, y);
    assert SameOutside(m, t, y);
    SelfNarrows(s.box);
    NarrowFrame(p, m, t, s, r, y);
  }

  /** Linking y behind the last element of the queue. */
  lemma LinkStep(p: Problem, m: Mem, s: Pass, y: int, last: int)
    requires InForm(p, s) && Rep(p, m, s) && 0 <= y < p.n && y !in s.q
    requires s.q != [] && last == s.q[|s.q| - 1]
    ensures Rep(p, m[Next(last) := N(y)], s.(q := s.q + [y]))
  {
    hide VarKeys, ValidFd, DomOf, View, InShape, PrefixSingle;
    var t, r := m[Next(last) := N(y)], s.(q := s.q + [y]);
    LinkOthers(p, m, s, last, N(y), r);
    LinkQueue(m, p.n, s.q, y);
  }

  lemma LinkQueue(m: Mem, n: int, q: seq<int>, y: int)
    requires QueueRep(m, n, q) && 0 <= y < n && y !in q && q != []
    ensures QueueRep(m[Next(q[|q| - 1]) := N(y)], n, q + [y])
  {
    var t, r := m[Next(q[|q| - 1]) := N(y)], q + [y];
    forall i | 0 <= i < |r|
      ensures 0 <= r[i] < n && Num(t, Next(r[i])) == LinkAfter(r, i)
    {
      if i < |q| - 1 {
        assert q[i] != q[|q| - 1];
      }
    }
  }

  /** A write to a link leaves everything else represented. */
  lemma LinkOthers(p: Problem, m: Mem, s: Pass, x0: int, v: Val, r: Pass)
    requires InForm(p, s) && Rep(p, m, s)
    requires r.box == s.box && r.ent == s.ent && r.change == s.change && r.time == s.time
    ensures var t := m[Next(x0) := v];
            && (forall x :: 0 <= x < p.n ==> VarRep(t, r, x))
            && (forall f :: 0 <= f < |p.fs| ==> FunRep(p, t, r, f))
            && (forall e :: 0 <= e < p.e ==> EntRep(t, r, e))
  {
    hide VarKeys, ValidFd, DomOf, View, InShape, PrefixSingle, QueueRep;
    var t := m[Next(x0) := v];
    forall x | 0 <= x < p.n
      ensures VarRep(t, r, x)
    {
      assert VarRep(m, s, x);
      KeysHave(m, x);
      VarFrame(m, t, s, r, x);
    }
    forall g | 0 <= g < |p.fs|
      ensures FunRep(p, t, r, g)
    {
      assert FunRep(p, m, s, g);
    }
    forall e | 0 <= e < p.e
      ensures EntRep(t, r, e)
    {
      assert EntRep(m, s, e);
    }
  }

  /** Taking the head off the queue. */
  lemma UnlinkStep(p: Problem, m: Mem, s: Pass)
    requires InForm(p, s) && Rep(p, m, s) && s.q != []
    ensures Rep(p, m[Next(s.q[0]) := N(NULL)], s.(q := s.q[1..], at := 0))
    ensures InForm(p, s.(q := s.q[1..], at := 0))
  {
    hide VarKeys, ValidFd, DomOf, View, InShape, PrefixSingle;
    LinkOthers(p, m, s, s.q[0], N(NULL), s.(q := s.q[1..], at := 0));
    UnlinkQueue(m, p.n, s.q);
  }

  lemma UnlinkQueue(m: Mem, n: int, q: seq<int>)
    requires QueueRep(m, n, q) && q != []
    ensures QueueRep(m[Next(q[0]) := N(NULL)], n, q[1..])
  {
    var t, r := m[Next(q[0]) := N(NULL)], q[1..];
    forall i | 0 <= i < |r|
      ensures 0 <= r[i] < n && Num(t, Next(r[i])) == LinkAfter(r, i)
    {
      assert r[i] == q[i + 1] && q[0] != q[i + 1];
    }
    forall x | 0 <= x < n && x !in r
      ensures Num(t, Next(x)) == NULL
    {
      if x != q[0] {
        assert x !in q;
      }
    }
  }

  /** The first variable of an empty queue. */
  lemma FirstStep(p: Problem, m: Mem, s: Pass, x: int)
    requires InForm(p, s) && Rep(p, m, s) && s.q == [] && 0 <= x < p.n
    ensures Rep(p, m, s.(q := [x])) && InForm(p, s.(q := [x]))
  {
    hide VarKeys, ValidFd, DomOf, View, InShape, PrefixSingle;
    var r := s.(q := [x]);
    forall y | 0 <= y < p.n
      ensures VarRep(m, r, y)
    {
      assert VarRep(m, s, y);
    }
    forall g | 0 <= g < |p.fs|
      ensures FunRep(p, m, r, g)
    {
      assert FunRep(p, m, s, g);
    }
    forall e | 0 <= e < p.e
      ensures EntRep(m, r, e)
    {
      assert EntRep(m, s, e);
    }
  }

  /** The test whether a variable is queued: it has a link, or is the last. */
  lemma QueuedTest(m: Mem, n: int, q: seq<int>, x: int)
    requires QueueRep(m, n, q) && 0 <= x < n && q != []
    ensures x in q <==> Num(m, Next(x)) != NULL || x == q[|q| - 1]
  {
    if x in q {
      var i :| 0 <= i < |q| && q[i] == x;
      assert Num(m, Next(q[i])) == LinkAfter(q, i);
      assert i + 1 < |q| ==> 0 <= q[i + 1];
    }
  }

  /** Only the domains, the entailment variables, the classes and stamps and
      the queue are in memory. */
  lemma RepSame(p: Problem, m: Mem, s: Pass, r: Pass)
    requires InForm(p, s) && InForm(p, r) && Rep(p, m, s)
    requires r.box == s.box && r.ent == s.ent && r.change == s.change && r.time == s.time && r.q == s.q
    ensures Rep(p, m, r)
  {
    hide VarKeys, ValidFd, DomOf, View, InShape, PrefixSingle, QueueRep;
    forall y | 0 <= y < p.n
      ensures VarRep(m, r, y)
    {
      assert VarRep(m, s, y);
    }
    forall g | 0 <= g < |p.fs|
      ensures FunRep(p, m, r, g)
    {
      assert FunRep(p, m, s, g);
    }
    forall e | 0 <= e < p.e
      ensures EntRep(m, r, e)
    {
      assert EntRep(m, s, e);
    }
  }

  // ------------------------------------------------ memory that holds more

  lemma {:induction false} WordsWithin(m: Mem, t: Mem, x: int, block: int, k: int)
    requires Within(m, t) && forall i :: 0 <= i < k ==> DomainWord(x, block, i) in m
    ensures WordsOf(t, x, block, k) == WordsOf(m, x, block, k)
  {
    if k > 0 {
      WordsWithin(m, t, x, block, k - 1);
      assert DomainWord(x, block, k - 1) in m;
    }
  }

  lemma ViewWithin(m: Mem, t: Mem, x: int)
    requires VarKeys(m, x) && Within(m, t)
    ensures View(t, x) == View(m, x) && VarKeys(t, x) && InfoAt(t, x) == InfoAt(m, x)
  {
    if Boxed(m, x) {
      WordsWithin(m, t, x, Num(m, Domain(x)), InfoAt(m, x).lm + 1);
    }
  }

  /** Whatever else memory holds, the pass is represented. */
  lemma RepWithin(p: Problem, m: Mem, t: Mem, s: Pass)
    requires InForm(p, s) && Rep(p, m, s) && Within(m, t)
    ensures Rep(p, t, s)
  {
    hide VarKeys, ValidFd, DomOf, View, InShape, PrefixSingle, InfoAt;
    forall x | 0 <= x < p.n
      ensures VarRep(t, s, x) && Next(x) in m
    {
      assert VarRep(m, s, x);
      KeysHave(m, x);
      ViewWithin(m, t, x);
    }
    forall f | 0 <= f < |p.fs|
      ensures FunRep(p, t, s, f)
    {
      assert FunRep(p, m, s, f);
    }
    forall e | 0 <= e < p.e
      ensures EntRep(t, s, e)
    {
      assert EntRep(m, s, e);
    }
    assert forall x :: 0 <= x < p.n ==> Num(t, Next(x)) == Num(m, Next(x));
  }
}
