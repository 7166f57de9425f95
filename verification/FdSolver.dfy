/** The propagation loop on memory, with its queue and value trail. */
module FdSolver {
  import opened FdWords
  import opened FdExpr
  import opened FdCode
  import opened FdMachine
  import opened FdVar
  import opened FdVm
  import opened FdNarrow
  import opened FdProblem
  import opened FdFixpoint
  import opened FdEntail
  import opened FdStore
  import opened FdState
  import opened FdSafe

  datatype DomInfo = BOTTOM | SHRINKING | GROWING | CONSTANT

  /** FATAL stands for every way the program stops during propagation. */
  datatype Answer = TRUE | FALSE | FATAL

  class Solver {
    const p: Problem
    const code: seq<int>
    const ev: Evaluator
    var mem: Mem
    var trail: Trail
    var time: int
    var lastExec: seq<int>
    /** The number of the next domain block to be allocated. */
    var brk: int
    /** fd_number_of_solutions. */
    var solutions: int

    constructor (p: Problem, code: seq<int>, mem: Mem, time: int, lastExec: seq<int>, brk: int)
      ensures this.p == p && this.code == code && this.mem == mem && this.trail == []
      ensures this.time == time && this.lastExec == lastExec && this.brk == brk && this.solutions == 0
      ensures fresh(ev) && fresh(ev.vStack) && fresh(ev.bHeap) && StaticEv()
    {
      this.p, this.code, this.mem, this.time, this.lastExec, this.brk := p, code, mem, time, lastExec, brk;
      trail, solutions := [], 0;
      ev := new Evaluator();
    }

    predicate StaticEv() {
      ev.vStack.Length == VStack && ev.bHeap.Length == 8 * NrDoms
    }

    /** The code of every indexical is loaded. */
    ghost predicate Loaded() {
      StaticEv() && forall f :: 0 <= f < |p.fs| ==> At(code, p.fs[f].code, CodeO(p.fs[f].e, p.fs[f].code))
    }

    /** Everything since the trail was k entries long can be undone to m0. */
    ghost predicate Undoable(k: int, m0: Mem)
      reads this`mem, this`trail, this`brk
    {
      Journal(p.n, mem, trail, brk, k, m0)
    }

    ghost predicate QueueSaved(q: seq<int>, k: int)
      reads this`trail
    {
      forall i :: 0 <= i < |q| ==> FieldsSaved(trail, k, q[i])
    }

    ghost predicate SavedIn(t: Trail, q: seq<int>, k: int) {
      forall i :: 0 <= i < |q| ==> FieldsSaved(t, k, q[i])
    }

    /** Memory represents the pass s. */
    ghost predicate Shows(s: Pass)
      reads this`mem, this`lastExec, this`time
    {
      InForm(p, s) && Rep(p, mem, s) && s.last == lastExec && s.now == time
    }

    /** Nothing has been run later than now. */
    ghost predicate Clock(since: int)
      reads this`lastExec, this`time
    {
      |lastExec| == |p.fs| && since <= time && forall g :: 0 <= g < |p.fs| ==> lastExec[g] <= time
    }

    lemma ShowsClock(s: Pass)
      requires Shows(s)
      ensures Clock(s.now)
    {
    }

    lemma ClockBack(t: int, u: int)
      requires Clock(t) && u <= t
      ensures Clock(u)
    {
    }

    // -------------------------------------------- the trail

    /** PushFdTrail. */
    method Save(l: Loc, ghost k: int, ghost m0: Mem)
      requires Undoable(k, m0) && l in mem
      modifies this`trail
      ensures Undoable(k, m0) && trail == old(trail) + [Entry(l, mem[l])] && IsSaved(trail, k, l)
    {
      hide Journal, IsSaved;
      JournalSave(p.n, mem, trail, brk, k, m0, l);
      trail := trail + [Entry(l, mem[l])];
    }

    method Write(l: Loc, v: Val, ghost k: int, ghost m0: Mem)
      requires Undoable(k, m0) && (IsSaved(trail, k, l) || l !in m0)
      requires !l.Stamp? && (l.DomainWord? ==> l.block < brk)
      modifies this`mem
      ensures Undoable(k, m0) && mem == old(mem)[l := v]
    {
      hide Journal, IsSaved;
      JournalWrite(p.n, mem, trail, brk, k, m0, l, v);
      mem := mem[l := v];
    }

    lemma QueueStays(t: Trail, q: seq<int>, k: int)
      requires t <= trail && SavedIn(t, q, k)
      ensures QueueSaved(q, k)
    {
      hide FieldsSaved;
      forall i | 0 <= i < |q|
        ensures FieldsSaved(trail, k, q[i])
      {
        FieldsGrow(t, trail, k, q[i]);
      }
    }

    /** fd_trail_value: saves the fields of x and stamps its record. */
    method TrailValue(x: int, cp: int, ghost k: int, ghost m0: Mem)
      requires Undoable(k, m0) && VarKeys(mem, x) && cp == 1 + 2 * k
      modifies this`mem, this`trail
      ensures Undoable(k, m0) && old(trail) <= trail
      ensures mem == old(mem)[Stamp(x) := N(cp)] && FieldsSaved(trail, k, x)
    {
      hide Journal, Saved, IsSaved;
      KeysHave(mem, x);
      Save(Next(x), k, m0);
      ghost var t1 := trail;
      Save(Min(x), k, m0);
      ghost var t2 := trail;
      Save(Max(x), k, m0);
      ghost var t3 := trail;
      Save(InfoOf(x), k, m0);
      ghost var t4 := trail;
      Save(Stamp(x), k, m0);
      SavedGrows(t1, trail, k, Next(x));
      SavedGrows(t2, trail, k, Min(x));
      SavedGrows(t3, trail, k, Max(x));
      SavedGrows(t4, trail, k, InfoOf(x));
      JournalStamp(p.n, mem, trail, brk, k, m0, x, N(cp));
      mem := mem[Stamp(x) := N(cp)];
    }

    /** Memory m represents the pass s, as the clock stands. */
    ghost predicate ShowsIn(m: Mem, s: Pass)
      reads this`lastExec, this`time
    {
      InForm(p, s) && Rep(p, m, s) && s.last == lastExec && s.now == time
    }

    lemma ShowsNow(s: Pass)
      ensures Shows(s) == ShowsIn(mem, s)
    {
    }

    lemma ShowsKeys(s: Pass, x: int)
      requires Shows(s) && 0 <= x < p.n
      ensures VarKeys(mem, x)
    {
      ShowsVar(s, x);
    }

    lemma StampShows(m: Mem, s: Pass, x: int, cp: int)
      requires ShowsIn(m, s) && mem == m[Stamp(x) := N(cp)]
      ensures Shows(s)
    {
      hide InForm, Rep;
      StampStep(p, m, s, x, N(cp));
    }

    /** FdTrailP and fd_trail_value: once for each choice point. */
    method TrailOnce(x: int, cp: int, ghost s: Pass, ghost k: int, ghost m0: Mem)
      requires Undoable(k, m0) && Shows(s) && 0 <= x < p.n && cp == 1 + 2 * k && QueueSaved(s.q, k)
      modifies this`mem, this`trail
      ensures Undoable(k, m0) && Shows(s) && old(trail) <= trail && QueueSaved(s.q, k)
      ensures FieldsSaved(trail, k, x) && View(mem, x) == old(View(mem, x)) && VarKeys(mem, x)
    {
      hide *;
      ShowsKeys(s, x);
      if Num(mem, Stamp(x)) < cp {
        ghost var m, t := mem, trail;
        ShowsNow(s);
        QueueIs(s.q, k);
        TrailValue(x, cp, k, m0);
        StampShows(m, s, x, cp);
        StampKeeps(m, x, N(cp));
        QueueStays(t, s.q, k);
      } else {
        StampSaved(k, m0, x);
      }
    }

    lemma QueueIs(q: seq<int>, k: int)
      ensures QueueSaved(q, k) == SavedIn(trail, q, k)
    {
    }

    lemma StampKeeps(m: Mem, x: int, v: Val)
      ensures View(m[Stamp(x) := v], x) == View(m, x)
      ensures VarKeys(m, x) ==> VarKeys(m[Stamp(x) := v], x)
    {
      var t := m[Stamp(x) := v];
      assert forall l :: Owns(x, l) ==> SameAt(m, t, l);
      ViewFrame(m, t, x);
      if VarKeys(m, x) {
        KeysFrame(m, t, x);
      }
    }

    lemma StampSaved(k: int, m0: Mem, x: int)
      requires Undoable(k, m0) && 0 <= x < p.n && Num(mem, Stamp(x)) >= 1 + 2 * k
      ensures FieldsSaved(trail, k, x)
    {
      assert StampAt(mem, trail, k, x);
    }

    // -------------------------------------------- direction

    /** The first undetermined variable of a list, from position i on. */
    method SkipDetermined(vs: seq<int>, i: int, ghost s: Pass) returns (j: int)
      requires Shows(s) && PrefixSingle(vs, i, s.box)
      requires forall a :: 0 <= a < |vs| ==> 0 <= vs[a] < p.n
      ensures PrefixSingle(vs, j, s.box)
      ensures j == |vs| <==> AllSingle(vs, s.box)
    {
      hide VarKeys, ValidFd, DomOf, View, InShape, Single;
      j := i;
      while j < |vs|
        invariant PrefixSingle(vs, j, s.box)
      {
        var x := vs[j];
        assert VarRep(mem, s, x);
        DomFacts(View(mem, x));
        ViewBound(mem, x);
        if Num(mem, Cell(x)) < 0 {
          return;
        }
        j := j + 1;
      }
    }

    lemma ViewBound(m: Mem, x: int)
      ensures View(m, x).bound == Num(m, Cell(x))
    {
    }

    /** monoton: moves both lists to their first undetermined variable. */
    method Monoton(f: int, ghost s: Pass, ghost k: int, ghost m0: Mem) returns (d: DomInfo)
      requires Undoable(k, m0) && Shows(s) && QueueSaved(s.q, k) && 0 <= f < |p.fs|
      modifies this`mem, this`trail
      ensures Undoable(k, m0) && Shows(s) && old(trail) <= trail && QueueSaved(s.q, k)
      ensures AllSingle(p.fs[f].mon, s.box) <==> d == SHRINKING || d == CONSTANT
      ensures AllSingle(p.fs[f].amon, s.box) <==> d == GROWING || d == CONSTANT
    {
      assert FunRep(p, mem, s, f) && IndexicalInShape(p, p.fs[f]);
      hide Journal, InForm, Rep, AllSingle, PrefixSingle;
      var l := SkipDetermined(p.fs[f].mon, Num(mem, Mon(f)), s);
      MoveList(Mon(f), l, f, s, k, m0);
      RepParts(p, mem, s);
      assert FunRep(p, mem, s, f);
      var l2 := SkipDetermined(p.fs[f].amon, Num(mem, Amon(f)), s);
      MoveList(Amon(f), l2, f, s, k, m0);
      var g, a := l == |p.fs[f].mon|, l2 == |p.fs[f].amon|;
      d := if g && a then CONSTANT else if g then SHRINKING else if a then GROWING else BOTTOM;
    }

    method MoveList(l: Loc, i: int, f: int, ghost s: Pass, ghost k: int, ghost m0: Mem)
      requires Undoable(k, m0) && Shows(s) && QueueSaved(s.q, k) && 0 <= f < |p.fs|
      requires (l == Mon(f) && PrefixSingle(p.fs[f].mon, i, s.box))
               || (l == Amon(f) && PrefixSingle(p.fs[f].amon, i, s.box))
      modifies this`mem, this`trail
      ensures Undoable(k, m0) && Shows(s) && old(trail) <= trail && QueueSaved(s.q, k)
    {
      assert FunRep(p, mem, s, f);
      hide Journal, InForm, Rep, PrefixSingle, FieldsSaved;
      if Num(mem, l) != i {
        Save(l, k, m0);
        QueueStays(old(trail), s.q, k);
        MonStep(p, mem, s, f, i, l);
        Write(l, N(i), k, m0);
      }
    }

    // -------------------------------------------- narrowing a domain

    /** The bounds of a computed range. */
    method BoundsOf(u: DomStruct, ghost t: set<int>) returns (lo: int, hi: int)
      requires SetIn(u, ev.bHeap) == t && u != Aborted
      requires u.IntervalT? ==> (u.lo == 1 && u.hi == 0) || u.lo <= u.hi
      requires u.DomainT? ==> 0 <= u.d && 0 <= u.lm && u.d + u.lm + 1 <= ev.bHeap.Length && t != {}
      ensures lo == VarMin(t) && hi == VarMax(t)
    {
      match u {
        case IntervalT(a, b) =>
          lo, hi := a, b;
          IntervalBounds(a, b);
        case DomainT(d, lm) =>
          var ws := ev.bHeap[d..d + lm + 1];
          hide SetOf;
          assert ws[..lm + 1] == ws;
          lo := MinBit(ws, lm);
          hi := MaxBit(ws, lm);
          BoundsAre(t, lo, hi);
      }
    }

    /** prop_info: the new bounds, and the value if there is only one. */
    method PropInfo(y: int, u: DomStruct, ghost d: set<int>, ghost t: set<int>, ghost k: int,
      ghost m0: Mem)
      returns (pr: int)
      requires Undoable(k, m0) && FieldsSaved(trail, k, y) && VarKeys(mem, y)
      requires Num(mem, Cell(y)) < 0 && Num(mem, Min(y)) == VarMin(d) && Num(mem, Max(y)) == VarMax(d)
      requires SetIn(u, ev.bHeap) == t && u != Aborted && t <= d && (t == {} ==> VarMin(d) == 0 && VarMax(d) >= 0)
      requires u.IntervalT? ==> (u.lo == 1 && u.hi == 0) || u.lo <= u.hi
      requires u.DomainT? ==> 0 <= u.d && 0 <= u.lm && u.d + u.lm + 1 <= ev.bHeap.Length && t != {}
      modifies this`mem, this`trail
      ensures Undoable(k, m0) && old(trail) <= trail
      ensures pr == ChangeOf(d, t) && PropEffect(old(mem), mem, y, t)
    {
      var k2, k4 := BoundsOf(u, t);
      SubsetBounds(d, t);
      hide Journal, FieldsSaved, VarMin, VarMax, SetIn, VarKeys, PropEffect, SameAt;
      var k1, k3 := Num(mem, Min(y)), Num(mem, Max(y));
      ghost var m := mem;
      TightenBounds(y, k2, k4, k, m0);
      ghost var m1 := mem;
      BoundEffect(m, m1, y, t);
      if k2 == k4 {
        BindValue(y, k2, k, m0);
      }
      pr := if k1 == k2 then (if k3 == k4 then P_DOM else P_MAX) else (if k3 == k4 then P_MIN else P_MINMAX);
    }

    method TightenBounds(y: int, k2: int, k4: int, ghost k: int, ghost m0: Mem)
      requires Undoable(k, m0) && FieldsSaved(trail, k, y) && VarKeys(mem, y)
      requires Num(mem, Min(y)) <= k2 && k4 <= Num(mem, Max(y))
      modifies this`mem
      ensures Undoable(k, m0) && Num(mem, Min(y)) == k2 && Num(mem, Max(y)) == k4
      ensures forall l :: l in old(mem) ==> l in mem
      ensures forall l: Loc :: l != Min(y) && l != Max(y) ==> SameAt(old(mem), mem, l)
    {
      hide Journal, IsSaved;
      if Num(mem, Min(y)) < k2 {
        Write(Min(y), N(k2), k, m0);
      }
      if k4 < Num(mem, Max(y)) {
        Write(Max(y), N(k4), k, m0);
      }
    }

    /** fd_bind_var on the cell of a variable. */
    method BindValue(y: int, v: int, ghost k: int, ghost m0: Mem)
      requires Undoable(k, m0) && Cell(y) in mem
      modifies this`mem, this`trail
      ensures Undoable(k, m0) && old(trail) <= trail && mem == old(mem)[Cell(y) := N(v)]
    {
      hide Journal, IsSaved;
      Save(Cell(y), k, m0);
      Write(Cell(y), N(v), k, m0);
    }

    /** Copies the words of a range into a block allocated for y. */
    method FreshWords(y: int, block: int, ws: seq<Word>, ghost k: int, ghost m0: Mem)
      requires Undoable(k, m0) && block < brk && BlocksBelow(m0, block)
      modifies this`mem
      ensures Undoable(k, m0)
      ensures forall i :: 0 <= i < |ws| ==>
              DomainWord(y, block, i) in mem && WordAt(mem, DomainWord(y, block, i)) == ws[i]
      ensures forall l: Loc :: !(l.DomainWord? && l.x == y && l.block == block) ==> SameAt(old(mem), mem, l)
    {
      hide Journal, IsSaved;
      var i := 0;
      while i < |ws|
        invariant 0 <= i <= |ws|
        invariant Undoable(k, m0)
        invariant forall j :: 0 <= j < i ==>
                  DomainWord(y, block, j) in mem && WordAt(mem, DomainWord(y, block, j)) == ws[j]
        invariant forall l: Loc :: !(l.DomainWord? && l.x == y && l.block == block) ==> SameAt(old(mem), mem, l)
      {
        assert DomainWord(y, block, i) !in m0;
        Write(DomainWord(y, block, i), W(ws[i]), k, m0);
        i := i + 1;
      }
    }

    /** Overwrites the words of y's block, saving each. */
    method SaveWords(y: int, block: int, ws: seq<Word>, ghost k: int, ghost m0: Mem)
      requires Undoable(k, m0) && block < brk
      requires forall i :: 0 <= i < |ws| ==> DomainWord(y, block, i) in mem
      modifies this`mem, this`trail
      ensures Undoable(k, m0) && old(trail) <= trail
      ensures forall i :: 0 <= i < |ws| ==>
              DomainWord(y, block, i) in mem && WordAt(mem, DomainWord(y, block, i)) == ws[i]
      ensures forall l: Loc :: !(l.DomainWord? && l.x == y && l.block == block) ==> SameAt(old(mem), mem, l)
    {
      hide Journal, IsSaved;
      var i := 0;
      while i < |ws|
        invariant 0 <= i <= |ws|
        invariant Undoable(k, m0) && old(trail) <= trail
        invariant forall j :: 0 <= j < |ws| ==> DomainWord(y, block, j) in mem
        invariant forall j :: 0 <= j < i ==> WordAt(mem, DomainWord(y, block, j)) == ws[j]
        invariant forall l: Loc :: !(l.DomainWord? && l.x == y && l.block == block) ==> SameAt(old(mem), mem, l)
      {
        Save(DomainWord(y, block, i), k, m0);
        Write(DomainWord(y, block, i), W(ws[i]), k, m0);
        i := i + 1;
      }
    }

    lemma BlockKnown(n: int, m: Mem, t: Trail, b: int, k: int, m0: Mem, l: Loc)
      requires Journal(n, m, t, b, k, m0) && l in m && l.DomainWord?
      ensures l.block < b
    {
    }

    lemma NextBlock(n: int, m: Mem, t: Trail, b: int, k: int, m0: Mem)
      requires Journal(n, m, t, b, k, m0)
      ensures Journal(n, m, t, b + 1, k, m0) && BlocksBelow(m0, b)
    {
    }

    /** set_dom for a range given by its words: y gets a block of its own if it
        was an interval. */
    method SetDom(y: int, ws: seq<Word>, ghost k: int, ghost m0: Mem)
      requires Undoable(k, m0) && FieldsSaved(trail, k, y) && VarKeys(mem, y) && 1 <= |ws|
      requires Num(mem, Cell(y)) < 0
      requires !InfoAt(mem, y).interval ==> |ws| <= InfoAt(mem, y).lm + 1
      modifies this`mem, this`trail, this`brk
      ensures Undoable(k, m0) && old(trail) <= trail
      ensures WordsEffect(old(mem), mem, y, ws)
    {
      hide Journal, FieldsSaved, HoldsWords;
      if InfoAt(mem, y).interval {
        TakeBlock(y, ws, k, m0);
      } else {
        OwnWords(mem, y, |ws|);
        OverwriteBlock(y, ws, k, m0);
      }
      ghost var m := mem;
      SetLastMask(y, |ws| - 1, k, m0);
      LastMaskKeeps(m, y, ws, I(InfoAt(m, y).(lm := |ws| - 1)));
    }

    method SetLastMask(y: int, lm: int, ghost k: int, ghost m0: Mem)
      requires Undoable(k, m0) && FieldsSaved(trail, k, y)
      modifies this`mem
      ensures Undoable(k, m0) && mem == old(mem)[InfoOf(y) := I(old(InfoAt(mem, y)).(lm := lm))]
    {
      hide Journal, IsSaved;
      Write(InfoOf(y), I(InfoAt(mem, y).(lm := lm)), k, m0);
    }

    method TakeBlock(y: int, ws: seq<Word>, ghost k: int, ghost m0: Mem)
      requires Undoable(k, m0) && FieldsSaved(trail, k, y) && Domain(y) in mem
      modifies this`mem, this`trail, this`brk
      ensures Undoable(k, m0) && old(trail) <= trail && FieldsSaved(trail, k, y)
      ensures InfoAt(mem, y) == old(InfoAt(mem, y)).(interval := false)
      ensures HoldsWords(mem, y, ws) && InfoOf(y) in mem && Domain(y) in mem
      ensures forall l: Loc :: l != InfoOf(y) && l != Domain(y) && !(l.DomainWord? && l.x == y) ==>
              SameAt(old(mem), mem, l)
    {
      hide Journal, IsSaved, FieldsSaved, SameAt, HoldsWords, BlocksBelow;
      NextBlock(p.n, mem, trail, brk, k, m0);
      var block := brk;
      brk := brk + 1;
      ghost var t, m := trail, mem;
      UnSetInterval(y, k, m0);
      MoveDomain(y, block, k, m0);
      FieldsGrow(t, trail, k, y);
      ghost var u := mem;
      FreshWords(y, block, ws, k, m0);
      BlockTaken(m, u, mem, y, block, ws);
    }

    lemma BlockTaken(m: Mem, u: Mem, w: Mem, y: int, block: int, ws: seq<Word>)
      requires u == m[InfoOf(y) := I(InfoAt(m, y).(interval := false))][Domain(y) := N(block)]
      requires forall i :: 0 <= i < |ws| ==>
                 DomainWord(y, block, i) in w && WordAt(w, DomainWord(y, block, i)) == ws[i]
      requires forall l: Loc :: !(l.DomainWord? && l.x == y && l.block == block) ==> SameAt(u, w, l)
      ensures InfoAt(w, y) == InfoAt(m, y).(interval := false)
      ensures HoldsWords(w, y, ws) && InfoOf(y) in w && Domain(y) in w
      ensures forall l: Loc :: l != InfoOf(y) && l != Domain(y) && !(l.DomainWord? && l.x == y) ==> SameAt(m, w, l)
    {
      assert SameAt(u, w, Domain(y)) && SameAt(u, w, InfoOf(y));
      forall l: Loc | l != InfoOf(y) && l != Domain(y) && !(l.DomainWord? && l.x == y)
        ensures SameAt(m, w, l)
      {
        assert SameAt(u, w, l);
      }
    }

    method UnSetInterval(y: int, ghost k: int, ghost m0: Mem)
      requires Undoable(k, m0) && FieldsSaved(trail, k, y)
      modifies this`mem
      ensures Undoable(k, m0) && mem == old(mem)[InfoOf(y) := I(old(InfoAt(mem, y)).(interval := false))]
    {
      hide Journal, IsSaved;
      Write(InfoOf(y), I(InfoAt(mem, y).(interval := false)), k, m0);
    }

    method MoveDomain(y: int, block: int, ghost k: int, ghost m0: Mem)
      requires Undoable(k, m0) && Domain(y) in mem
      modifies this`mem, this`trail
      ensures Undoable(k, m0) && old(trail) <= trail && mem == old(mem)[Domain(y) := N(block)]
    {
      hide Journal, IsSaved;
      Save(Domain(y), k, m0);
      Write(Domain(y), N(block), k, m0);
    }

    method OverwriteBlock(y: int, ws: seq<Word>, ghost k: int, ghost m0: Mem)
      requires Undoable(k, m0) && FieldsSaved(trail, k, y) && 1 <= |ws|
      requires InfoOf(y) in mem && Domain(y) in mem
      requires forall i :: 0 <= i < |ws| ==> DomainWord(y, Num(mem, Domain(y)), i) in mem
      modifies this`mem, this`trail
      ensures Undoable(k, m0) && old(trail) <= trail && FieldsSaved(trail, k, y)
      ensures HoldsWords(mem, y, ws)
      ensures forall l: Loc :: !(l.DomainWord? && l.x == y) ==> SameAt(old(mem), mem, l)
    {
      hide Journal, FieldsSaved;
      var block := Num(mem, Domain(y));
      BlockKnown(p.n, mem, trail, brk, k, m0, DomainWord(y, block, 0));
      ghost var t, m := trail, mem;
      SaveWords(y, block, ws, k, m0);
      FieldsGrow(t, trail, k, y);
      assert SameAt(m, mem, Domain(y));
    }

    /** prop_info, and set_dom unless the variable is now determined. */
    method CutRecord(y: int, u: DomStruct, ghost d: set<int>, ghost t: set<int>, ghost k: int,
      ghost m0: Mem)
      returns (pr: int)
      requires Undoable(k, m0) && FieldsSaved(trail, k, y) && Uncut(mem, y, d)
      requires t <= d && CutShape(u, ev.bHeap, t, d, InfoAt(mem, y))
      modifies this`mem, this`trail, this`brk
      ensures Undoable(k, m0) && old(trail) <= trail
      ensures pr == ChangeOf(d, t) && RecordOf(mem, y, u, ev.bHeap, t, old(InfoAt(mem, y)))
      ensures SameOutside(old(mem), mem, y)
    {
      hide *;
      ghost var m, tr := mem, trail;
      UncutFacts(m, y, u, ev.bHeap, t, d);
      pr := PropInfo(y, u, d, t, k, m0);
      ghost var m1 := mem;
      if u.DomainT? && Num(mem, Cell(y)) < 0 {
        PropKeeps(m, m1, y, t, d);
        FieldsGrow(tr, trail, k, y);
        SetDom(y, ev.bHeap[u.d..u.d + u.lm + 1], k, m0);
      }
      CutDone(m, m1, mem, y, u, ev.bHeap, t, d);
    }

    /** Cuts the domain of y down to t, of which u is the representation. */
    method NarrowVar(y: int, u: DomStruct, ghost s: Pass, ghost t: set<int>, ghost k: int,
      ghost m0: Mem)
      returns (pr: int)
      requires Undoable(k, m0) && Shows(s) && QueueSaved(s.q, k) && 0 <= y < p.n && FieldsSaved(trail, k, y)
      requires !Single(s.box[y]) && t <= s.box[y] && SetIn(u, ev.bHeap) == t && CutOf(View(mem, y), u, ev.bHeap)
      requires (t == {} ==> VarMin(s.box[y]) == 0 && VarMax(s.box[y]) >= 0) && (u.DomainT? ==> t != {})
      modifies this`mem, this`trail, this`brk
      ensures Undoable(k, m0) && old(trail) <= trail && QueueSaved(s.q, k) && FieldsSaved(trail, k, y)
      ensures Shows(s.(box := s.box[y := t])) && pr == ChangeOf(s.box[y], t)
    {
      hide *;
      ghost var m, tr := mem, trail;
      RecordShows(s, y, u, t);
      ShowsNow(s);
      QueueIs(s.q, k);
      pr := CutRecord(y, u, s.box[y], t, k, m0);
      NarrowShows(m, s, y, u, t);
      QueueStays(tr, s.q, k);
      FieldsGrow(tr, trail, k, y);
    }

    lemma RecordShows(s: Pass, y: int, u: DomStruct, t: set<int>)
      requires Shows(s) && 0 <= y < p.n && !Single(s.box[y]) && t <= s.box[y]
      requires SetIn(u, ev.bHeap) == t && CutOf(View(mem, y), u, ev.bHeap)
      requires (t == {} ==> VarMin(s.box[y]) == 0 && VarMax(s.box[y]) >= 0) && (u.DomainT? ==> t != {})
      ensures |s.box| == p.n && Uncut(mem, y, s.box[y]) && CutShape(u, ev.bHeap, t, s.box[y], InfoAt(mem, y))
    {
      ShowsVar(s, y);
      hide InForm, Rep, VarRep, View, SetIn, CutOf, Uncut, CutShape;
      RecordFacts(mem, s, y, u, ev.bHeap, t);
    }

    lemma NarrowShows(m: Mem, s: Pass, y: int, u: DomStruct, t: set<int>)
      requires ShowsIn(m, s) && 0 <= y < p.n && |s.box| == p.n && t <= s.box[y] && !Single(s.box[y])
      requires CutShape(u, ev.bHeap, t, s.box[y], InfoAt(m, y))
      requires RecordOf(mem, y, u, ev.bHeap, t, InfoAt(m, y)) && SameOutside(m, mem, y)
      ensures Shows(s.(box := s.box[y := t]))
    {
      var r := s.(box := s.box[y := t]);
      assert VarRep(m, s, y);
      DomFacts(View(m, y));
      OneNarrows(s.box, y, t);
      hide Rep, CutShape, RecordOf, VarRep, View, SameOutside, Narrows, InShape;
      NewRecord(m, mem, s, y, u, ev.bHeap, t);
      NarrowFrame(p, m, mem, s, r, y);
    }

    // -------------------------------------------- the queue

    /** SetChange and SetTime. */
    method Mark(y: int, change: int, tm: int, ghost s: Pass, ghost k: int, ghost m0: Mem)
      requires Undoable(k, m0) && Shows(s) && 0 <= y < p.n && FieldsSaved(trail, k, y)
      requires 0 <= change <= 3 && tm <= s.now
      modifies this`mem
      ensures Undoable(k, m0) && Shows(MarkedPass(s, y, change, tm))
    {
      hide Journal, IsSaved, InForm, Rep;
      MarkStep(p, mem, s, y, change, tm);
      Write(InfoOf(y), I(InfoAt(mem, y).(change := change, time := tm)), k, m0);
    }

    method UpdateQueued(y: int, pr: int, ghost s: Pass, ghost k: int, ghost m0: Mem)
      requires Undoable(k, m0) && Shows(s) && 0 <= y < p.n && FieldsSaved(trail, k, y)
      requires y in s.q && 0 <= pr <= 3
      modifies this`mem
      ensures Undoable(k, m0) && Shows(Requeued(s, y, pr))
    {
      ShowsVar(s, y);
      hide Journal, FieldsSaved, Rep, InForm, BothChanges, InfoAt;
      BothInRange(s.change[y], pr);
      Mark(y, BothChanges(InfoAt(mem, y).change, pr), time, s, k, m0);
    }

    method Enqueue(y: int, pr: int, last: int, ghost s: Pass, ghost k: int, ghost m0: Mem)
      requires Undoable(k, m0) && Shows(s) && QueueSaved(s.q, k) && 0 <= y < p.n && FieldsSaved(trail, k, y)
      requires y !in s.q && 0 <= pr <= 3 && s.q != [] && last == s.q[|s.q| - 1]
      modifies this`mem
      ensures Undoable(k, m0) && Shows(Requeued(s, y, pr)) && QueueSaved(s.q + [y], k)
    {
      ShowsVar(s, y);
      hide Journal, FieldsSaved, Rep, InForm, BothChanges, InfoAt;
      Mark(y, pr, time, s, k, m0);
      LinkBehind(y, last, MarkedPass(s, y, pr, time), k, m0);
    }

    /** Enqueue or UpdateQueued: last is the variable whose link QT points to. */
    method PutOnQueue(y: int, pr: int, last: int, ghost s: Pass, ghost k: int, ghost m0: Mem) returns (l: int)
      requires Undoable(k, m0) && Shows(s) && QueueSaved(s.q, k) && 0 <= y < p.n && FieldsSaved(trail, k, y)
      requires s.q != [] && last == s.q[|s.q| - 1] && 0 <= pr <= 3
      modifies this`mem
      ensures Undoable(k, m0) && Shows(Requeued(s, y, pr)) && QueueSaved(Requeued(s, y, pr).q, k)
      ensures l == if y in s.q then last else y
    {
      ShowsVar(s, y);
      QueuedTest(mem, p.n, s.q, y);
      hide Journal, FieldsSaved, Rep, InForm, BothChanges, Num;
      if Num(mem, Next(y)) != NULL || y == last {
        UpdateQueued(y, pr, s, k, m0);
        l := last;
      } else {
        Enqueue(y, pr, last, s, k, m0);
        l := y;
      }
    }

    method LinkBehind(y: int, last: int, ghost s: Pass, ghost k: int, ghost m0: Mem)
      requires Undoable(k, m0) && Shows(s) && QueueSaved(s.q, k) && 0 <= y < p.n && y !in s.q
      requires s.q != [] && last == s.q[|s.q| - 1]
      modifies this`mem
      ensures Undoable(k, m0) && Shows(s.(q := s.q + [y]))
    {
      hide Journal, IsSaved, Rep;
      assert FieldsSaved(trail, k, last);
      LinkStep(p, mem, s, y, last);
      Write(Next(last), N(y), k, m0);
    }

    /** Dequeue: x leaves the queue, its link and its stamp cleared. */
    method Dequeue(x: int, ghost s: Pass, ghost k: int, ghost m0: Mem) returns (h: int)
      requires Undoable(k, m0) && Shows(s) && QueueSaved(s.q, k) && s.q != [] && x == s.q[0] && s.now >= 0
      modifies this`mem
      ensures Undoable(k, m0) && Shows(Advanced(s)) && QueueSaved(s.q[1..], k)
      ensures h == if |s.q| > 1 then s.q[1] else NULL
    {
      assert Num(mem, Next(s.q[0])) == LinkAfter(s.q, 0);
      hide Journal, FieldsSaved, IsSaved, Rep, InForm;
      h := Num(mem, Next(x));
      Unlink(x, s, k, m0);
      ghost var r := s.(q := s.q[1..], at := 0);
      ShowsVar(r, x);
      Mark(x, InfoAt(mem, x).change, 0, r, k, m0);
      assert s.change[x := s.change[x]] == s.change;
    }

    method Unlink(x: int, ghost s: Pass, ghost k: int, ghost m0: Mem)
      requires Undoable(k, m0) && Shows(s) && QueueSaved(s.q, k) && s.q != [] && x == s.q[0]
      modifies this`mem
      ensures Undoable(k, m0) && Shows(s.(q := s.q[1..], at := 0)) && 0 <= x < p.n
      ensures FieldsSaved(trail, k, x) && QueueSaved(s.q[1..], k)
    {
      hide Journal, IsSaved, Rep;
      assert FieldsSaved(trail, k, x);
      UnlinkStep(p, mem, s);
      Write(Next(x), N(NULL), k, m0);
      hide FieldsSaved;
      assert forall i :: 0 <= i < |s.q[1..]| ==> s.q[1..][i] == s.q[i + 1];
    }

    lemma ShowsVar(s: Pass, x: int)
      requires Shows(s) && 0 <= x < p.n
      ensures |s.box| == |s.change| == |s.time| == p.n && VarRep(mem, s, x)
      ensures InfoAt(mem, x).change == s.change[x] && InfoAt(mem, x).time == s.time[x] && 0 <= s.change[x] <= 3
    {
    }

    // -------------------------------------------- running an indexical

    /** IndexicalEnt and SetEnt. */
    method Entail(f: int, ghost s: Pass, ghost k: int, ghost m0: Mem)
      requires Undoable(k, m0) && Shows(s) && QueueSaved(s.q, k) && 0 <= f < |p.fs|
      modifies this`mem, this`trail
      ensures Undoable(k, m0) && old(trail) <= trail && QueueSaved(s.q, k)
      ensures 0 <= p.fs[f].ent < |s.ent| && Shows(WithEntailed(s, p.fs[f].ent))
    {
      assert FunRep(p, mem, s, f) && IndexicalInShape(p, p.fs[f]);
      hide Journal, IsSaved, Rep, FieldsSaved, InShape;
      Save(Method(f), k, m0);
      MethodStep(p, mem, s, f, N(NULL));
      Write(Method(f), N(NULL), k, m0);
      var e := p.fs[f].ent;
      RepParts(p, mem, s);
      assert EntRep(mem, s, e);
      Save(Ent(e), k, m0);
      EntStep(p, mem, s, e);
      Write(Ent(e), N(0), k, m0);
      QueueStays(old(trail), s.q, k);
    }

    method ReadArg(x: int, ghost s: Pass) returns (a: Fd)
      requires Shows(s) && 0 <= x < p.n
      ensures a == View(mem, x) && ValidFd(a) && DomOf(a) == Dom1(s.box, x) && DomOf(a) <= Universe()
    {
      ShowsVar(s, x);
      hide InForm, Rep, VarKeys, SetOf;
      DomFacts(View(mem, x));
      a := View(mem, x);
    }

    /** The arguments of an indexical as the evaluator sees them. */
    method ReadArgs(f: int, ghost s: Pass) returns (args: seq<Fd>)
      requires Shows(s) && 0 <= f < |p.fs|
      ensures AllValid(args) && Doms(args) == ArgsOf(p.fs[f], s.box) && Stores(Doms(args))
    {
      assert IndexicalInShape(p, p.fs[f]);
      hide ValidFd, DomOf, View, Rep, InForm, Dom1;
      args := [];
      var i := 0;
      while i < |p.fs[f].args|
        invariant 0 <= i <= |p.fs[f].args| && |args| == i
        invariant forall j :: 0 <= j < i ==> ValidFd(args[j])
        invariant forall j :: 0 <= j < i ==> DomOf(args[j]) == Dom1(s.box, p.fs[f].args[j])
        invariant forall j :: 0 <= j < i ==> DomOf(args[j]) <= Universe()
      {
        var a := ReadArg(p.fs[f].args[i], s);
        args := args + [a];
        i := i + 1;
      }
      assert Doms(args) == ArgsOf(p.fs[f], s.box);
    }

    /** evaluate_range: the clock ticks, and the range is computed unless the
        program stops. */
    method Evaluate(f: int, ghost s: Pass) returns (t: DomStruct)
      requires Shows(s) && Loaded() && 0 <= f < |p.fs|
      modifies this`time, ev`v, ev`b, ev.vStack, ev.bHeap
      ensures time == old(time) + 1
      ensures t != Aborted ==> Computed(t, ev.bHeap) && SetIn(t, ev.bHeap) == Range1(p.fs[f], s.box)
      ensures SafeAt(p, f, s.box) ==> t != Aborted
    {
      var args := ReadArgs(f, s);
      time := time + 1;
      ghost var c := p.fs[f].code;
      ghost var b := Doms(args);
      hide Rep, InForm, Exec, Doms, ArgsOf, CodeO, At, EvalO, OkO, FitsO, SetOf, AllValid, Stores, Step;
      assert At(code, c, CodeO(p.fs[f].e, c));
      if p.fs[f].e.Element? {
        t := EvaluateList(f, args, s);
        return;
      }
      t := ev.EvaluateRange(code, p.fs[f].code, args);
      RunIndexical(p.fs[f].e, code, b, c);
      ghost var o := Exec(code, b, St(c, [], []));
      assert SetIn(t, ev.bHeap) == Denotes(o);
    }

    /** The same for an element range, whose list is among its arguments. */
    method EvaluateList(f: int, args: seq<Fd>, ghost s: Pass) returns (t: DomStruct)
      requires Loaded() && 0 <= f < |p.fs| && p.fs[f].e.Element? && AllValid(args)
      requires Doms(args) == ArgsOf(p.fs[f], s.box)
      modifies ev`v, ev`b, ev.vStack, ev.bHeap
      ensures t != Aborted ==> Computed(t, ev.bHeap) && SetIn(t, ev.bHeap) == Range1(p.fs[f], s.box)
      ensures SafeAt(p, f, s.box) ==> t != Aborted
    {
      hide SetOf, AllValid, Exec;
      ElementCode(p.fs[f].e, code, p.fs[f].code);
      assert |args| == |Doms(args)|;
      assert |args| > 0 ==> Doms(args)[0] == DomOf(args[0]);
      t := ev.EvaluateElement(code, p.fs[f].code, args, p.fs[f].e.list, p.fs[f].e.values);
    }

    lemma ElementCode(e: Outer, code: seq<int>, pc: int)
      requires e.Element? && At(code, pc, CodeO(e, pc))
      ensures 0 <= pc && pc + 2 <= |code| && code[pc] == ElementInstr(e.values) && code[pc + 1] == FD_HALT
    {
      assert code[pc..pc + 2][0] == code[pc] && code[pc..pc + 2][1] == code[pc + 1];
    }

    /** The range cuts the domain of f's variable, which goes on the queue. */
    method CutAndQueue(f: int, u: DomStruct, cp: int, last: int, ghost s: Pass, ghost t: set<int>, ghost k: int,
      ghost m0: Mem)
      returns (l: int)
      requires Undoable(k, m0) && Shows(s) && QueueSaved(s.q, k) && 0 <= f < |p.fs| && 0 <= p.fs[f].d < p.n
      requires cp == 1 + 2 * k && s.q != [] && last == s.q[|s.q| - 1]
      requires !Single(s.box[p.fs[f].d]) && t <= s.box[p.fs[f].d] && SetIn(u, ev.bHeap) == t
      requires CutOf(View(mem, p.fs[f].d), u, ev.bHeap)
      requires (t == {} ==> VarMin(s.box[p.fs[f].d]) == 0 && VarMax(s.box[p.fs[f].d]) >= 0) && (u.DomainT? ==> t != {})
      modifies this`mem, this`trail, this`brk
      ensures Undoable(k, m0) && old(trail) <= trail
      ensures Shows(Narrowed(s, p.fs[f].d, t)) && QueueSaved(Narrowed(s, p.fs[f].d, t).q, k)
      ensures l == if p.fs[f].d in s.q then last else p.fs[f].d
    {
      hide *;
      var y := p.fs[f].d;
      ShowsVar(s, y);
      NarrowedRequeues(s, y, t);
      TrailOnce(y, cp, s, k, m0);
      var pr := NarrowVar(y, u, s, t, k, m0);
      ChangeInRange(s.box[y], t);
      l := PutOnQueue(y, pr, last, s.(box := s.box[y := t]), k, m0);
    }

    /** The clock after f has been run: SetLastExec. */
    method Stamped(f: int, ghost s: Pass)
      requires InForm(p, s) && Rep(p, mem, s) && s.last == lastExec && time == s.now + 1 && 0 <= f < |p.fs|
      modifies this`lastExec
      ensures Shows(Ran(s, f))
    {
      RanForm(p, s, f);
      hide Rep, InShape;
      lastExec := lastExec[f := time];
      hide InForm;
      RepSame(p, mem, s, Ran(s, f));
    }

    /** What the intersection says about f's range and the domain of its
        variable. */
    ghost predicate MeetsAs(f: int, s: Pass, res: Intersect, u: DomStruct)
      requires 0 <= f < |p.fs| && 0 <= p.fs[f].d < |s.box|
      reads this`mem, ev.bHeap
    {
      var d, t := s.box[p.fs[f].d], Cut(p, s.box, f);
      && (res == EMPTY ==> t == {})
      && (res == SUBSET ==> d <= Range1(p.fs[f], s.box))
      && (res == NONEMPTY ==>
            && !(d <= Range1(p.fs[f], s.box)) && !Single(d) && SetIn(u, ev.bHeap) == t
            && CutOf(View(mem, p.fs[f].d), u, ev.bHeap)
            && (t == {} ==> VarMin(d) == 0 && VarMax(d) >= 0) && (u.DomainT? ==> t != {}))
    }

    /** A range within the universe does not overflow. */
    lemma NoOverflow(x: Fd, t: DomStruct, m: array<Word>)
      ensures SetIn(t, m) <= Universe() ==> !Overflows(x, t) || t.lo > t.hi
      ensures Computed(t, m) && t.IntervalT? && t.lo > t.hi ==> !Overflows(x, t)
    {
      if t.IntervalT? && t.lo <= t.hi {
        assert t.hi in Interval(t.lo, t.hi);
      }
    }

    /** Evaluates f's range and meets it with the domain of its variable. */
    method Meet(f: int, ghost s: Pass) returns (res: Intersect, u: DomStruct)
      requires Shows(s) && Loaded() && 0 <= f < |p.fs| && 0 <= p.fs[f].d < p.n
      modifies this`time, this`lastExec, ev`v, ev`b, ev.vStack, ev.bHeap
      ensures u != Aborted ==> Shows(Ran(s, f)) && MeetsAs(f, s, res, u)
      ensures SafeAt(p, f, s.box) ==> u != Aborted
    {
      var y := p.fs[f].d;
      ShowsVar(s, y);
      assert |s.last| == |p.fs|;
      hide Rep, View, SetOf, Range1, InForm, Computed, VarMin, VarMax, CutOf;
      var t := Evaluate(f, s);
      if t == Aborted {
        return EMPTY, Aborted;
      }
      Stamped(f, s);
      res, u := MeetDomain(y, t, Ran(s, f));
    }

    method MeetDomain(y: int, t: DomStruct, ghost s: Pass) returns (res: Intersect, u: DomStruct)
      requires Shows(s) && 0 <= y < p.n && StaticEv() && Computed(t, ev.bHeap)
      modifies ev.bHeap
      ensures var d, r := s.box[y], old(SetIn(t, ev.bHeap));
              u != Aborted ==>
                && (res == EMPTY ==> d * r == {}) && (res == SUBSET ==> d <= r)
                && (res == NONEMPTY ==>
                      && !(d <= r) && !Single(d) && SetIn(u, ev.bHeap) == d * r && CutOf(View(mem, y), u, ev.bHeap)
                      && (d * r == {} ==> VarMin(d) == 0 && VarMax(d) >= 0) && (u.DomainT? ==> d * r != {}))
      ensures old(SetIn(t, ev.bHeap)) <= Universe() ==> u != Aborted
    {
      ShowsVar(s, y);
      var x := View(mem, y);
      NoOverflow(x, t, ev.bHeap);
      ghost var d, r := s.box[y], SetIn(t, ev.bHeap);
      assert d * r == r * d;
      DomFacts(x);
      SlipBounds(x, t);
      hide InForm, Rep, View, SetIn, VarMin, VarMax, CutOf, Overflows, Computed, Slips, VarKeys, ValidFd, DomOf;
      res, u := IntersectFd(x, t, ev.bHeap);
    }

    /** The state of the loop while the head x of the queue is worked off: QT
        points to the link of last. */
    ghost predicate Working(s: Pass, x: int, last: int, k: int, m0: Mem)
      reads this
    {
      && Undoable(k, m0) && Shows(s) && QueueSaved(s.q, k) && Invariant(p, s)
      && s.q != [] && x == s.q[0] && last == s.q[|s.q| - 1]
    }

    /** f, which the loop has reached, has just been run. */
    ghost predicate Executed(s: Pass, f: int, x: int, last: int, k: int, m0: Mem)
      reads this
    {
      && 0 <= f < |p.fs| && Invariant(p, s) && Reached(p, s, f) && 0 <= p.fs[f].d < p.n
      && Undoable(k, m0) && Shows(Ran(s, f)) && QueueSaved(s.q, k) && s.q != [] && x == s.q[0] && last == s.q[|s.q| - 1]
    }

    ghost predicate Direction(f: int, s: Pass, di: DomInfo)
      requires 0 <= f < |p.fs|
    {
      && (AllSingle(p.fs[f].mon, s.box) <==> di == SHRINKING || di == CONSTANT)
      && (AllSingle(p.fs[f].amon, s.box) <==> di == GROWING || di == CONSTANT)
    }

    lemma RunDone(s: Pass, f: int, x: int, last: int, k: int, m0: Mem)
      requires Executed(s, f, x, last, k, m0)
      requires !AllSingle(p.fs[f].mon, s.box) || Settled(p.fs[f], s.box)
      ensures Working(Ran(s, f), x, last, k, m0) && Onward(p, s, Ran(s, f))
    {
      hide Journal, Rep, WellPosed, AllSingle, Settled;
      RanOnward(p, s, f);
    }

    /** Entails f, which holds for every assignment left. */
    method EntailWorking(f: int, x: int, last: int, ghost s: Pass, ghost r0: Pass, ghost k: int, ghost m0: Mem)
      returns (ghost r: Pass)
      requires 0 <= f < |p.fs| && Working(r0, x, last, k, m0) && Onward(p, s, r0)
      requires forall a :: Inside(a, r0.box) ==> Holds(p.fs[f], a)
      modifies this`mem, this`trail
      ensures Undoable(k, m0) && old(trail) <= trail && Working(r, x, last, k, m0) && Onward(p, s, r)
      ensures 0 <= p.fs[f].ent < |r0.ent| && r == WithEntailed(r0, p.fs[f].ent)
    {
      hide Journal, Rep, Onward, Invariant, InForm, Holds, Inside, FieldsSaved;
      Entail(f, r0, k, m0);
      EntailOnward(p, s, r0, f);
      r := WithEntailed(r0, p.fs[f].ent);
      OnwardFacts(p, s, r);
    }

    /** SUBSET: entailed, unless the range may still shrink. */
    method ActSubset(f: int, di: DomInfo, x: int, last: int, ghost s: Pass, ghost k: int, ghost m0: Mem)
      returns (ghost r: Pass)
      requires Executed(s, f, x, last, k, m0) && Direction(f, s, di) && di != BOTTOM
      requires Settled(p.fs[f], s.box)
      modifies this`mem, this`trail
      ensures Undoable(k, m0) && old(trail) <= trail && Working(r, x, last, k, m0) && Onward(p, s, r)
      ensures Recorded(p, s, f, r)
    {
      ExecutedShape(s, f, x, last, k, m0);
      hide Executed, Working, Onward, Settled, AllSingle, Holds, Inside, Recorded;
      RunDone(s, f, x, last, k, m0);
      r := Ran(s, f);
      if di == SHRINKING {
        NotDue(p, s, f, r);
        return;
      }
      ExecutedCovers(s, f, x, last, k, m0);
      hide *;
      r := EntailWorking(f, x, last, s, r, k, m0);
      MarkedRecords(p, s, f, Ran(s, f));
    }

    lemma ExecutedCovers(s: Pass, f: int, x: int, last: int, k: int, m0: Mem)
      requires Executed(s, f, x, last, k, m0) && AllSingle(p.fs[f].amon, s.box) && Settled(p.fs[f], s.box)
      ensures forall a :: Inside(a, s.box) ==> Holds(p.fs[f], a)
    {
      CoveredHolds(p, s.box, f);
    }

    method CutWorking(f: int, u: DomStruct, cp: int, x: int, last: int, ghost s: Pass, ghost k: int, ghost m0: Mem)
      returns (l: int, ghost r: Pass)
      requires Executed(s, f, x, last, k, m0) && AllSingle(p.fs[f].mon, s.box)
      requires MeetsAs(f, s, NONEMPTY, u) && cp == 1 + 2 * k
      modifies this`mem, this`trail, this`brk
      ensures Undoable(k, m0) && old(trail) <= trail && Working(r, x, l, k, m0) && Onward(p, s, r)
      ensures r.box == s.box[p.fs[f].d := Cut(p, s.box, f)] && f < |s.last| && SameRun(Ran(s, f), r)
    {
      hide *;
      ExecutedShape(s, f, x, last, k, m0);
      CutReady(f, u, x, last, s, k, m0);
      ghost var y, t := p.fs[f].d, Cut(p, s.box, f);
      r := Narrowed(Ran(s, f), y, t);
      l := CutAndQueue(f, u, cp, last, Ran(s, f), t, k, m0);
      CutWorks(f, x, last, l, s, k, m0);
      NarrowedRun(Ran(s, f), y, t);
    }

    lemma ExecutedShape(s: Pass, f: int, x: int, last: int, k: int, m0: Mem)
      requires Executed(s, f, x, last, k, m0)
      ensures 0 <= f < |p.fs| && f < |s.last| && 0 <= p.fs[f].d < p.n
      ensures |s.change| == |s.time| == |s.box| == p.n && s.q != [] && x == s.q[0] && last == s.q[|s.q| - 1]
      ensures Undoable(k, m0)
    {
      hide Journal, Rep, WellPosed;
    }

    lemma CutReady(f: int, u: DomStruct, x: int, last: int, s: Pass, k: int, m0: Mem)
      requires Executed(s, f, x, last, k, m0) && AllSingle(p.fs[f].mon, s.box) && MeetsAs(f, s, NONEMPTY, u)
      ensures var d, t, r := s.box[p.fs[f].d], Cut(p, s.box, f), Ran(s, f);
              && r.box == s.box && r.q == s.q && s.q != [] && last == s.q[|s.q| - 1] && x == s.q[0]
              && Undoable(k, m0) && Shows(r) && QueueSaved(s.q, k) && 0 <= p.fs[f].d < p.n
              && !Single(d) && t <= d && SetIn(u, ev.bHeap) == t && CutOf(View(mem, p.fs[f].d), u, ev.bHeap)
              && (t == {} ==> VarMin(d) == 0 && VarMax(d) >= 0) && (u.DomainT? ==> t != {})
              && Onward(p, s, Narrowed(r, p.fs[f].d, t)) && |r.change| == |r.time| == |s.box| == p.n
    {
      assert InForm(p, s);
      hide Journal, Rep, WellPosed, AllSingle, Onward, CutOf, SetIn, VarMin, VarMax, Range1, View, FieldsSaved;
      CutOnward(p, s, f);
    }

    lemma CutWorks(f: int, x: int, last: int, l: int, s: Pass, k: int, m0: Mem)
      requires 0 <= f < |p.fs| && f < |s.last| && 0 <= p.fs[f].d < |s.box|
      requires |s.change| == |s.time| == |s.box| && s.q != [] && x == s.q[0] && last == s.q[|s.q| - 1]
      requires var r := Narrowed(Ran(s, f), p.fs[f].d, Cut(p, s.box, f));
               && Undoable(k, m0) && Shows(r) && QueueSaved(r.q, k) && Onward(p, s, r)
               && l == if p.fs[f].d in s.q then last else p.fs[f].d
      ensures var r := Narrowed(Ran(s, f), p.fs[f].d, Cut(p, s.box, f));
              Working(r, x, l, k, m0) && r.box == s.box[p.fs[f].d := Cut(p, s.box, f)]
    {
      hide Undoable, Shows, QueueSaved, Onward, Invariant, InForm, Cut, ChangeOf, BothChanges;
      OnwardFacts(p, s, Narrowed(Ran(s, f), p.fs[f].d, Cut(p, s.box, f)));
    }

    /** NONEMPTY: the domain is cut, and if the range is constant that is all
        there is to do. */
    method ActCut(f: int, u: DomStruct, di: DomInfo, cp: int, x: int, last: int, ghost s: Pass, ghost k: int,
      ghost m0: Mem)
      returns (l: int, ghost r: Pass)
      requires Executed(s, f, x, last, k, m0) && Direction(f, s, di) && (di == SHRINKING || di == CONSTANT)
      requires MeetsAs(f, s, NONEMPTY, u) && cp == 1 + 2 * k
      modifies this`mem, this`trail, this`brk
      ensures Undoable(k, m0) && old(trail) <= trail && Working(r, x, l, k, m0) && Onward(p, s, r)
      ensures Recorded(p, s, f, r)
    {
      if di == CONSTANT {
        CutHolds(p, s.box, f);
      }
      hide Executed, MeetsAs, Working, Undoable, Onward, AllSingle, Holds, Inside, Cut;
      l, r := CutWorking(f, u, cp, x, last, s, k, m0);
      if di == CONSTANT {
        ghost var r0 := r;
        r := EntailWorking(f, x, l, s, r0, k, m0);
        MarkedRecords(p, s, f, r0);
      } else {
        NotDue(p, s, f, r);
      }
    }

    lemma SkipWorking(s: Pass, f: int, x: int, last: int, k: int, m0: Mem)
      requires Working(s, x, last, k, m0) && 0 <= f < |p.fs| && Reached(p, s, f) && PassedOver(p, s, f)
      ensures Working(Skipped(s), x, last, k, m0) && Onward(p, s, Skipped(s))
    {
      SkipOnward(p, s, f);
      OnwardFacts(p, s, Skipped(s));
      hide Journal, Rep, Onward, Invariant, InForm, PassedOver, Reached, FieldsSaved;
      RepSame(p, mem, s, Skipped(s));
    }

    /** The suspension reached, and what the loop tests of it. */
    lemma ReachedFacts(s: Pass, x: int, last: int, k: int, m0: Mem)
      requires Working(s, x, last, k, m0) && 0 <= s.at < |p.susp[x]|
      ensures 0 <= x < p.n && |p.susp| == p.n && |lastExec| == |p.fs|
      ensures var f := p.susp[x][s.at].f;
              && 0 <= f < |p.fs| && Reached(p, s, f) && 0 <= p.fs[f].d < p.n
              && (Entailed(p, s, f) <==> Num(mem, Ent(p.fs[f].ent)) == 0)
      ensures lastExec == s.last && InfoAt(mem, x).time == s.time[x] && InfoAt(mem, x).change == s.change[x]
    {
      var f := p.susp[x][s.at].f;
      assert SuspInShape(p, x, p.susp[x][s.at]);
      assert IndexicalInShape(p, p.fs[f]) && EntRep(mem, s, p.fs[f].ent);
      ShowsVar(s, x);
    }

    /** The tests before an indexical is run. */
    method Decide(x: int, l: int, last: int, ghost s: Pass, ghost k: int, ghost m0: Mem)
      returns (run: bool, di: DomInfo)
      requires Working(s, x, last, k, m0) && s.at == l && 0 <= l < |p.susp[x]|
      modifies this`mem, this`trail
      ensures Undoable(k, m0) && old(trail) <= trail && Working(s, x, last, k, m0)
      ensures 0 <= p.susp[x][l].f < |p.fs| && Reached(p, s, p.susp[x][l].f)
      ensures !run ==> PassedOver(p, s, p.susp[x][l].f)
      ensures run ==> Direction(p.susp[x][l].f, s, di) && di != BOTTOM
    {
      ReachedFacts(s, x, last, k, m0);
      var f := p.susp[x][l].f;
      hide Journal, Rep, Invariant, AllSingle, FieldsSaved, NotAffected;
      run, di := false, BOTTOM;
      if Num(mem, Ent(p.fs[f].ent)) == 0 {
        return;
      }
      if lastExec[f] > InfoAt(mem, x).time {
        return;
      }
      if NotAffected(p.susp[x][l].dep, InfoAt(mem, x).change) {
        return;
      }
      di := Monoton(f, s, k, m0);
      run := di != BOTTOM && !(p.fs[f].tell && di == GROWING);
    }

    /** One round of the inner loop: the suspension at position l. */
    method Round(x: int, l: int, cp: int, last: int, ghost s: Pass, ghost k: int, ghost m0: Mem)
      returns (a: Answer, l2: int, ghost r: Pass)
      requires Working(s, x, last, k, m0) && Loaded() && cp == 1 + 2 * k && s.at == l && 0 <= l < |p.susp[x]|
      modifies this`mem, this`trail, this`brk, this`time, this`lastExec, ev`v, ev`b, ev.vStack, ev.bHeap
      ensures Undoable(k, m0) && old(trail) <= trail
      ensures a == TRUE ==> Working(r, x, l2, k, m0) && Onward(p, s, r) && Tells(p, s, r)
      ensures a == FALSE ==> Sols(p, s.box) == {} && Clock(s.now)
      ensures Safe(p, s.box) ==> a != FATAL
    {
      a, l2, r := TRUE, last, s;
      var run, di := Decide(x, l, last, s, k, m0);
      var f := p.susp[x][l].f;
      if !run {
        SkipWorking(s, f, x, last, k, m0);
        r := Skipped(s);
        SameTells(p, s, r);
        return;
      }
      ReachedFacts(s, x, last, k, m0);
      if Safe(p, s.box) {
        SafeNow(p, s.box, f);
      }
      a, l2, r := RunOne(f, di, x, cp, last, s, k, m0);
      if a == TRUE {
        RecordedTells(p, s, f, r);
      }
    }

    /** Runs the indexical f. */
    method RunOne(f: int, di: DomInfo, x: int, cp: int, last: int, ghost s: Pass, ghost k: int, ghost m0: Mem)
      returns (a: Answer, l2: int, ghost r: Pass)
      requires Working(s, x, last, k, m0) && Loaded() && cp == 1 + 2 * k
      requires 0 <= f < |p.fs| && Reached(p, s, f) && 0 <= p.fs[f].d < p.n
      requires Direction(f, s, di) && di != BOTTOM
      modifies this`mem, this`trail, this`brk, this`time, this`lastExec, ev`v, ev`b, ev.vStack, ev.bHeap
      ensures Undoable(k, m0) && old(trail) <= trail
      ensures a == TRUE ==> Working(r, x, l2, k, m0) && Onward(p, s, r) && Recorded(p, s, f, r)
      ensures a == FALSE ==> Sols(p, s.box) == {} && Clock(s.now)
      ensures SafeAt(p, f, s.box) ==> a != FATAL
    {
      hide *;
      a, l2, r := TRUE, last, s;
      WorkingShape(s, x, last, k, m0);
      var res, u := Meet(f, s);
      if u == Aborted {
        return FATAL, last, s;
      }
      MetExecuted(s, f, x, last, k, m0);
      match res {
        case EMPTY =>
          if di == GROWING {
            RunGrowing(s, f, di, res, u, x, last, k, m0);
            r := Ran(s, f);
          } else {
            ExecutedEmpty(s, f, di, res, u);
            RanClock(s, f);
            a := FALSE;
          }
        case SUBSET =>
          InRange(f, s, res, u);
          r := ActSubset(f, di, x, last, s, k, m0);
        case NONEMPTY =>
          if di == GROWING {
            RunGrowing(s, f, di, res, u, x, last, k, m0);
            r := Ran(s, f);
          } else {
            l2, r := ActCut(f, u, di, cp, x, last, s, k, m0);
          }
      }
    }

    lemma WorkingShape(s: Pass, x: int, last: int, k: int, m0: Mem)
      requires Working(s, x, last, k, m0)
      ensures Shows(s) && Undoable(k, m0) && QueueSaved(s.q, k) && Invariant(p, s)
      ensures |s.last| == |p.fs| && |s.box| == p.n && s.q != [] && x == s.q[0] && last == s.q[|s.q| - 1]
    {
      hide Journal, Rep, WellPosed, FieldsSaved;
    }

    lemma MetExecuted(s: Pass, f: int, x: int, last: int, k: int, m0: Mem)
      requires 0 <= f < |p.fs| && f < |s.last| && Invariant(p, s) && Reached(p, s, f) && 0 <= p.fs[f].d < p.n
      requires Undoable(k, m0) && Shows(Ran(s, f)) && QueueSaved(s.q, k) && s.q != [] && x == s.q[0]
               && last == s.q[|s.q| - 1]
      ensures Executed(s, f, x, last, k, m0)
    {
      hide Undoable, Shows, QueueSaved, Invariant, Reached;
    }

    lemma RunGrowing(s: Pass, f: int, di: DomInfo, res: Intersect, u: DomStruct, x: int, last: int, k: int, m0: Mem)
      requires Executed(s, f, x, last, k, m0) && Direction(f, s, di) && di == GROWING
      requires 0 <= p.fs[f].d < |s.box| && MeetsAs(f, s, res, u) && res != SUBSET
      ensures f < |s.last| && Working(Ran(s, f), x, last, k, m0) && Onward(p, s, Ran(s, f))
      ensures Recorded(p, s, f, Ran(s, f))
    {
      ExecutedShape(s, f, x, last, k, m0);
      GrowingFacts(s, f, di, res, u);
      hide *;
      SameRunSelf(Ran(s, f));
      RunDone(s, f, x, last, k, m0);
      NotDue(p, s, f, Ran(s, f));
    }

    /** A range that may still shrink and does not contain the domain is not due. */
    lemma GrowingFacts(s: Pass, f: int, di: DomInfo, res: Intersect, u: DomStruct)
      requires 0 <= f < |p.fs| && Direction(f, s, di) && di == GROWING
      requires 0 <= p.fs[f].d < |s.box| && MeetsAs(f, s, res, u) && res != SUBSET
      ensures !AllSingle(p.fs[f].mon, s.box) && !Due(p.fs[f], s.box)
    {
      hide Range1, SetIn, CutOf, AllSingle;
    }

    lemma ExecutedEmpty(s: Pass, f: int, di: DomInfo, res: Intersect, u: DomStruct)
      requires 0 <= f < |p.fs| && Invariant(p, s) && 0 <= p.fs[f].d < |s.box|
      requires Direction(f, s, di) && di != BOTTOM && di != GROWING && MeetsAs(f, s, EMPTY, u)
      ensures Sols(p, s.box) == {}
    {
      hide WellPosed, AllSingle, Cut, Sols;
      EmptyNoSols(p, s.box, f);
    }

    lemma RanClock(s: Pass, f: int)
      requires 0 <= f < |s.last| && Shows(Ran(s, f))
      ensures Clock(s.now)
    {
    }

    lemma InRange(f: int, s: Pass, res: Intersect, u: DomStruct)
      requires 0 <= f < |p.fs| && 0 <= p.fs[f].d < |s.box| && MeetsAs(f, s, res, u) && res == SUBSET
      ensures Settled(p.fs[f], s.box)
    {
      hide Cut, Range1, SetIn, CutOf;
    }

    // -------------------------------------------- propagation

    /** InitQueue: the variable that has just been given a value is the queue. */
    method InitQueue(x: int, prop: int, ghost s: Pass, ghost k: int, ghost m0: Mem)
      requires Undoable(k, m0) && Shows(s) && s.q == [] && 0 <= x < p.n && FieldsSaved(trail, k, x) && 0 <= prop <= 3
      modifies this`mem
      ensures Undoable(k, m0) && Shows(Started(s, x, prop)) && QueueSaved([x], k)
    {
      ShowsVar(s, x);
      hide Journal, FieldsSaved, Rep, InForm;
      FirstStep(p, mem, s, x);
      Mark(x, prop, time, s.(q := [x]), k, m0);
    }

    /** Dequeue, and the state the next round starts from. */
    method Next1(x: int, last: int, ghost s: Pass, ghost k: int, ghost m0: Mem) returns (h: int)
      requires Working(s, x, last, k, m0) && 0 <= x < |p.susp| && s.at == |p.susp[x]| && NoRepeats(s.q) && s.now >= 0
      modifies this`mem
      ensures Undoable(k, m0) && Shows(Advanced(s)) && QueueSaved(s.q[1..], k) && Invariant(p, Advanced(s))
      ensures h == if |s.q| > 1 then s.q[1] else NULL
    {
      AdvanceKeeps(p, s);
      hide Journal, FieldsSaved, Rep, Invariant, InForm, Advanced;
      h := Dequeue(x, s, k, m0);
    }

    /** What propagation keeps: no solution is lost, domains only shrink, and no
        entailment goes unmarked. */
    ghost predicate Propagated(s0: Pass, s: Pass) {
      && Sols(p, s.box) == Sols(p, s0.box) && Narrows(s0.box, s.box) && s.now >= s0.now && NoRepeats(s.q)
      && Tells(p, s0, s)
    }

    lemma WorkingUndoable(s: Pass, x: int, last: int, k: int, m0: Mem)
      requires Working(s, x, last, k, m0)
      ensures Undoable(k, m0)
    {
    }

    lemma OnwardPropagates(s0: Pass, s1: Pass, s: Pass)
      requires Propagated(s0, s1) && Onward(p, s1, s) && Tells(p, s1, s)
      ensures Propagated(s0, s) && s.at == s1.at + 1
      ensures Total(s.box) < Total(s1.box) || (Total(s.box) == Total(s1.box) && |s.q| == |s1.q|)
    {
      hide Sols, Narrows, Total, Invariant, Tells;
      NarrowsTwice(s0.box, s1.box, s.box);
      TellsTwice(p, s0, s1, s);
    }

    /** Works off the list of the head of the queue. */
    method WorkOff(x: int, cp: int, last0: int, ghost s0: Pass, ghost k: int, ghost m0: Mem)
      returns (a: Answer, last: int, ghost s: Pass)
      requires Working(s0, x, last0, k, m0) && Loaded() && cp == 1 + 2 * k && s0.at == 0 && NoRepeats(s0.q)
      requires 0 <= x < |p.susp|
      modifies this`mem, this`trail, this`brk, this`time, this`lastExec, ev`v, ev`b, ev.vStack, ev.bHeap
      ensures Undoable(k, m0) && old(trail) <= trail
      ensures a == TRUE ==> Working(s, x, last, k, m0) && s.at == |p.susp[x]| && Propagated(s0, s)
      ensures a == TRUE ==> Total(s.box) < Total(s0.box) || (Total(s.box) == Total(s0.box) && |s.q| == |s0.q|)
      ensures a == FALSE ==> Sols(p, s0.box) == {} && Clock(s0.now)
      ensures Safe(p, s0.box) ==> a != FATAL
    {
      hide *;
      PropagatedStart(s0);
      a, last, s := TRUE, last0, s0;
      var l := 0;
      while l < |p.susp[x]|
        invariant 0 <= l <= |p.susp[x]| && s.at == l && old(trail) <= trail && a == TRUE
        invariant Working(s, x, last, k, m0) && Propagated(s0, s)
        invariant Total(s.box) < Total(s0.box) || (Total(s.box) == Total(s0.box) && |s.q| == |s0.q|)
      {
        ghost var s1 := s;
        PropagatedSafe(s0, s1);
        a, last, s := Round(x, l, cp, last, s, k, m0);
        if a != TRUE {
          if a == FALSE {
            ClockBack(s1.now, s0.now);
          }
          return;
        }
        OnwardPropagates(s0, s1, s);
        l := l + 1;
      }
      WorkingUndoable(s, x, last, k, m0);
    }

    lemma PropagatedStart(s: Pass)
      requires NoRepeats(s.q)
      ensures Propagated(s, s)
    {
      SelfNarrows(s.box);
      SameTells(p, s, s);
      hide Sols, Narrows, Tells, NoRepeats;
    }

    lemma PropagatedSafe(s0: Pass, s: Pass)
      requires Propagated(s0, s)
      ensures Safe(p, s0.box) ==> Safe(p, s.box)
      ensures Sols(p, s.box) == Sols(p, s0.box) && s.now >= s0.now
    {
      hide Sols, Narrows, Tells;
      SafeNarrows(p, s0.box, s.box);
    }

    lemma PropagatedTwice(s0: Pass, s1: Pass, s: Pass)
      requires Propagated(s0, s1) && Propagated(s1, s)
      ensures Propagated(s0, s)
    {
      hide Sols, Narrows, Tells;
      NarrowsTwice(s0.box, s1.box, s.box);
      TellsTwice(p, s0, s1, s);
    }

    lemma AdvancePropagates(s0: Pass, s: Pass)
      requires Propagated(s0, s) && s.q != []
      ensures Propagated(s0, Advanced(s)) && Total(Advanced(s).box) == Total(s.box) && |Advanced(s).q| == |s.q| - 1
    {
      SameTells(p, s, Advanced(s));
      SelfNarrows(s.box);
      hide Sols, Narrows, Total, Tells;
      TellsTwice(p, s0, s, Advanced(s));
    }

    lemma HeadInRange(s: Pass)
      requires Shows(s)
      ensures s.q != [] ==> 0 <= s.q[0] < p.n
    {
    }

    /** The state between two rounds of the outer loop. */
    ghost predicate Between(s0: Pass, s: Pass, x: int, last: int, k: int, m0: Mem)
      reads this
    {
      && Undoable(k, m0) && Shows(s) && Invariant(p, s) && QueueSaved(s.q, k) && s.at == 0 && Propagated(s0, s)
      && x == (if s.q == [] then NULL else s.q[0]) && (s.q != [] ==> last == s.q[|s.q| - 1])
    }

    /** The head of the queue is worked off and leaves it. */
    method HeadRound(x: int, cp: int, last0: int, ghost s0: Pass, ghost s1: Pass, ghost k: int, ghost m0: Mem)
      returns (a: Answer, h: int, last: int, ghost s: Pass)
      requires Between(s0, s1, x, last0, k, m0) && x != NULL && Loaded() && cp == 1 + 2 * k && s0.now >= 0
      modifies this`mem, this`trail, this`brk, this`time, this`lastExec, ev`v, ev`b, ev.vStack, ev.bHeap
      ensures Undoable(k, m0) && old(trail) <= trail
      ensures a == TRUE ==> Between(s0, s, h, last, k, m0)
      ensures a == TRUE ==> Total(s.box) < Total(s1.box) || (Total(s.box) == Total(s1.box) && |s.q| < |s1.q|)
      ensures a == FALSE ==> Sols(p, s0.box) == {} && Clock(s0.now)
      ensures Safe(p, s0.box) ==> a != FATAL
    {
      hide *;
      BetweenWorks(s0, s1, x, last0, k, m0);
      h := x;
      PropagatedSafe(s0, s1);
      a, last, s := WorkOff(x, cp, last0, s1, k, m0);
      if a == TRUE {
        PropagatedTwice(s0, s1, s);
        QueueOf(s0, s, x, last, k, m0);
        h := Next1(x, last, s, k, m0);
        AdvancePropagates(s0, s);
        NextBetween(s0, s, h, last, k, m0);
        s := Advanced(s);
      } else if a == FALSE {
        ClockBack(s1.now, s0.now);
      }
    }

    lemma BetweenWorks(s0: Pass, s: Pass, x: int, last: int, k: int, m0: Mem)
      requires Between(s0, s, x, last, k, m0) && x != NULL && s0.now >= 0
      ensures Working(s, x, last, k, m0) && s.at == 0 && NoRepeats(s.q) && 0 <= x < |p.susp|
      ensures Propagated(s0, s) && s.now >= s0.now && Sols(p, s.box) == Sols(p, s0.box)
    {
      HeadInRange(s);
      assert |p.susp| == p.n;
      hide Journal, Rep, Invariant, Sols, Narrows, InForm, FieldsSaved, Tells;
    }

    lemma QueueOf(s0: Pass, s: Pass, x: int, last: int, k: int, m0: Mem)
      requires Working(s, x, last, k, m0) && Propagated(s0, s) && s0.now >= 0
      ensures NoRepeats(s.q) && s.now >= 0 && s.q != [] && last == s.q[|s.q| - 1]
    {
      hide Journal, Rep, Invariant, Sols, Narrows, InForm, FieldsSaved, NoRepeats, Tells;
    }

    lemma NextBetween(s0: Pass, s: Pass, h: int, last: int, k: int, m0: Mem)
      requires s.q != [] && Undoable(k, m0) && Shows(Advanced(s)) && QueueSaved(s.q[1..], k)
               && Invariant(p, Advanced(s))
      requires Propagated(s0, Advanced(s)) && last == s.q[|s.q| - 1]
      requires h == if |s.q| > 1 then s.q[1] else NULL
      ensures Between(s0, Advanced(s), h, last, k, m0)
    {
      hide Journal, Rep, Invariant, Propagated, InForm, FieldsSaved;
    }

    /** fd_prop: propagates the change of x0 to a fixpoint. */
    method FdProp(x0: int, prop: int, cp: int, ghost s0: Pass, ghost k: int, ghost m0: Mem)
      returns (a: Answer, ghost s: Pass)
      requires Undoable(k, m0) && Shows(s0) && s0.q == [] && s0.at == 0 && s0.now >= 0 && cp == 1 + 2 * k
      requires 0 <= x0 < p.n && FieldsSaved(trail, k, x0) && 0 <= prop <= 3 && Loaded()
      requires Invariant(p, Started(s0, x0, prop))
      modifies this`mem, this`trail, this`brk, this`time, this`lastExec, ev`v, ev`b, ev.vStack, ev.bHeap
      ensures Undoable(k, m0) && old(trail) <= trail
      ensures a == TRUE ==> Shows(s) && Invariant(p, s) && s.q == [] && s.at == 0 && s.now >= s0.now
      ensures a == TRUE ==> Sols(p, s.box) == Sols(p, s0.box) && Narrows(s0.box, s.box) && Tells(p, s0, s)
      ensures a == FALSE ==> Sols(p, s0.box) == {} && Clock(s0.now)
      ensures Safe(p, s0.box) ==> a != FATAL
    {
      hide *;
      Startable(s0, x0);
      InitQueue(x0, prop, s0, k, m0);
      s := Started(s0, x0, prop);
      a := TRUE;
      var x, last := x0, x0;
      StartBetween(s0, x0, prop, k, m0);
      while x != NULL
        invariant old(trail) <= trail && a == TRUE && Between(s0, s, x, last, k, m0)
        decreases Total(s.box), |s.q|
      {
        a, x, last, s := HeadRound(x, cp, last, s0, s, k, m0);
        if a != TRUE {
          return;
        }
      }
      BetweenEnd(s0, s, last, k, m0);
    }

    lemma Startable(s0: Pass, x: int)
      requires Shows(s0) && 0 <= x < p.n
      ensures x < |s0.change| && x < |s0.time|
    {
    }

    lemma StartBetween(s0: Pass, x: int, prop: int, k: int, m0: Mem)
      requires 0 <= x < |s0.change| && x < |s0.time|
      requires Undoable(k, m0) && Shows(Started(s0, x, prop)) && QueueSaved([x], k) && s0.q == [] && s0.at == 0
      requires Invariant(p, Started(s0, x, prop))
      ensures Between(s0, Started(s0, x, prop), x, x, k, m0)
    {
      SelfNarrows(s0.box);
      SameTells(p, s0, Started(s0, x, prop));
      hide Journal, FieldsSaved, Rep, Invariant, InForm, Sols, Narrows, Tells;
    }

    lemma BetweenEnd(s0: Pass, s: Pass, last: int, k: int, m0: Mem)
      requires Between(s0, s, NULL, last, k, m0)
      ensures Undoable(k, m0) && Shows(s) && Invariant(p, s) && s.q == [] && s.at == 0 && s.now >= s0.now
      ensures Sols(p, s.box) == Sols(p, s0.box) && Narrows(s0.box, s.box) && Tells(p, s0, s)
    {
      HeadInRange(s);
      hide Journal, Rep, Invariant, Sols, Narrows, Tells;
    }
  }

  /** The emptied variable is the one interval the intersection does not see
      as disjoint: it started at 0. */
  lemma SlipBounds(x: Fd, t: DomStruct)
    requires ValidFd(x)
    ensures Slips(x, t) && DomOf(x) != {} ==> VarMin(DomOf(x)) == 0 && VarMax(DomOf(x)) >= 0
  {
    DomFacts(x);
  }

  /** x alone is queued, its change and the time recorded. */
  ghost function Started(s: Pass, x: int, change: int): Pass
    requires 0 <= x < |s.change| && x < |s.time|
  {
    s.(change := s.change[x := change], time := s.time[x := s.now], q := [x])
  }

  /** y is queued, or its entry is updated. */
  ghost function Requeued(s: Pass, y: int, pr: int): Pass
    requires 0 <= y < |s.change| && y < |s.time|
  {
    var change := if y in s.q then BothChanges(s.change[y], pr) else pr;
    s.(change := s.change[y := change], time := s.time[y := s.now], q := if y in s.q then s.q else s.q + [y])
  }

  lemma NarrowedRequeues(s: Pass, y: int, t: set<int>)
    requires 0 <= y < |s.box| && y < |s.change| && y < |s.time|
    ensures Narrowed(s, y, t) == Requeued(s.(box := s.box[y := t]), y, ChangeOf(s.box[y], t))
    ensures Narrowed(s, y, t).q == if y in s.q then s.q else s.q + [y]
  {
  }

  lemma BothInRange(c: int, d: int)
    requires 0 <= c <= 3 && 0 <= d <= 3
    ensures 0 <= BothChanges(c, d) <= 3
  {
  }

  /** The record of an undetermined variable with domain d. */
  ghost predicate Uncut(m: Mem, y: int, d: set<int>) {
    VarKeys(m, y) && Num(m, Cell(y)) == NULL && Num(m, Min(y)) == VarMin(d) && Num(m, Max(y)) == VarMax(d)
  }

  /** u represents a part t of the domain d of a record with this info. */
  ghost predicate CutShape(u: DomStruct, heap: array<Word>, t: set<int>, d: set<int>, info: Info)
    reads heap
  {
    && u != Aborted && SetIn(u, heap) == t && (t == {} ==> VarMin(d) == 0 && VarMax(d) >= 0)
    && (u.IntervalT? ==> info.interval && ((u.lo == 1 && u.hi == 0) || 0 <= u.lo <= u.hi <= 255))
    && (u.DomainT? ==>
       0 <= u.d && 0 <= u.lm < 8 && u.d + u.lm + 1 <= heap.Length && t != {} && (!info.interval ==> u.lm <= info.lm))
  }

  /** The record that u and t leave behind. */
  ghost predicate RecordOf(m: Mem, y: int, u: DomStruct, heap: array<Word>, t: set<int>, info: Info)
    reads heap
  {
    && Cell(y) in m && Next(y) in m && Min(y) in m && Max(y) in m && InfoOf(y) in m && Stamp(y) in m && Domain(y) in m
    && Num(m, Min(y)) == VarMin(t) && Num(m, Max(y)) == VarMax(t)
    && Num(m, Cell(y)) == (if VarMin(t) == VarMax(t) then VarMin(t) else NULL)
    && InfoAt(m, y).change == info.change && InfoAt(m, y).time == info.time
    && (VarMin(t) != VarMax(t) && u.IntervalT? ==> InfoAt(m, y).interval)
    && (VarMin(t) != VarMax(t) && u.DomainT? && 0 <= u.d && 0 <= u.lm && u.d + u.lm + 1 <= heap.Length ==>
          !InfoAt(m, y).interval && InfoAt(m, y).lm == u.lm && HoldsWords(m, y, heap[u.d..u.d + u.lm + 1]))
  }

  /** What prop_info leaves behind. */
  ghost predicate PropEffect(m: Mem, m1: Mem, y: int, t: set<int>) {
    && Num(m1, Min(y)) == VarMin(t) && Num(m1, Max(y)) == VarMax(t)
    && Num(m1, Cell(y)) == (if VarMin(t) == VarMax(t) then VarMin(t) else Num(m, Cell(y)))
    && (forall l :: l in m ==> l in m1)
    && (forall l: Loc :: l != Min(y) && l != Max(y) && l != Cell(y) ==> SameAt(m, m1, l))
  }

  /** Bounds that have been moved, and then the cell where a value is left. */
  lemma BoundEffect(m: Mem, m1: Mem, y: int, t: set<int>)
    requires Cell(y) in m && Num(m1, Min(y)) == VarMin(t) && Num(m1, Max(y)) == VarMax(t)
    requires forall l :: l in m ==> l in m1
    requires forall l: Loc :: l != Min(y) && l != Max(y) ==> SameAt(m, m1, l)
    ensures Cell(y) in m1
    ensures PropEffect(m, if VarMin(t) == VarMax(t) then m1[Cell(y) := N(VarMin(t))] else m1, y, t)
  {
    hide VarMin, VarMax;
    assert SameAt(m, m1, Cell(y));
    var m2 := m1[Cell(y) := N(VarMin(t))];
    forall l: Loc | l != Min(y) && l != Max(y) && l != Cell(y)
      ensures SameAt(m, m2, l)
    {
      assert SameAt(m, m1, l);
    }
  }

  /** What set_dom leaves behind. */
  ghost predicate WordsEffect(m1: Mem, m2: Mem, y: int, ws: seq<Word>) {
    && InfoAt(m2, y) == InfoAt(m1, y).(interval := false, lm := |ws| - 1)
    && HoldsWords(m2, y, ws) && InfoOf(y) in m2 && Domain(y) in m2
    && (forall l: Loc :: l != InfoOf(y) && l != Domain(y) && !(l.DomainWord? && l.x == y) ==> SameAt(m1, m2, l))
  }

  lemma UncutFacts(m: Mem, y: int, u: DomStruct, heap: array<Word>, t: set<int>, d: set<int>)
    requires Uncut(m, y, d) && CutShape(u, heap, t, d, InfoAt(m, y))
    ensures VarKeys(m, y) && Num(m, Cell(y)) < 0 && Num(m, Min(y)) == VarMin(d) && Num(m, Max(y)) == VarMax(d)
    ensures SetIn(u, heap) == t && u != Aborted && (t == {} ==> VarMin(d) == 0 && VarMax(d) >= 0)
    ensures u.IntervalT? ==> (u.lo == 1 && u.hi == 0) || u.lo <= u.hi
    ensures u.DomainT? ==> 0 <= u.d && 0 <= u.lm && u.d + u.lm + 1 <= heap.Length && t != {}
    ensures u.DomainT? && !InfoAt(m, y).interval ==> u.lm <= InfoAt(m, y).lm
  {
    hide VarKeys, SetIn, VarMin, VarMax;
  }

  lemma PropKeeps(m: Mem, m1: Mem, y: int, t: set<int>, d: set<int>)
    requires Uncut(m, y, d) && PropEffect(m, m1, y, t)
    ensures VarKeys(m1, y) && InfoAt(m1, y) == InfoAt(m, y)
  {
    assert SameAt(m, m1, InfoOf(y)) && SameAt(m, m1, Domain(y));
    var b := Num(m, Domain(y));
    forall i | Boxed(m1, y) && 0 <= i <= InfoAt(m1, y).lm
      ensures DomainWord(y, b, i) in m1
    {
      assert DomainWord(y, b, i) in m;
    }
  }

  lemma CutDone(m: Mem, m1: Mem, m2: Mem, y: int, u: DomStruct, heap: array<Word>, t: set<int>, d: set<int>)
    requires Uncut(m, y, d) && CutShape(u, heap, t, d, InfoAt(m, y)) && PropEffect(m, m1, y, t)
    requires u.DomainT? && Num(m1, Cell(y)) < 0 ==> WordsEffect(m1, m2, y, heap[u.d..u.d + u.lm + 1])
    requires !(u.DomainT? && Num(m1, Cell(y)) < 0) ==> m2 == m1
    ensures RecordOf(m2, y, u, heap, t, InfoAt(m, y)) && SameOutside(m, m2, y)
  {
    PropKeeps(m, m1, y, t, d);
    KeysHave(m1, y);
    hide VarKeys, SetIn, VarMin, VarMax, HoldsWords;
    if m2 != m1 {
      assert SameAt(m1, m2, Min(y)) && SameAt(m1, m2, Max(y)) && SameAt(m1, m2, Cell(y));
      assert SameAt(m1, m2, Next(y)) && SameAt(m1, m2, Stamp(y));
    }
    forall l: Loc | !Owns(y, l)
      ensures SameAt(m, m2, l)
    {
      assert SameAt(m, m1, l) && SameAt(m1, m2, l);
    }
  }

  lemma RecordFacts(m: Mem, s: Pass, y: int, u: DomStruct, heap: array<Word>, t: set<int>)
    requires 0 <= y < |s.box| && y < |s.change| && y < |s.time| && VarRep(m, s, y)
    requires !Single(s.box[y]) && t <= s.box[y] && SetIn(u, heap) == t && CutOf(View(m, y), u, heap)
    requires (t == {} ==> VarMin(s.box[y]) == 0 && VarMax(s.box[y]) >= 0) && (u.DomainT? ==> t != {})
    ensures Uncut(m, y, s.box[y]) && CutShape(u, heap, t, s.box[y], InfoAt(m, y)) && s.box[y] <= Universe()
  {
    var x := View(m, y);
    DomFacts(x);
    hide SetIn, VarMin, VarMax, SetOf, VarKeys;
    if !x.interval {
      WordsOfAt(m, y, Num(m, Domain(y)), InfoAt(m, y).lm + 1);
    }
  }

  lemma OneValue(t: set<int>)
    requires t <= Universe() && VarMin(t) == VarMax(t)
    ensures t == {VarMin(t)} && 0 <= VarMin(t) <= 255
  {
    assert IsMin(t, Least(t)) && IsMax(t, Greatest(t));
    var m := Least(t);
    forall v
      ensures v in t <==> v in {m}
    {
    }
    assert t == {m};
  }

  lemma MoreValues(t: set<int>)
    requires t <= Universe() && VarMin(t) != VarMax(t)
    ensures t == {} || (0 <= VarMin(t) < VarMax(t) <= 255 && IsMin(t, VarMin(t)) && IsMax(t, VarMax(t)))
  {
    if t != {} {
      assert IsMin(t, Least(t)) && IsMax(t, Greatest(t));
      assert Least(t) in t && Greatest(t) in t;
    }
  }

  lemma NewRecord(m: Mem, n: Mem, s: Pass, y: int, u: DomStruct, heap: array<Word>, t: set<int>)
    requires 0 <= y < |s.box| && y < |s.change| && y < |s.time| && VarRep(m, s, y)
    requires t <= s.box[y] <= Universe() && CutShape(u, heap, t, s.box[y], InfoAt(m, y))
    requires RecordOf(n, y, u, heap, t, InfoAt(m, y))
    ensures VarRep(n, s.(box := s.box[y := t]), y)
  {
    var info := InfoAt(m, y);
    if VarMin(t) == VarMax(t) {
      NewValue(n, y, u, heap, t, info);
    } else if u.IntervalT? {
      NewInterval(n, y, u, heap, t, s.box[y], info);
    } else {
      NewBlock(n, y, u, heap, t, s.box[y], info);
    }
    hide View, CutShape, ValidFd, DomOf, VarMin, VarMax, VarKeys;
  }

  lemma NewValue(n: Mem, y: int, u: DomStruct, heap: array<Word>, t: set<int>, info: Info)
    requires t <= Universe() && VarMin(t) == VarMax(t) && RecordOf(n, y, u, heap, t, info)
    ensures VarKeys(n, y) && ValidFd(View(n, y)) && DomOf(View(n, y)) == t
  {
    OneValue(t);
    hide VarMin, VarMax, HoldsWords, SetOf, WordsOf;
    assert View(n, y).bound == VarMin(t);
  }

  lemma NewInterval(n: Mem, y: int, u: DomStruct, heap: array<Word>, t: set<int>, d: set<int>, info: Info)
    requires u.IntervalT? && VarMin(t) != VarMax(t) && CutShape(u, heap, t, d, info)
    requires RecordOf(n, y, u, heap, t, info)
    ensures VarKeys(n, y) && ValidFd(View(n, y)) && DomOf(View(n, y)) == t
  {
    IntervalBounds(u.lo, u.hi);
    hide VarMin, VarMax, HoldsWords, SetOf, WordsOf;
  }

  lemma NewBlock(n: Mem, y: int, u: DomStruct, heap: array<Word>, t: set<int>, d: set<int>, info: Info)
    requires u.DomainT? && t <= Universe() && VarMin(t) != VarMax(t) && CutShape(u, heap, t, d, info)
    requires RecordOf(n, y, u, heap, t, info)
    ensures VarKeys(n, y) && ValidFd(View(n, y)) && DomOf(View(n, y)) == t
  {
    var ws := heap[u.d..u.d + u.lm + 1];
    assert SetOf(ws) == t && t != {} && 1 <= |ws| <= 8 by {
      hide VarMin, VarMax, SetOf, RecordOf, HoldsWords;
    }
    NewView(n, y, u, heap, t, info);
    MoreValues(t);
    hide VarMin, VarMax, SetOf, RecordOf, CutShape, VarKeys, View, IsMin, IsMax;
  }

  /** The record shows the words of the block. */
  lemma NewView(n: Mem, y: int, u: DomStruct, heap: array<Word>, t: set<int>, info: Info)
    requires u.DomainT? && 0 <= u.d && 0 <= u.lm && u.d + u.lm + 1 <= heap.Length && VarMin(t) != VarMax(t)
    requires RecordOf(n, y, u, heap, t, info)
    ensures VarKeys(n, y)
    ensures View(n, y) == Fd(NULL, false, VarMin(t), VarMax(t), heap[u.d..u.d + u.lm + 1])
  {
    hide VarMin, VarMax, HoldsWords, WordsOf;
    NewWords(n, y, heap[u.d..u.d + u.lm + 1], u.lm);
  }

  lemma NewWords(n: Mem, y: int, ws: seq<Word>, lm: int)
    requires HoldsWords(n, y, ws) && |ws| == lm + 1 && InfoAt(n, y).lm == lm
    ensures WordsOf(n, y, Num(n, Domain(y)), lm + 1) == ws
    ensures forall i :: 0 <= i <= lm ==> DomainWord(y, Num(n, Domain(y)), i) in n
  {
    WordsOfAt(n, y, Num(n, Domain(y)), lm + 1);
  }

  /** The first words of y's block are ws. */
  ghost predicate HoldsWords(m: Mem, y: int, ws: seq<Word>) {
    var b := Num(m, Domain(y));
    forall i :: 0 <= i < |ws| ==> DomainWord(y, b, i) in m && WordAt(m, DomainWord(y, b, i)) == ws[i]
  }

  lemma OwnWords(m: Mem, y: int, n: int)
    requires VarKeys(m, y) && Boxed(m, y) && n <= InfoAt(m, y).lm + 1
    ensures forall i :: 0 <= i < n ==> DomainWord(y, Num(m, Domain(y)), i) in m
  {
  }

  lemma LastMaskKeeps(m: Mem, y: int, ws: seq<Word>, v: Val)
    requires HoldsWords(m, y, ws)
    ensures HoldsWords(m[InfoOf(y) := v], y, ws)
  {
    var t, b := m[InfoOf(y) := v], Num(m, Domain(y));
    assert Num(t, Domain(y)) == b;
    forall i | 0 <= i < |ws|
      ensures DomainWord(y, b, i) in t && WordAt(t, DomainWord(y, b, i)) == ws[i]
    {
      assert DomainWord(y, b, i) in m && WordAt(m, DomainWord(y, b, i)) == ws[i];
    }
  }

  lemma IntervalBounds(a: int, b: int)
    requires (a == 1 && b == 0) || a <= b
    ensures VarMin(Interval(a, b)) == a && VarMax(Interval(a, b)) == b
  {
    var s := Interval(a, b);
    if a <= b {
      assert a in s;
      BoundsAre(s, a, b);
    } else {
      assert s == {};
    }
  }

  lemma BoundsAre(t: set<int>, lo: int, hi: int)
    requires t != {} && IsMin(t, lo) && IsMax(t, hi)
    ensures VarMin(t) == lo && VarMax(t) == hi
  {
    assert IsMin(t, Least(t)) && IsMax(t, Greatest(t));
  }

  /** The bounds of a part lie between those of the whole; the empty part has
      the bounds 1 and 0. */
  lemma SubsetBounds(d: set<int>, t: set<int>)
    requires t <= d
    ensures t != {} ==> VarMin(d) <= VarMin(t) && VarMax(t) <= VarMax(d)
  {
    if t != {} {
      assert IsMin(t, Least(t)) && IsMax(t, Greatest(t)) && IsMin(d, Least(d)) && IsMax(d, Greatest(d));
    }
  }
}
