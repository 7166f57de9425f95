/** A second condition on two terms and the store under which their unification
    ends. Walk through both terms side by side, in the store as it is, and
    collect the pairs of words met. If every object on the left meets one object
    on the right only, and every unbound variable is met in one pair only, then
    unification ends. Both terms may share and may be cyclic. */
module UnPairs {
  import opened UnStore
  import opened UnUnify
  import opened UnMeaning
  import opened UnLoop
  import opened UnTree

  type Pairs = set<(Word, Word)>

  /** The arguments of two objects of one shape are met as well. */
  ghost predicate KidsMet(g: Layout, s: Store, r: seq<nat>, pairs: Pairs, p: (Word, Word)) {
    p.0 != p.1 && AliasOk(g, p.0, p.1) ==>
      forall i :: 0 <= i < Width(ShapeOf(g, p.0)) ==> KidMet(s, r, pairs, p, i)
  }

  predicate KidMet(s: Store, r: seq<nat>, pairs: Pairs, p: (Word, Word), i: int)
    requires (p.0.Lst? || p.0.Str?) && (p.1.Lst? || p.1.Str?)
  {
    CellsMet(s, r, pairs, Kid(p.0, i), Kid(p.1, i))
  }

  predicate CellsMet(s: Store, r: seq<nat>, pairs: Pairs, c: int, d: int) {
    (Deref(s, r, Ref(c)), Deref(s, r, Ref(d))) in pairs
  }

  /** Whatever is met side by side is in the set. */
  ghost predicate Walked(g: Layout, s: Store, r: seq<nat>, pairs: Pairs) {
    forall p :: p in pairs ==> Final(g, s, p.0) && Final(g, s, p.1) && KidsMet(g, s, r, pairs, p)
  }

  /** A variable is met in both pairs. */
  predicate ShareVar(p: (Word, Word), q: (Word, Word)) {
    (p.0.Ref? && (p.0 == q.0 || p.0 == q.1)) || (p.1.Ref? && (p.1 == q.0 || p.1 == q.1))
  }

  predicate Fit(g: Layout, p: (Word, Word), q: (Word, Word)) {
    p.0 != p.1 && q.0 != q.1 ==>
      && (AliasOk(g, p.0, p.1) && AliasOk(g, q.0, q.1) && p.0 == q.0 ==> p.1 == q.1)
      && (ShareVar(p, q) ==> p == q)
  }

  ghost predicate Matched(g: Layout, pairs: Pairs) {
    forall p, q :: p in pairs && q in pairs ==> Fit(g, p, q)
  }

  ghost predicate Meets(g: Layout, s: Store, r: seq<nat>, x: Word, y: Word, pairs: Pairs) {
    (x, y) in pairs && Walked(g, s, r, pairs) && Matched(g, pairs)
  }

  /** The condition. */
  ghost predicate SideBySide(g: Layout, s: Store, r: seq<nat>, x: Word, y: Word) {
    exists pairs :: Meets(g, s, r, x, y, pairs)
  }

  // ------------------------------------------------ the store of a run

  /** A variable has been bound to what it was met with. */
  ghost predicate PartnerAt(s: Store, w: Store, pairs: Pairs, c: int) {
    exists p :: p in pairs && p.0 != p.1 && IsPartner(w, p, c)
  }

  predicate IsPartner(w: Store, p: (Word, Word), c: int) {
    0 <= c < |w| && ((p.0 == Ref(c) && w[c] == p.1) || (p.1 == Ref(c) && w[c] == p.0))
  }

  predicate Untouched(s: Store, w: Store, c: int) {
    0 <= c < |s| == |w| && !Unbound(s[c]) ==> w[c] == s[c]
  }

  /** Only variables have been bound, each to its partner. */
  ghost predicate Partnered(s: Store, w: Store, pairs: Pairs) {
    && |w| == |s| && (forall c :: 0 <= c < |s| ==> Untouched(s, w, c))
    && (forall c :: Free(s, c) && !Unbound(w[c]) ==> PartnerAt(s, w, pairs, c))
  }

  /** Dereferencing later goes through what dereferencing gave at first. */
  lemma {:induction false} DerefLater(g: Layout, s: Store, r: seq<nat>, w: Store, q: seq<nat>, pairs: Pairs, t: Word)
    requires StoreOk(g, s, r) && StoreOk(g, w, q) && Partnered(s, w, pairs) && Typed(g, t)
    ensures Deref(w, q, t) == Deref(w, q, Deref(s, r, t))
    decreases RankOf(r, t)
  {
    if t.Ref? && !Unbound(s[t.c]) {
      assert Untouched(s, w, t.c);
      DerefStep(g, s, r, t.c);
      DerefStep(g, w, q, t.c);
      DerefLater(g, s, r, w, q, pairs, s[t.c]);
    }
  }

  /** A pair met is still as it was, or has become equal. */
  lemma PairLater(g: Layout, s: Store, r: seq<nat>, w: Store, q: seq<nat>, pairs: Pairs, p: (Word, Word))
    requires StoreOk(g, s, r) && StoreOk(g, w, q) && Partnered(s, w, pairs)
    requires Walked(g, s, r, pairs) && Matched(g, pairs) && p in pairs
    ensures Deref(w, q, p.0) == Deref(w, q, p.1) || (Deref(w, q, p.0) == p.0 && Deref(w, q, p.1) == p.1)
  {
    if p.0 != p.1 {
      SideLater(g, s, w, q, pairs, p, p.0, p.1);
      SideLater(g, s, w, q, pairs, p, p.1, p.0);
    }
  }

  lemma SideLater(g: Layout, s: Store, w: Store, q: seq<nat>, pairs: Pairs, p: (Word, Word), a: Word, b: Word)
    requires StoreOk(g, w, q) && Partnered(s, w, pairs) && Matched(g, pairs) && p in pairs && p.0 != p.1
    requires Final(g, s, a) && ((a == p.0 && b == p.1) || (a == p.1 && b == p.0))
    ensures Deref(w, q, a) == a || Deref(w, q, a) == Deref(w, q, b)
  {
    if a.Ref? && !Unbound(w[a.c]) {
      assert PartnerAt(s, w, pairs, a.c);
      var h :| h in pairs && h.0 != h.1 && IsPartner(w, h, a.c);
      assert Fit(g, p, h) && ShareVar(p, h);
      DerefStep(g, w, q, a.c);
    }
  }

  // ------------------------------------------------ the invariant

  ghost predicate FrameMet(s: Store, r: seq<nat>, pairs: Pairs, f: Frame) {
    forall j :: 0 <= j < f.index ==> RowMet(s, r, pairs, f, j)
  }

  predicate RowMet(s: Store, r: seq<nat>, pairs: Pairs, f: Frame, j: int) {
    CellsMet(s, r, pairs, f.tuple1 - j, f.tuple2 - j)
  }

  ghost predicate StackMet(s: Store, r: seq<nat>, pairs: Pairs, stack: seq<Frame>) {
    forall i :: 0 <= i < |stack| ==> FrameMet(s, r, pairs, stack[i])
  }

  ghost predicate TableMet(pairs: Pairs, table: map<Word, Word>) {
    forall k :: k in table ==> (k, table[k]) in pairs && k != table[k]
  }

  /** What holds before the next pair is taken, and with it. */
  ghost predicate Waiting(g: Layout, s: Store, r: seq<nat>, pairs: Pairs, st: State) {
    Partnered(s, st.s, pairs) && StackMet(s, r, pairs, st.stack) && TableMet(pairs, st.table)
  }

  ghost predicate Run(g: Layout, s: Store, r: seq<nat>, pairs: Pairs, st: State) {
    Waiting(g, s, r, pairs, st) && (st.x == st.y || (st.x, st.y) in pairs)
  }

  /** Two arguments that were to be met are equal by now, or as they were. */
  lemma ArgumentsMet(g: Layout, s: Store, r: seq<nat>, pairs: Pairs, st: State, c: int, d: int)
    requires StoreOk(g, s, r) && StoreOk(g, st.s, st.r) && Partnered(s, st.s, pairs)
    requires Walked(g, s, r, pairs) && Matched(g, pairs)
    requires 0 <= c < g.size && 0 <= d < g.size && CellsMet(s, r, pairs, c, d)
    ensures Argument(st, c) == Argument(st, d) || (Argument(st, c), Argument(st, d)) in pairs
  {
    DerefLater(g, s, r, st.s, st.r, pairs, Ref(c));
    DerefLater(g, s, r, st.s, st.r, pairs, Ref(d));
    hide *;
    CellsMetIs(s, r, pairs, c, d);
    PairLater(g, s, r, st.s, st.r, pairs, (Deref(s, r, Ref(c)), Deref(s, r, Ref(d))));
    ArgumentIs(st, c);
    ArgumentIs(st, d);
  }

  lemma CellsMetIs(s: Store, r: seq<nat>, pairs: Pairs, c: int, d: int)
    ensures CellsMet(s, r, pairs, c, d) <==> (Deref(s, r, Ref(c)), Deref(s, r, Ref(d))) in pairs
  {
  }

  lemma PoppedMet(s: Store, r: seq<nat>, pairs: Pairs, stack: seq<Frame>)
    requires stack != [] && StackMet(s, r, pairs, stack) && Top(stack).index >= 1
    ensures StackMet(s, r, pairs, Popped(stack))
    ensures CellsMet(s, r, pairs, Top(stack).tuple1 - (Top(stack).index - 1),
            Top(stack).tuple2 - (Top(stack).index - 1))
  {
    var f := Top(stack);
    hide CellsMet;
    assert FrameMet(s, r, pairs, f) && RowMet(s, r, pairs, f, f.index - 1);
    var h := f.(index := f.index - 1);
    forall j | 0 <= j < h.index
      ensures RowMet(s, r, pairs, h, j)
    {
      assert RowMet(s, r, pairs, f, j);
    }
  }

  lemma SucceedRun(g: Layout, s: Store, r: seq<nat>, pairs: Pairs, st: State)
    requires StoreOk(g, s, r) && Walked(g, s, r, pairs) && Matched(g, pairs)
    requires Ready(g, st) && Waiting(g, s, r, pairs, st)
    ensures Succeed(st).Running? ==> Run(g, s, r, pairs, Succeed(st).st)
  {
    if st.stack != [] {
      PoppedOk(g, st.stack);
      var f := Top(st.stack);
      var c, d := f.tuple1 - (f.index - 1), f.tuple2 - (f.index - 1);
      PoppedMet(s, r, pairs, st.stack);
      ArgumentsMet(g, s, r, pairs, st, c, d);
      hide StoreOk, Walked, Matched, Partnered, StackMet, TableMet, Deref, StackOk, TableOk, Argument;
    }
  }

  lemma BoundRun(g: Layout, s: Store, r: seq<nat>, pairs: Pairs, st: State, me: int, c: int, t: Word)
    requires Waiting(g, s, r, pairs, st) && |st.r| == |st.s| && Free(st.s, c) && t != Ref(c) && !Unbound(t)
    requires (Ref(c), t) in pairs || (t, Ref(c)) in pairs
    ensures Waiting(g, s, r, pairs, BindTo(st, me, c, t))
  {
    var w := st.s[c := t];
    var p := if (Ref(c), t) in pairs then (Ref(c), t) else (t, Ref(c));
    assert IsPartner(w, p, c);
    hide StackMet, TableMet, Raised;
    forall e | 0 <= e < |s|
      ensures Untouched(s, w, e)
    {
      assert Untouched(s, st.s, e) && Untouched(s, st.s, c);
    }
    forall e | Free(s, e) && !Unbound(w[e])
      ensures PartnerAt(s, w, pairs, e)
    {
      if e != c {
        assert PartnerAt(s, st.s, pairs, e);
        var h :| h in pairs && h.0 != h.1 && IsPartner(st.s, h, e);
        assert IsPartner(w, h, e);
      }
    }
  }

  /** An object with an alias meets its alias. */
  lemma AliasMet(g: Layout, pairs: Pairs, st: State)
    requires TableOk(g, st.table) && TableMet(pairs, st.table) && Matched(g, pairs)
    requires st.x != st.y && AliasOk(g, st.x, st.y) && (st.x, st.y) in pairs && st.x in st.table
    ensures st.table[st.x] == st.y
  {
    assert Fit(g, (st.x, st.y), (st.x, st.table[st.x]));
    assert AliasOk(g, st.x, st.table[st.x]);
  }

  lemma TuplesRun(g: Layout, s: Store, r: seq<nat>, pairs: Pairs, st: State)
    requires StoreOk(g, s, r) && Walked(g, s, r, pairs) && Matched(g, pairs)
    requires Good(g, st) && Run(g, s, r, pairs, st) && AliasOk(g, st.x, st.y) && st.x != st.y
    ensures var o := Tuples(st, Width(ShapeOf(g, st.x)));
            o.Running? && Run(g, s, r, pairs, o.st)
  {
    var n := Width(ShapeOf(g, st.x));
    if st.x in st.table {
      AliasMet(g, pairs, st);
    } else {
      hide *;
      RunIs(g, s, r, pairs, st);
      GoodIs(g, st);
      ObjectsAre(g, st);
      var f := Rows(st.x, st.y, n);
      RowsOk(g, st.x, st.y);
      RowsMet(g, s, r, pairs, st.x, st.y);
      ArgumentsMet(g, s, r, pairs, st, Kid(st.x, 0), Kid(st.y, 0));
      TuplesAre(st, n, f);
      PushedMet(s, r, pairs, st.stack, f);
      EnteredMet(pairs, st.table, st.x, st.y);
      MakeRun(g, s, r, pairs, Tuples(st, n).st);
    }
  }

  lemma RunIs(g: Layout, s: Store, r: seq<nat>, pairs: Pairs, st: State)
    requires Run(g, s, r, pairs, st)
    ensures Partnered(s, st.s, pairs) && StackMet(s, r, pairs, st.stack) && TableMet(pairs, st.table)
    ensures st.x == st.y || (st.x, st.y) in pairs
  {
  }

  lemma MakeRun(g: Layout, s: Store, r: seq<nat>, pairs: Pairs, st: State)
    requires Partnered(s, st.s, pairs) && StackMet(s, r, pairs, st.stack) && TableMet(pairs, st.table)
    requires st.x == st.y || (st.x, st.y) in pairs
    ensures Run(g, s, r, pairs, st)
  {
  }

  lemma ObjectsAre(g: Layout, st: State)
    requires AliasOk(g, st.x, st.y)
    ensures (st.x.Lst? || st.x.Str?) && (st.y.Lst? || st.y.Str?) && IsObj(g, st.x) && IsObj(g, st.y)
  {
  }

  lemma PushedMet(s: Store, r: seq<nat>, pairs: Pairs, stack: seq<Frame>, f: Frame)
    requires StackMet(s, r, pairs, stack) && FrameMet(s, r, pairs, f)
    ensures StackMet(s, r, pairs, Pushed(stack, f))
  {
    hide FrameMet;
  }

  lemma EnteredMet(pairs: Pairs, table: map<Word, Word>, x: Word, y: Word)
    requires TableMet(pairs, table) && (x, y) in pairs && x != y
    ensures TableMet(pairs, table[x := y])
  {
  }

  /** The arguments pushed are to be met. */
  lemma RowsMet(g: Layout, s: Store, r: seq<nat>, pairs: Pairs, x: Word, y: Word)
    requires Walked(g, s, r, pairs) && (x, y) in pairs && x != y && AliasOk(g, x, y) && LayoutOk(g)
    ensures Width(ShapeOf(g, x)) >= 1 && CellsMet(s, r, pairs, Kid(x, 0), Kid(y, 0))
    ensures FrameMet(s, r, pairs, Rows(x, y, Width(ShapeOf(g, x))))
  {
    var n := Width(ShapeOf(g, x));
    var p, f := (x, y), Rows(x, y, n);
    assert ObjOk(g, x) && KidsMet(g, s, r, pairs, p);
    hide CellsMet, Walked;
    assert KidMet(s, r, pairs, p, 0);
    forall j | 0 <= j < f.index
      ensures RowMet(s, r, pairs, f, j)
    {
      var i := n - 1 - j;
      assert KidMet(s, r, pairs, p, i);
      assert f.tuple1 - j == Kid(x, i) && f.tuple2 - j == Kid(y, i);
    }
  }

  /** One round keeps the invariant. */
  lemma StepRun(g: Layout, s: Store, r: seq<nat>, pairs: Pairs, me: int, st: State)
    requires StoreOk(g, s, r) && Walked(g, s, r, pairs) && Matched(g, pairs)
    requires Good(g, st) && Run(g, s, r, pairs, st)
    ensures Step(g, me, st).Running? ==> Run(g, s, r, pairs, Step(g, me, st).st)
  {
    hide Walked, Matched, LayoutOk, Deref, Raised, Waiting;
    if st.x == st.y {
      SucceedRun(g, s, r, pairs, st);
    } else if st.y.Ref? && !(st.x.Ref? && BindsFirst(st.s, me, st.x.c, st.y.c)) {
      BoundRun(g, s, r, pairs, st, me, st.y.c, st.x);
      BindToOk(g, st, me, st.y.c, st.x);
      SucceedRun(g, s, r, pairs, BindTo(st, me, st.y.c, st.x));
    } else if st.x.Ref? {
      BoundRun(g, s, r, pairs, st, me, st.x.c, st.y);
      BindToOk(g, st, me, st.x.c, st.y);
      SucceedRun(g, s, r, pairs, BindTo(st, me, st.x.c, st.y));
    } else if IsObj(g, st.x) && IsObj(g, st.y) && ShapeOf(g, st.x) == ShapeOf(g, st.y) {
      TuplesRun(g, s, r, pairs, st);
    }
  }

  lemma RunNoCircle(g: Layout, s: Store, r: seq<nat>, pairs: Pairs, st: State)
    requires Good(g, st) && Matched(g, pairs) && Run(g, s, r, pairs, st)
    ensures !Circles(g, st)
  {
    if AliasOk(g, st.x, st.y) {
      if st.x != st.y && st.x in st.table {
        AliasMet(g, pairs, st);
        assert Chase(st.table, st.x, 1) == st.y;
        assert !GoesOn(st, 1);
      } else {
        assert Chase(st.table, st.x, 0) == st.x;
        assert !GoesOn(st, 0);
      }
    }
  }

  lemma {:induction false} NeverCircles(g: Layout, s: Store, r: seq<nat>, pairs: Pairs, me: int, st: State, n: nat)
    requires StoreOk(g, s, r) && Walked(g, s, r, pairs) && Matched(g, pairs)
    requires Good(g, st) && Run(g, s, r, pairs, st)
    ensures !CirclesAfter(g, me, st, n)
    decreases n
  {
    hide *;
    IterateOne(g, me, st, n);
    IterateOne(g, me, st, 0);
    CirclesAfterIs(g, me, st, n);
    if n == 0 {
      RunNoCircle(g, s, r, pairs, st);
    } else if Step(g, me, st).Running? {
      StepRun(g, s, r, pairs, me, st);
      var w := Step(g, me, st).st;
      NeverCircles(g, s, r, pairs, me, w, n - 1);
      CirclesAfterIs(g, me, w, n - 1);
    }
  }

  /** Unification ends whenever what is met side by side is matched. */
  lemma PairsEnd(g: Layout, me: int, s: Store, r: seq<nat>, trail: seq<Entry>, x: Word, y: Word)
    requires StoreOk(g, s, r) && Final(g, s, x) && Final(g, s, y) && SideBySide(g, s, r, x, y)
    ensures exists rounds: nat :: !Iterate(g, me, Running(Start(s, r, trail, x, y)), rounds).Running?
  {
    var st := Start(s, r, trail, x, y);
    var pairs :| Meets(g, s, r, x, y, pairs);
    assert Run(g, s, r, pairs, st);
    hide Run, StoreOk, Circles, CirclesAfter, Walked, Matched;
    forall n: nat
      ensures !CirclesAfter(g, me, st, n)
    {
      NeverCircles(g, s, r, pairs, me, st, n);
    }
    EndsIff(g, me, st);
  }

  // ------------------------------------------------ what the condition covers

  /** A term with itself always, however it shares. */
  lemma SelfMeets(g: Layout, s: Store, r: seq<nat>, x: Word)
    requires StoreOk(g, s, r) && Final(g, s, x)
    ensures SideBySide(g, s, r, x, x)
  {
    assert Meets(g, s, r, x, x, {(x, x)});
  }

  /** The pair for which unification never ends does not fulfil it: the third
      term meets two others. */
  lemma LoopUnmatched()
    ensures !SideBySide(LoopLayout(), LoopStore(), LoopRanks(), Str(6), Str(10))
  {
    LoopForever();
    LoopOk();
    var g, s, r := LoopLayout(), LoopStore(), LoopRanks();
    hide *;
    if SideBySide(g, s, r, Str(6), Str(10)) {
      LoopFinal();
      PairsEnd(g, 0, s, r, [], Str(6), Str(10));
      EndsIff(g, 0, Start(s, r, [], Str(6), Str(10)));
    }
  }

  lemma LoopFinal()
    ensures Final(LoopLayout(), LoopStore(), Str(6)) && Final(LoopLayout(), LoopStore(), Str(10))
  {
  }

  /** Two lists that are their own rests: L = [1|L] and M = [1|M]. */
  function RingLayout(): Layout {
    Layout(4, {0, 2}, map[])
  }

  function RingStore(): Store {
    [Imm(1), Lst(0), Imm(1), Lst(2)]
  }

  /** They fulfil the condition, though the first is no finite tree. */
  lemma RingsMeet()
    ensures SideBySide(RingLayout(), RingStore(), [0, 0, 0, 0], Lst(0), Lst(2))
    ensures !TreeApart(RingLayout(), RingStore(), Lst(0), Lst(2))
  {
    var g, s, pairs := RingLayout(), RingStore(), {(Lst(0), Lst(2)), (Imm(1), Imm(1))};
    RingsWalked(pairs);
    forall p, q | p in pairs && q in pairs
      ensures Fit(g, p, q)
    {
    }
    assert Meets(g, s, [0, 0, 0, 0], Lst(0), Lst(2), pairs);
    hide Spells, Once, Closed, Unseen;
    forall t, reach
      ensures !Apart(g, s, Lst(0), Lst(2), t, reach)
    {
      NoTree(t);
    }
  }

  lemma RingsWalked(pairs: Pairs)
    requires pairs == {(Lst(0), Lst(2)), (Imm(1), Imm(1))}
    ensures Walked(RingLayout(), RingStore(), [0, 0, 0, 0], pairs)
  {
    var g, s, r, p := RingLayout(), RingStore(), [0, 0, 0, 0], (Lst(0), Lst(2));
    forall i | 0 <= i < 2
      ensures KidMet(s, r, pairs, p, i)
    {
      assert i == 0 || i == 1;
    }
    assert KidsMet(g, s, r, pairs, p);
  }

  lemma {:induction false} NoTree(t: Spelling)
    ensures t.word == Lst(0) ==> !Spells(RingLayout(), RingStore(), t)
    decreases t
  {
    if t.word == Lst(0) && |t.kids| == 2 && t.kids[1].word == Ref(1) && |t.kids[1].kids| == 1
      && t.kids[1].kids[0].word == Lst(0) {
      NoTree(t.kids[1].kids[0]);
    }
  }
}
