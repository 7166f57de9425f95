/** What a run of the unifier means: when it succeeds the new store has exactly
    the solutions of the old one that make the two terms equal, and when it
    fails there are none. */
module UnMeaning {
  import opened UnStore
  import opened UnUnify

  /** The outcome after at most n rounds. */
  ghost function Iterate(g: Layout, me: int, o: Outcome, n: nat): Outcome
    requires GoodOutcome(g, o)
    decreases n
  {
    if n == 0 || !o.Running? then o
    else
      StepGood(g, me, o.st);
      Iterate(g, me, Step(g, me, o.st), n - 1)
  }

  /** The outcome of at most n rounds from a state. */
  ghost function RunFor(g: Layout, me: int, st: State, n: nat): Outcome
    requires Good(g, st)
  {
    Iterate(g, me, Running(st), n)
  }

  // ------------------------------------------------ equations of a state

  ghost predicate RowsAt(v: Val, f: Frame, d: int) {
    forall j :: 0 <= j < f.index ==> RowAt(v, f, j, d)
  }

  predicate RowAt(v: Val, f: Frame, j: int, d: int) {
    At(v, f.tuple1 - j, d) == At(v, f.tuple2 - j, d)
  }

  ghost predicate StackAt(v: Val, stack: seq<Frame>, d: int) {
    forall i :: 0 <= i < |stack| ==> RowsAt(v, stack[i], d)
  }

  ghost predicate TableAt(g: Layout, v: Val, table: map<Word, Word>, d: int) {
    forall k :: k in table ==> SameAt(g, v, k, table[k], d)
  }

  /** Everything the state still claims to be equal is, down to depth d. */
  ghost predicate ClaimsAt(g: Layout, v: Val, st: State, d: int) {
    SameAt(g, v, st.x, st.y, d) && StackAt(v, st.stack, d) && TableAt(g, v, st.table, d)
  }

  ghost predicate Claims(g: Layout, v: Val, st: State) {
    Solves(g, v, st.s) && forall d :: ClaimsAt(g, v, st, d)
  }

  // ------------------------------------------------ no solution is lost

  lemma BindSolves(g: Layout, v: Val, st: State, me: int, c: int, t: Word)
    requires Free(st.s, c) && |st.r| == |st.s| && !Unbound(t)
    ensures Solves(g, v, BindTo(st, me, c, t).s) <==> Solves(g, v, st.s) && Same(g, v, Ref(c), t)
  {
    var w := BindTo(st, me, c, t).s;
    if Solves(g, v, w) {
      forall d
        ensures SameAt(g, v, Ref(c), t, d)
      {
        assert At(v, c, d) == TreeOf(g, v, w[c], d);
      }
      forall e, d | 0 <= e < |st.s| && !Unbound(st.s[e])
        ensures At(v, e, d) == TreeOf(g, v, st.s[e], d)
      {
        assert w[e] == st.s[e];
      }
    }
    if Solves(g, v, st.s) && Same(g, v, Ref(c), t) {
      forall e, d | 0 <= e < |w| && !Unbound(w[e])
        ensures At(v, e, d) == TreeOf(g, v, w[e], d)
      {
        if e == c {
          assert SameAt(g, v, Ref(c), t, d);
        }
      }
    }
  }

  /** The claims of a stack are those of its top row and of the rest. */
  lemma PoppedAt(v: Val, stack: seq<Frame>, d: int)
    requires stack != [] && Top(stack).index >= 1
    ensures StackAt(v, stack, d) <==> StackAt(v, Popped(stack), d) && RowAt(v, Top(stack), Top(stack).index - 1, d)
  {
    var f, w := Top(stack), Popped(stack);
    var h := f.(index := f.index - 1);
    assert RowsAt(v, f, d) <==> RowsAt(v, h, d) && RowAt(v, f, h.index, d) by {
      forall j
        ensures RowAt(v, f, j, d) == RowAt(v, h, j, d)
      {
      }
    }
    hide RowsAt;
    if StackAt(v, stack, d) {
      assert RowsAt(v, stack[|stack| - 1], d);
    }
    if StackAt(v, w, d) && RowAt(v, f, h.index, d) {
      forall i | 0 <= i < |stack|
        ensures RowsAt(v, stack[i], d)
      {
        if i < |stack| - 1 {
          assert RowsAt(v, w[i], d);
        } else if f.index > 1 {
          assert RowsAt(v, w[i], d);
        } else {
          NoRows(v, h, d);
        }
      }
    }
  }

  lemma NoRows(v: Val, f: Frame, d: int)
    requires f.index <= 0
    ensures RowsAt(v, f, d)
  {
  }

  lemma PushedAt(v: Val, stack: seq<Frame>, f: Frame, d: int)
    ensures StackAt(v, Pushed(stack, f), d) <==> StackAt(v, stack, d) && RowsAt(v, f, d)
  {
    NoRowsIf(v, f, d);
    hide RowsAt;
    var w := Pushed(stack, f);
    if StackAt(v, w, d) {
      assert f.index > 0 ==> RowsAt(v, w[|stack|], d);
      assert forall i :: 0 <= i < |stack| ==> RowsAt(v, w[i], d) && w[i] == stack[i];
    }
  }

  lemma NoRowsIf(v: Val, f: Frame, d: int)
    ensures f.index <= 0 ==> RowsAt(v, f, d)
  {
  }

  lemma EnteredAt(g: Layout, v: Val, table: map<Word, Word>, x: Word, y: Word, d: int)
    requires x !in table
    ensures TableAt(g, v, table[x := y], d) <==> TableAt(g, v, table, d) && SameAt(g, v, x, y, d)
  {
    hide SameAt;
    var w := table[x := y];
    if TableAt(g, v, w, d) {
      assert SameAt(g, v, x, w[x], d);
      assert forall k :: k in table ==> SameAt(g, v, k, w[k], d) && w[k] == table[k];
    }
  }

  /** All arguments of x and y agree at depth d. */
  ghost predicate KidsAt(v: Val, x: Word, y: Word, n: int, d: int)
    requires (x.Lst? || x.Str?) && (y.Lst? || y.Str?)
  {
    forall j :: 0 <= j < n ==> SameKidAt(v, x, y, j, d)
  }

  /** The first arguments and the rows of the rest make up all arguments. */
  lemma RowsKids(v: Val, x: Word, y: Word, n: int, d: int)
    requires (x.Lst? || x.Str?) && (y.Lst? || y.Str?) && n >= 1
    ensures KidsAt(v, x, y, n, d) <==> SameKidAt(v, x, y, 0, d) && RowsAt(v, Rows(x, y, n), d)
  {
    var f := Rows(x, y, n);
    if KidsAt(v, x, y, n, d) {
      forall j | 0 <= j < f.index
        ensures RowAt(v, f, j, d)
      {
        assert SameKidAt(v, x, y, f.index - j, d);
      }
    }
    if SameKidAt(v, x, y, 0, d) && RowsAt(v, f, d) {
      forall j | 0 <= j < n
        ensures SameKidAt(v, x, y, j, d)
      {
        if j > 0 {
          assert RowAt(v, f, f.index - j, d);
        }
      }
    }
  }

  /** Arguments taken for unification are equal when the cells are. */
  lemma ArgumentsAt(g: Layout, v: Val, st: State, a: int, b: int, d: int)
    requires StoreOk(g, st.s, st.r) && Solves(g, v, st.s) && 0 <= a < g.size && 0 <= b < g.size
    ensures SameAt(g, v, Argument(st, a), Argument(st, b), d) <==> At(v, a, d) == At(v, b, d)
  {
    DerefSame(g, v, st.s, st.r, Ref(a));
    DerefSame(g, v, st.s, st.r, Ref(b));
    hide Deref, StoreOk, Solves;
    assert SameAt(g, v, Argument(st, a), Ref(a), d) && SameAt(g, v, Argument(st, b), Ref(b), d);
  }

  /** What is claimed after the next pair has been taken is what the stack and
      the table claimed. */
  lemma SucceedAt(g: Layout, v: Val, st: State, d: int)
    requires Ready(g, st) && Solves(g, v, st.s) && st.stack != []
    ensures Succeed(st).Running?
    ensures ClaimsAt(g, v, Succeed(st).st, d) <==> StackAt(v, st.stack, d) && TableAt(g, v, st.table, d)
  {
    var f := Top(st.stack);
    PoppedOk(g, st.stack);
    ArgumentsAt(g, v, st, f.tuple1 - (f.index - 1), f.tuple2 - (f.index - 1), d);
    PoppedAt(v, st.stack, d);
    hide StackAt, TableAt, Argument, Popped, StoreOk, Solves, SameAt;
  }

  lemma SucceedClaims(g: Layout, v: Val, st: State)
    requires Ready(g, st) && Solves(g, v, st.s) && forall d :: StackAt(v, st.stack, d) && TableAt(g, v, st.table, d)
    ensures Succeed(st).Running? ==> Claims(g, v, Succeed(st).st)
    ensures Succeed(st).Unified? ==> Solves(g, v, Succeed(st).st.s)
  {
    hide StackAt, TableAt, Ready, Solves, ClaimsAt;
    if st.stack != [] {
      forall d
        ensures ClaimsAt(g, v, Succeed(st).st, d)
      {
        SucceedAt(g, v, st, d);
      }
    }
  }

  /** What is claimed after two objects have been taken apart is what was
      claimed and that their arguments agree. */
  lemma TuplesAt(g: Layout, v: Val, st: State, d: int)
    requires Good(g, st) && AliasOk(g, st.x, st.y) && Solves(g, v, st.s)
    ensures var w := Tuples(st, Width(ShapeOf(g, st.x))); w.Running? && w.st.s == st.s
    ensures var w := Tuples(st, Width(ShapeOf(g, st.x))).st;
            ClaimsAt(g, v, w, d) <==>
              ClaimsAt(g, v, st, d) && (st.x !in st.table ==> KidsAt(v, st.x, st.y, Width(ShapeOf(g, st.x)), d))
  {
    var n := Width(ShapeOf(g, st.x));
    if st.x in st.table {
      AliasAt(g, v, st, d);
    } else {
      NewTuplesAt(g, v, st, n, d);
    }
  }

  lemma NewTuplesAt(g: Layout, v: Val, st: State, n: int, d: int)
    requires Good(g, st) && AliasOk(g, st.x, st.y) && Solves(g, v, st.s) && n == Width(ShapeOf(g, st.x))
             && st.x !in st.table
    ensures Tuples(st, n).Running?
    ensures ClaimsAt(g, v, Tuples(st, n).st, d) <==> ClaimsAt(g, v, st, d) && KidsAt(v, st.x, st.y, n, d)
  {
    hide *;
    GoodIs(g, st);
    var f := Rows(st.x, st.y, n);
    RowsOk(g, st.x, st.y);
    RowsKids(v, st.x, st.y, n, d);
    PushedAt(v, st.stack, f, d);
    EnteredAt(g, v, st.table, st.x, st.y, d);
    ArgumentsAt(g, v, st, f.tuple1 - f.index, f.tuple2 - f.index, d);
    KidIs(v, st.x, st.y, d);
    TuplesIs(g, v, st, n, d);
    ClaimsIs(g, v, st, d);
    ClaimsIs(g, v, Tuples(st, n).st, d);
  }

  lemma GoodIs(g: Layout, st: State)
    requires Good(g, st)
    ensures StoreOk(g, st.s, st.r) && LayoutOk(g)
    ensures AliasOk(g, st.x, st.y) ==>
            (st.x.Lst? || st.x.Str?) && (st.y.Lst? || st.y.Str?) && Width(ShapeOf(g, st.x)) >= 1
  {
    assert ObjOk(g, st.x);
  }

  lemma ClaimsIs(g: Layout, v: Val, st: State, d: int)
    ensures ClaimsAt(g, v, st, d) <==>
            SameAt(g, v, st.x, st.y, d) && StackAt(v, st.stack, d) && TableAt(g, v, st.table, d)
  {
  }

  lemma TuplesIs(g: Layout, v: Val, st: State, n: int, d: int)
    requires (st.x.Lst? || st.x.Str?) && (st.y.Lst? || st.y.Str?) && st.x !in st.table
    ensures Tuples(st, n).Running?
    ensures var w, f := Tuples(st, n).st, Rows(st.x, st.y, n);
            && w.table == st.table[st.x := st.y] && w.stack == Pushed(st.stack, f) && w.s == st.s
            && w.x == Argument(st, f.tuple1 - f.index) && w.y == Argument(st, f.tuple2 - f.index)
  {
  }

  lemma KidIs(v: Val, x: Word, y: Word, d: int)
    requires (x.Lst? || x.Str?) && (y.Lst? || y.Str?)
    ensures SameKidAt(v, x, y, 0, d) <==> At(v, Kid(x, 0), d) == At(v, Kid(y, 0), d)
  {
  }

  lemma AliasAt(g: Layout, v: Val, st: State, d: int)
    requires st.x in st.table
    ensures ClaimsAt(g, v, st.(x := st.table[st.x]), d) <==> ClaimsAt(g, v, st, d)
  {
    assert TableAt(g, v, st.table, d) ==> SameAt(g, v, st.x, st.table[st.x], d);
  }

  lemma TuplesClaims(g: Layout, v: Val, st: State)
    requires Good(g, st) && AliasOk(g, st.x, st.y) && Claims(g, v, st)
    ensures Tuples(st, Width(ShapeOf(g, st.x))).Running? && Claims(g, v, Tuples(st, Width(ShapeOf(g, st.x))).st)
  {
    var w := Tuples(st, Width(ShapeOf(g, st.x))).st;
    ClaimsSame(g, v, st);
    hide Good, ClaimsAt, Solves;
    forall d
      ensures ClaimsAt(g, v, w, d)
    {
      TuplesAt(g, v, st, d);
      KidsFollow(g, v, st.x, st.y, d);
    }
    TuplesAt(g, v, st, 0);
  }

  lemma ClaimsSame(g: Layout, v: Val, st: State)
    requires Claims(g, v, st)
    ensures Same(g, v, st.x, st.y)
  {
    forall d
      ensures SameAt(g, v, st.x, st.y, d)
    {
      assert ClaimsAt(g, v, st, d);
    }
  }

  lemma KidsFollow(g: Layout, v: Val, x: Word, y: Word, d: int)
    requires LayoutOk(g) && AliasOk(g, x, y) && Same(g, v, x, y)
    ensures KidsAt(v, x, y, Width(ShapeOf(g, x)), d)
  {
    forall j | 0 <= j < Width(ShapeOf(g, x))
      ensures SameKidAt(v, x, y, j, d)
    {
      SameKids(g, v, x, y, j);
      assert SameAt(g, v, Ref(Kid(x, j)), Ref(Kid(y, j)), d);
    }
  }

  /** A solution of the store that meets all claims is kept by a step; in
      particular the step is no failure. */
  lemma StepClaims(g: Layout, v: Val, me: int, st: State)
    requires Good(g, st) && Claims(g, v, st)
    ensures !Step(g, me, st).Clash?
    ensures Step(g, me, st).Running? ==> Claims(g, v, Step(g, me, st).st)
    ensures Step(g, me, st).Unified? ==> Solves(g, v, Step(g, me, st).st.s)
  {
    forall d
      ensures SameAt(g, v, st.x, st.y, d) && StackAt(v, st.stack, d) && TableAt(g, v, st.table, d)
    {
      assert ClaimsAt(g, v, st, d);
    }
    if st.x == st.y {
      SucceedClaims(g, v, st);
    } else if st.x.Ref? || st.y.Ref? {
      var second := st.y.Ref? && !(st.x.Ref? && BindsFirst(st.s, me, st.x.c, st.y.c));
      var c, t := if second then st.y.c else st.x.c, if second then st.x else st.y;
      BindToOk(g, st, me, c, t);
      SameSwap(g, v, st.x, st.y);
      BindSolves(g, v, st, me, c, t);
      SucceedClaims(g, v, BindTo(st, me, c, t));
    } else {
      ObjectsMatch(g, v, st.x, st.y);
      TuplesClaims(g, v, st);
    }
  }

  lemma SameSwap(g: Layout, v: Val, x: Word, y: Word)
    requires Same(g, v, x, y)
    ensures Same(g, v, y, x)
  {
    forall d
      ensures SameAt(g, v, y, x, d)
    {
      assert SameAt(g, v, x, y, d);
    }
  }

  /** Different words with the same tree, neither a variable, are objects of
      one shape. */
  lemma ObjectsMatch(g: Layout, v: Val, x: Word, y: Word)
    requires LayoutOk(g) && Typed(g, x) && Typed(g, y) && !x.Ref? && !y.Ref? && x != y && Same(g, v, x, y)
    ensures IsObj(g, x) && IsObj(g, y) && ShapeOf(g, x) == ShapeOf(g, y)
  {
    assert SameAt(g, v, x, y, 1);
  }

  lemma {:induction false} RunClaims(g: Layout, v: Val, me: int, st: State, n: nat)
    requires Good(g, st) && Claims(g, v, st)
    ensures var o := Iterate(g, me, Running(st), n);
            !o.Clash? && (o.Unified? ==> Solves(g, v, o.st.s))
    decreases n
  {
    if n > 0 {
      StepGood(g, me, st);
      StepClaims(g, v, me, st);
      var o := Step(g, me, st);
      if o.Running? {
        RunClaims(g, v, me, o.st, n - 1);
      }
    }
  }

  // ------------------------------------------------ every solution solves the equation

  /** At depth d the arguments of every aliased object agree with those of its
      alias as soon as the claims do. */
  ghost predicate CoveredAt(g: Layout, v: Val, st: State, d: int) {
    ClaimsAt(g, v, st, d) ==> AliasKidsAt(g, v, st.table, d)
  }

  ghost predicate AliasKidsAt(g: Layout, v: Val, table: map<Word, Word>, d: int) {
    forall k :: k in table && IsObj(g, k) && IsObj(g, table[k]) ==> KidsAt(v, k, table[k], Width(ShapeOf(g, k)), d)
  }

  predicate SameKidAt(v: Val, k: Word, w: Word, j: int, d: int)
    requires (k.Lst? || k.Str?) && (w.Lst? || w.Str?)
  {
    At(v, Kid(k, j), d) == At(v, Kid(w, j), d)
  }

  ghost predicate Covered(g: Layout, v: Val, st: State) {
    forall d :: CoveredAt(g, v, st, d)
  }

  /** What the state after a step claims, the state before it claimed: read
      backwards, a solution that meets the later claims meets the earlier. */
  lemma StepBack(g: Layout, v: Val, me: int, st: State, d: int)
    requires Good(g, st)
    requires var o := Step(g, me, st);
             && (o.Running? ==> Solves(g, v, o.st.s) && ClaimsAt(g, v, o.st, d))
             && (o.Unified? ==> Solves(g, v, o.st.s) && TableAt(g, v, o.st.table, d))
             && !o.Clash?
    ensures Solves(g, v, st.s) && ClaimsAt(g, v, st, d)
    ensures Step(g, me, st).Unified? ==> Step(g, me, st).st.table == st.table
  {
    hide StackAt, TableAt, Solves, IsObj, Argument, Popped, LayoutOk;
    if st.x == st.y {
      if st.stack != [] {
        SucceedAt(g, v, st, d);
      } else {
        NoFrames(v, d);
      }
    } else if st.x.Ref? || st.y.Ref? {
      var second := st.y.Ref? && !(st.x.Ref? && BindsFirst(st.s, me, st.x.c, st.y.c));
      var c, t := if second then st.y.c else st.x.c, if second then st.x else st.y;
      BindToOk(g, st, me, c, t);
      BindSolves(g, v, st, me, c, t);
      var b := BindTo(st, me, c, t);
      if st.stack != [] {
        SucceedAt(g, v, b, d);
      } else {
        NoFrames(v, d);
      }
      assert SameAt(g, v, Ref(c), t, d);
    } else {
      TuplesAt(g, v, st, d);
    }
  }

  lemma NoFrames(v: Val, d: int)
    ensures StackAt(v, [], d)
  {
  }

  lemma StepCovered(g: Layout, v: Val, me: int, st: State)
    requires Good(g, st) && Covered(g, v, st) && Step(g, me, st).Running? && Solves(g, v, Step(g, me, st).st.s)
    ensures Covered(g, v, Step(g, me, st).st)
  {
    var w := Step(g, me, st).st;
    forall d
      ensures CoveredAt(g, v, w, d)
    {
      if ClaimsAt(g, v, w, d) {
        StepBack(g, v, me, st, d);
        assert CoveredAt(g, v, st, d);
        if w.table != st.table {
          TuplesAt(g, v, st, d);
          EnteredCovered(g, v, st, w, d);
        }
      }
    }
  }

  lemma EnteredCovered(g: Layout, v: Val, st: State, w: State, d: int)
    requires AliasKidsAt(g, v, st.table, d) && AliasOk(g, st.x, st.y) && w.table == st.table[st.x := st.y]
    requires KidsAt(v, st.x, st.y, Width(ShapeOf(g, st.x)), d)
    ensures AliasKidsAt(g, v, w.table, d)
  {
  }

  /** When nothing is pending, agreement of the arguments at every depth makes
      every object agree with its alias at every depth. */
  lemma {:induction false} AliasesAgree(g: Layout, v: Val, st: State, d: int)
    requires Good(g, st) && forall e :: TableAt(g, v, st.table, e) ==> AliasKidsAt(g, v, st.table, e)
    ensures TableAt(g, v, st.table, d)
    decreases if d > 0 then d else 0
  {
    if d > 0 {
      AliasesAgree(g, v, st, d - 1);
      forall k | k in st.table
        ensures SameAt(g, v, k, st.table[k], d)
      {
        AliasUp(g, v, st.table, k, d);
      }
    } else {
      forall k | k in st.table
        ensures SameAt(g, v, k, st.table[k], d)
      {
        assert AliasOk(g, k, st.table[k]);
      }
    }
  }

  lemma AliasUp(g: Layout, v: Val, table: map<Word, Word>, k: Word, d: int)
    requires d > 0 && k in table && AliasOk(g, k, table[k]) && AliasKidsAt(g, v, table, d - 1)
    ensures SameAt(g, v, k, table[k], d)
  {
    KidsEqual(v, k, table[k], Width(ShapeOf(g, k)), d - 1);
  }

  lemma {:induction false} KidsEqual(v: Val, x: Word, y: Word, n: int, d: int)
    requires (x.Lst? || x.Str?) && (y.Lst? || y.Str?) && forall j :: 0 <= j < n ==> SameKidAt(v, x, y, j, d)
    ensures Kids(v, x, n, d) == Kids(v, y, n, d)
    decreases n
  {
    if n > 0 {
      KidsEqual(v, x, y, n - 1, d);
      assert SameKidAt(v, x, y, n - 1, d);
    }
  }

  lemma IterateOne(g: Layout, me: int, st: State, n: nat)
    requires Good(g, st)
    ensures Iterate(g, me, Running(st), 0) == Running(st)
    ensures GoodOutcome(g, Step(g, me, st))
    ensures n > 0 ==> Iterate(g, me, Running(st), n) == Iterate(g, me, Step(g, me, st), n - 1)
    ensures !Step(g, me, st).Running? && n > 0 ==> Iterate(g, me, Running(st), n) == Step(g, me, st)
    ensures Step(g, me, st).Running? ==> Good(g, Step(g, me, st).st)
  {
    StepGood(g, me, st);
  }

  lemma {:induction false} RunBack(g: Layout, v: Val, me: int, st: State, n: nat)
    requires Good(g, st) && (Solves(g, v, st.s) ==> Covered(g, v, st))
    requires var o := Iterate(g, me, Running(st), n); o.Unified? && Solves(g, v, o.st.s)
    ensures Solves(g, v, st.s) && forall d :: ClaimsAt(g, v, st, d)
    decreases n
  {
    hide *;
    IterateOne(g, me, st, n);
    if n == 0 {
      return;
    }
    var o := Step(g, me, st);
    if o.Running? {
      StepSolves(g, v, me, st);
      if Solves(g, v, o.st.s) {
        StepCovered(g, v, me, st);
      }
      RunBack(g, v, me, o.st, n - 1);
      forall d
        ensures ClaimsAt(g, v, st, d)
      {
        StepBack(g, v, me, st, d);
      }
    } else {
      StepSolves(g, v, me, st);
      LastClaims(g, v, me, st);
    }
  }

  /** A step only adds bindings. */
  lemma StepSolves(g: Layout, v: Val, me: int, st: State)
    requires Good(g, st)
    ensures !Step(g, me, st).Clash? && Solves(g, v, Step(g, me, st).st.s) ==> Solves(g, v, st.s)
  {
    if st.x != st.y && (st.x.Ref? || st.y.Ref?) {
      var second := st.y.Ref? && !(st.x.Ref? && BindsFirst(st.s, me, st.x.c, st.y.c));
      var c, t := if second then st.y.c else st.x.c, if second then st.x else st.y;
      BindSolves(g, v, st, me, c, t);
    }
  }

  lemma LastClaims(g: Layout, v: Val, me: int, st: State)
    requires Good(g, st) && Covered(g, v, st) && Step(g, me, st).Unified? && Solves(g, v, Step(g, me, st).st.s)
    ensures forall d :: ClaimsAt(g, v, st, d)
  {
    var t := Step(g, me, st).st;
    UnifiedTable(g, me, st);
    forall e
      ensures TableAt(g, v, st.table, e) ==> AliasKidsAt(g, v, st.table, e)
    {
      if TableAt(g, v, st.table, e) {
        StepBack(g, v, me, st, e);
        assert CoveredAt(g, v, st, e);
      }
    }
    forall d
      ensures ClaimsAt(g, v, st, d)
    {
      AliasesAgree(g, v, st, d);
      StepBack(g, v, me, st, d);
    }
  }

  lemma UnifiedTable(g: Layout, me: int, st: State)
    requires Good(g, st) && Step(g, me, st).Unified?
    ensures Step(g, me, st).st.table == st.table
  {
  }

  // ------------------------------------------------ the meaning of unification

  /** Where unification of x and y starts. */
  ghost function Start(s: Store, r: seq<nat>, trail: seq<Entry>, x: Word, y: Word): State {
    State(s, r, trail, x, y, map[], [])
  }

  /** Unification of dereferenced terms, cyclic ones included: on success the
      solutions of the new store are the solutions of the old one that make the
      two terms equal; on failure there are no such solutions. */
  lemma UnifyMeaning(g: Layout, v: Val, me: int, s: Store, r: seq<nat>, trail: seq<Entry>, x: Word, y: Word, n: nat)
    requires StoreOk(g, s, r) && Final(g, s, x) && Final(g, s, y)
    ensures var o := Iterate(g, me, Running(Start(s, r, trail, x, y)), n);
            && (o.Unified? ==> (Solves(g, v, o.st.s) <==> Solves(g, v, s) && Same(g, v, x, y)))
            && (o.Clash? ==> !(Solves(g, v, s) && Same(g, v, x, y)))
  {
    var st := Start(s, r, trail, x, y);
    var o := Iterate(g, me, Running(st), n);
    if Solves(g, v, s) && Same(g, v, x, y) {
      forall d
        ensures ClaimsAt(g, v, st, d)
      {
        assert SameAt(g, v, x, y, d);
      }
      RunClaims(g, v, me, st, n);
    }
    if o.Unified? && Solves(g, v, o.st.s) {
      forall d
        ensures CoveredAt(g, v, st, d)
      {
      }
      RunBack(g, v, me, st, n);
      forall d
        ensures SameAt(g, v, x, y, d)
      {
        assert ClaimsAt(g, v, st, d);
      }
    }
  }
}
