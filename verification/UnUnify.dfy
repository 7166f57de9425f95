/** Unification of possibly cyclic terms: one step of the machine with its
    control stack of argument pairs and its table of aliases, and what a run of
    it means. */
module UnUnify {
  import opened UnStore

  /** A trailed cell and what it held before it was bound. */
  datatype Entry = Entry(c: int, was: Word)

  /** Two rows of arguments, by the cells of their last ones; the last `index`
      arguments are still to be unified. */
  datatype Frame = Frame(tuple1: int, tuple2: int, index: int)

  datatype State = State(s: Store, r: seq<nat>, trail: seq<Entry>, x: Word, y: Word,
                         table: map<Word, Word>, stack: seq<Frame>)

  /** Still running, or done. */
  datatype Outcome = Running(st: State) | Unified(st: State) | Clash

  // ------------------------------------------------ binding

  predicate IsLocal(s: Store, me: int, c: int)
    requires Free(s, c)
  {
    s[c].home == me
  }

  /** Binding a cell raises the ranks of everything that leads to it. */
  ghost function Raised(s: Store, r: seq<nat>, c: int, t: Word): (q: seq<nat>)
    requires |r| == |s|
    ensures |q| == |s|
  {
    seq(|s|, e requires 0 <= e < |s| => if Deref(s, r, Ref(e)) == Ref(c) then (r[e] + RankOf(r, t)) as nat else r[e])
  }

  lemma RaisedRanked(g: Layout, s: Store, r: seq<nat>, c: int, t: Word)
    requires StoreOk(g, s, r) && Free(s, c) && Final(g, s, t) && t != Ref(c)
    ensures StoreOk(g, s[c := t], Raised(s, r, c, t))
  {
    var w, q := s[c := t], Raised(s, r, c, t);
    forall e | 0 <= e < |w| && w[e].Ref? && 0 <= w[e].c < |w|
      ensures q[w[e].c] < q[e]
    {
      if e == c {
        assert Deref(s, r, Ref(c)) == Ref(c);
        assert Deref(s, r, t) == t;
      } else {
        DerefStep(g, s, r, e);
      }
    }
  }

  /** Binds the unbound cell c; a cell that is not local to the and-box is
      trailed first. */
  ghost function BindTo(st: State, me: int, c: int, t: Word): State
    requires Free(st.s, c) && |st.r| == |st.s|
  {
    st.(s := st.s[c := t], r := Raised(st.s, st.r, c, t),
        trail := if IsLocal(st.s, me, c) then st.trail else st.trail + [Entry(c, st.s[c])])
  }

  /** Which of two unbound cells is bound to the other: the first one when it is
      local, unless it has suspensions and the second is local without any. */
  predicate BindsFirst(s: Store, me: int, x: int, y: int)
    requires Free(s, x) && Free(s, y)
  {
    IsLocal(s, me, x) && (s[x].Uva? || s[y].Sva? || !IsLocal(s, me, y))
  }

  /** An external variable is never bound to a local one. */
  lemma BindsInward(s: Store, me: int, x: int, y: int)
    requires Free(s, x) && Free(s, y)
    ensures BindsFirst(s, me, x, y) ==> IsLocal(s, me, x)
    ensures !BindsFirst(s, me, x, y) ==> IsLocal(s, me, x) ==> IsLocal(s, me, y)
  {
  }

  // ------------------------------------------------ one step

  ghost function Argument(st: State, c: int): Word {
    Deref(st.s, st.r, Ref(c))
  }

  /** The stack with one row of its top frame taken. */
  function Popped(stack: seq<Frame>): seq<Frame>
    requires stack != []
  {
    var rest, f := stack[..|stack| - 1], stack[|stack| - 1];
    if f.index > 1 then rest + [f.(index := f.index - 1)] else rest
  }

  function Pushed(stack: seq<Frame>, f: Frame): seq<Frame> {
    if f.index > 0 then stack + [f] else stack
  }

  function Top(stack: seq<Frame>): Frame
    requires stack != []
  {
    stack[|stack| - 1]
  }

  /** A pair has been unified: the next arguments come from the stack. */
  ghost function Succeed(st: State): Outcome {
    if st.stack == [] then Unified(st)
    else
      var f := Top(st.stack);
      var i := f.index - 1;
      Running(st.(x := Argument(st, f.tuple1 - i), y := Argument(st, f.tuple2 - i), stack := Popped(st.stack)))
  }

  /** The arguments of x and y after the first ones. */
  function Rows(x: Word, y: Word, width: int): Frame
    requires (x.Lst? || x.Str?) && (y.Lst? || y.Str?)
  {
    Frame(Kid(x, width - 1), Kid(y, width - 1), width - 1)
  }

  /** Two objects of one shape: the first of them is replaced by its alias if it
      has one; otherwise it gets the second as its alias and their arguments are
      next. */
  ghost function Tuples(st: State, width: int): Outcome
    requires (st.x.Lst? || st.x.Str?) && (st.y.Lst? || st.y.Str?)
  {
    if st.x in st.table then Running(st.(x := st.table[st.x]))
    else
      var f := Rows(st.x, st.y, width);
      Running(st.(table := st.table[st.x := st.y], stack := Pushed(st.stack, f),
                  x := Argument(st, f.tuple1 - f.index), y := Argument(st, f.tuple2 - f.index)))
  }

  /** One round of the loop. */
  ghost function Step(g: Layout, me: int, st: State): Outcome
    requires Good(g, st)
  {
    if st.x == st.y then Succeed(st)
    else if st.x.Ref? && st.y.Ref? then
      Succeed(if BindsFirst(st.s, me, st.x.c, st.y.c) then BindTo(st, me, st.x.c, st.y)
        else BindTo(st, me, st.y.c, st.x))
    else if st.y.Ref? then Succeed(BindTo(st, me, st.y.c, st.x))
    else if st.x.Ref? then Succeed(BindTo(st, me, st.x.c, st.y))
    else if IsObj(g, st.x) && IsObj(g, st.y) && ShapeOf(g, st.x) == ShapeOf(g, st.y) then
      Tuples(st, Width(ShapeOf(g, st.x)))
    else Clash
  }

  // ------------------------------------------------ states that make sense

  ghost predicate FrameOk(g: Layout, f: Frame) {
    f.index >= 1 && forall j :: 0 <= j < f.index ==> RowOk(g, f, j)
  }

  predicate RowOk(g: Layout, f: Frame, j: int) {
    0 <= f.tuple1 - j < g.size && 0 <= f.tuple2 - j < g.size
  }

  predicate AliasOk(g: Layout, k: Word, w: Word) {
    IsObj(g, k) && IsObj(g, w) && ShapeOf(g, k) == ShapeOf(g, w)
  }

  ghost predicate StackOk(g: Layout, stack: seq<Frame>) {
    forall i :: 0 <= i < |stack| ==> FrameOk(g, stack[i])
  }

  ghost predicate TableOk(g: Layout, table: map<Word, Word>) {
    forall k :: k in table ==> AliasOk(g, k, table[k])
  }

  /** A state that is about to take the next pair. */
  ghost predicate Ready(g: Layout, st: State) {
    StoreOk(g, st.s, st.r) && StackOk(g, st.stack) && TableOk(g, st.table)
  }

  ghost predicate Good(g: Layout, st: State) {
    Ready(g, st) && Final(g, st.s, st.x) && Final(g, st.s, st.y)
  }

  ghost predicate GoodOutcome(g: Layout, o: Outcome) {
    match o
    case Running(st) => Good(g, st)
    case Unified(st) => StoreOk(g, st.s, st.r)
    case Clash => true
  }

  lemma BindToOk(g: Layout, st: State, me: int, c: int, t: Word)
    requires StoreOk(g, st.s, st.r) && Free(st.s, c) && Final(g, st.s, t) && t != Ref(c)
    ensures StoreOk(g, BindTo(st, me, c, t).s, BindTo(st, me, c, t).r)
  {
    RaisedRanked(g, st.s, st.r, c, t);
  }

  lemma PoppedOk(g: Layout, stack: seq<Frame>)
    requires stack != [] && StackOk(g, stack)
    ensures StackOk(g, Popped(stack)) && FrameOk(g, Top(stack)) && RowOk(g, Top(stack), Top(stack).index - 1)
  {
    var f := Top(stack);
    assert FrameOk(g, f);
    var h := f.(index := f.index - 1);
    forall j | 0 <= j < h.index
      ensures RowOk(g, h, j)
    {
      assert RowOk(g, f, j);
    }
  }

  lemma SucceedGood(g: Layout, st: State)
    requires Ready(g, st)
    ensures GoodOutcome(g, Succeed(st))
  {
    if st.stack != [] {
      PoppedOk(g, st.stack);
      var f := Top(st.stack);
      DerefFinal(g, st.s, st.r, Ref(f.tuple1 - (f.index - 1)));
      DerefFinal(g, st.s, st.r, Ref(f.tuple2 - (f.index - 1)));
      hide Deref, StoreOk, Final, StackOk, TableOk;
    }
  }

  lemma RowsOk(g: Layout, x: Word, y: Word)
    requires LayoutOk(g) && AliasOk(g, x, y)
    ensures var f := Rows(x, y, Width(ShapeOf(g, x)));
            && f.index >= 0 && (f.index > 0 ==> FrameOk(g, f)) && f.tuple1 - f.index == Kid(x, 0)
               && f.tuple2 - f.index == Kid(y, 0)
            && 0 <= Kid(x, 0) < g.size && 0 <= Kid(y, 0) < g.size
  {
    var f := Rows(x, y, Width(ShapeOf(g, x)));
    assert ObjOk(g, x) && ObjOk(g, y);
    forall j | 0 <= j < f.index
      ensures RowOk(g, f, j)
    {
      assert f.tuple1 - j == Kid(x, f.index - j) && f.tuple2 - j == Kid(y, f.index - j);
    }
  }

  lemma TuplesGood(g: Layout, st: State)
    requires Good(g, st) && AliasOk(g, st.x, st.y)
    ensures GoodOutcome(g, Tuples(st, Width(ShapeOf(g, st.x))))
  {
    if st.x !in st.table {
      RowsOk(g, st.x, st.y);
      DerefFinal(g, st.s, st.r, Ref(Kid(st.x, 0)));
      DerefFinal(g, st.s, st.r, Ref(Kid(st.y, 0)));
      hide Deref, StoreOk, Final, FrameOk, RowOk, LayoutOk, ObjOk;
    }
  }

  lemma StepGood(g: Layout, me: int, st: State)
    requires Good(g, st)
    ensures GoodOutcome(g, Step(g, me, st))
  {
    if st.x == st.y {
      SucceedGood(g, st);
    } else if st.x.Ref? || st.y.Ref? {
      var bt := if st.y.Ref? && !(st.x.Ref? && BindsFirst(st.s, me, st.x.c, st.y.c)) then BindTo(st, me, st.y.c, st.x)
                else BindTo(st, me, st.x.c, st.y);
      if st.y.Ref? && !(st.x.Ref? && BindsFirst(st.s, me, st.x.c, st.y.c)) {
        BindToOk(g, st, me, st.y.c, st.x);
      } else {
        BindToOk(g, st, me, st.x.c, st.y);
      }
      SucceedGood(g, bt);
    } else if IsObj(g, st.x) && IsObj(g, st.y) && ShapeOf(g, st.x) == ShapeOf(g, st.y) {
      TuplesGood(g, st);
    }
  }
}
