/** When unification ends. The alias entered for an object is the second term
    as it is, not the end of that term's own chain of aliases, so chains can
    close to a cycle; a run goes on for ever exactly when it comes to follow
    such a cycle without meeting the second term. */
module UnLoop {
  import opened UnStore
  import opened UnUnify
  import opened UnMeaning

  /** The object after n aliases. */
  function Chase(table: map<Word, Word>, x: Word, n: nat): Word
    decreases n
  {
    if n == 0 || x !in table then x else Chase(table, table[x], n - 1)
  }

  /** Two objects of one shape; the chain of aliases of the first never leaves
      the table and never meets the second. */
  ghost predicate Circles(g: Layout, st: State) {
    AliasOk(g, st.x, st.y) && forall n: nat :: GoesOn(st, n)
  }

  predicate GoesOn(st: State, n: nat) {
    Chase(st.table, st.x, n) in st.table && Chase(st.table, st.x, n) != st.y
  }

  lemma CirclesStep(g: Layout, me: int, st: State)
    requires Good(g, st) && Circles(g, st)
    ensures st.x in st.table && Step(g, me, st) == Running(st.(x := st.table[st.x]))
            && Circles(g, st.(x := st.table[st.x]))
  {
    assert GoesOn(st, 0);
    var w := st.(x := st.table[st.x]);
    forall n: nat
      ensures GoesOn(w, n)
    {
      assert GoesOn(st, n + 1);
    }
    assert AliasOk(g, st.x, st.table[st.x]);
  }

  lemma {:induction false} CirclesForever(g: Layout, me: int, st: State, n: nat)
    requires Good(g, st) && Circles(g, st)
    ensures Iterate(g, me, Running(st), n).Running?
    decreases n
  {
    if n > 0 {
      IterateOne(g, me, st, n);
      CirclesStep(g, me, st);
      CirclesForever(g, me, st.(x := st.table[st.x]), n - 1);
    }
  }

  // ------------------------------------------------ ending

  function Objects(g: Layout): set<Word> {
    (set a | a in g.pairs :: Lst(a)) + (set a | a in g.strs :: Str(a))
  }

  function Weight(stack: seq<Frame>): int
    decreases |stack|
  {
    if stack == [] then 0 else Weight(stack[..|stack| - 1]) + stack[|stack| - 1].index
  }

  lemma {:induction false} WeightNat(g: Layout, stack: seq<Frame>)
    requires forall i :: 0 <= i < |stack| ==> FrameOk(g, stack[i])
    ensures Weight(stack) >= |stack|
    decreases |stack|
  {
    if stack != [] {
      assert FrameOk(g, stack[|stack| - 1]);
      WeightNat(g, stack[..|stack| - 1]);
    }
  }

  lemma WeightPush(stack: seq<Frame>, f: Frame)
    ensures Weight(stack + [f]) == Weight(stack) + f.index
  {
    assert (stack + [f])[..|stack|] == stack;
  }

  /** Some state of the run circles. */
  ghost predicate CirclesAfter(g: Layout, me: int, st: State, n: nat)
    requires Good(g, st)
  {
    var o := Iterate(g, me, Running(st), n);
    o.Running? && Circles(g, o.st)
  }

  ghost predicate EverCircles(g: Layout, me: int, st: State)
    requires Good(g, st)
  {
    exists n: nat :: CirclesAfter(g, me, st, n)
  }

  lemma NeverLater(g: Layout, me: int, st: State)
    requires Good(g, st) && !EverCircles(g, me, st) && Step(g, me, st).Running?
    ensures Good(g, Step(g, me, st).st) && !EverCircles(g, me, Step(g, me, st).st)
    ensures !Circles(g, st)
  {
    IterateOne(g, me, st, 0);
    assert !CirclesAfter(g, me, st, 0);
    var w := Step(g, me, st).st;
    forall n: nat
      ensures !CirclesAfter(g, me, w, n)
    {
      assert !CirclesAfter(g, me, st, n + 1);
      IterateOne(g, me, st, n + 1);
    }
  }

  /** Taking arguments from the stack makes it lighter. */
  lemma SucceedLighter(g: Layout, st: State)
    requires Ready(g, st) && Succeed(st).Running?
    ensures 0 <= Weight(Succeed(st).st.stack) < Weight(st.stack) && Succeed(st).st.table == st.table
  {
    var f := st.stack[|st.stack| - 1];
    var rest := st.stack[..|st.stack| - 1];
    assert FrameOk(g, f);
    WeightNat(g, rest);
    if f.index > 1 {
      WeightPush(rest, f.(index := f.index - 1));
    }
  }

  /** The three kinds of steps, by what they make smaller. */
  lemma StepSmaller(g: Layout, me: int, st: State)
    requires Good(g, st) && Step(g, me, st).Running?
    ensures var w := Step(g, me, st).st;
            || (Weight(w.stack) < Weight(st.stack) && w.table == st.table)
            || (st.x in st.table && w == st.(x := st.table[st.x]) && AliasOk(g, st.x, st.y) && st.x != st.y)
            || (Objects(g) - w.table.Keys < Objects(g) - st.table.Keys)
  {
    if st.x == st.y {
      SucceedLighter(g, st);
    } else if st.x.Ref? || st.y.Ref? {
      var second := st.y.Ref? && !(st.x.Ref? && BindsFirst(st.s, me, st.x.c, st.y.c));
      var c, t := if second then st.y.c else st.x.c, if second then st.x else st.y;
      BindToOk(g, st, me, c, t);
      SucceedLighter(g, BindTo(st, me, c, t));
    } else if st.x !in st.table {
      hide StoreOk, Deref, LayoutOk, Final;
      assert st.x in Objects(g) - st.table.Keys;
    }
  }

  /** A run that never circles ends. n tells how far the chain of the first
      object goes. */
  lemma {:induction false} RunEnds(g: Layout, me: int, st: State, n: nat) returns (rounds: nat)
    requires Good(g, st) && !EverCircles(g, me, st)
    requires AliasOk(g, st.x, st.y) ==> !GoesOn(st, n)
    ensures !Iterate(g, me, Running(st), rounds).Running?
    decreases Objects(g) - st.table.Keys, Weight(st.stack), n
  {
    hide *;
    var o := Step(g, me, st);
    if !o.Running? {
      IterateOne(g, me, st, 1);
      return 1;
    }
    NeverLater(g, me, st);
    StepSmaller(g, me, st);
    WeightIs(g, st);
    var w := o.st;
    var later;
    if st.x in st.table && w == st.(x := st.table[st.x]) && AliasOk(g, st.x, st.y) && st.x != st.y {
      ShorterChain(st, n);
      later := RunEnds(g, me, w, n - 1);
    } else {
      var m := SomeEnd(g, me, w);
      later := RunEnds(g, me, w, m);
    }
    rounds := later + 1;
    IterateOne(g, me, st, rounds);
  }

  lemma WeightIs(g: Layout, st: State)
    requires Good(g, st)
    ensures Weight(st.stack) >= 0
  {
    WeightNat(g, st.stack);
  }

  lemma ShorterChain(st: State, n: nat)
    requires st.x in st.table && st.x != st.y && !GoesOn(st, n)
    ensures n > 0 && !GoesOn(st.(x := st.table[st.x]), n - 1)
  {
  }

  lemma SomeEnd(g: Layout, me: int, st: State) returns (n: nat)
    requires Good(g, st) && !EverCircles(g, me, st)
    ensures AliasOk(g, st.x, st.y) ==> !GoesOn(st, n)
  {
    IterateOne(g, me, st, 0);
    assert !CirclesAfter(g, me, st, 0);
    if AliasOk(g, st.x, st.y) {
      n :| !GoesOn(st, n);
    } else {
      n := 0;
    }
  }

  lemma {:induction false} AfterCircle(g: Layout, me: int, st: State, n: nat, m: nat)
    requires Good(g, st) && CirclesAfter(g, me, st, n)
    ensures Iterate(g, me, Running(st), m).Running?
    decreases m, n
  {
    IterateOne(g, me, st, n);
    IterateOne(g, me, st, m);
    IterateOne(g, me, st, 0);
    if n == 0 {
      CirclesForever(g, me, st, m);
    } else if m > 0 {
      assert Step(g, me, st).Running?;
      AfterCircle(g, me, Step(g, me, st).st, n - 1, m - 1);
    }
  }

  /** Unification ends if and only if no state of its run circles. */
  lemma EndsIff(g: Layout, me: int, st: State)
    requires Good(g, st)
    ensures (exists rounds: nat :: !Iterate(g, me, Running(st), rounds).Running?) <==> !EverCircles(g, me, st)
  {
    if EverCircles(g, me, st) {
      var n: nat :| CirclesAfter(g, me, st, n);
      forall m: nat
        ensures Iterate(g, me, Running(st), m).Running?
      {
        AfterCircle(g, me, st, n, m);
      }
    } else {
      var n := SomeEnd(g, me, st);
      var rounds := RunEnds(g, me, st, n);
      assert !Iterate(g, me, Running(st), rounds).Running?;
    }
  }

  // ------------------------------------------------ where a circle comes from

  /** Every chain of aliases ends. */
  ghost predicate ChainsEnd(table: map<Word, Word>) {
    forall k :: ChainEnds(table, k)
  }

  ghost predicate ChainEnds(table: map<Word, Word>, k: Word) {
    exists n: nat :: Chase(table, k, n) !in table
  }

  /** The chain of y leads to x. */
  ghost predicate LeadsBack(table: map<Word, Word>, x: Word, y: Word) {
    exists n: nat :: Chase(table, y, n) == x
  }

  lemma {:induction false} ChaseEntered(table: map<Word, Word>, x: Word, y: Word, k: Word, n: nat)
    requires x !in table && forall m: nat :: m <= n ==> Chase(table, k, m) != x
    ensures Chase(table[x := y], k, n) == Chase(table, k, n)
    decreases n
  {
    assert Chase(table, k, 0) != x;
    if n > 0 && k in table {
      forall m: nat | m <= n - 1
        ensures Chase(table, table[k], m) != x
      {
        assert Chase(table, k, m + 1) != x;
      }
      ChaseEntered(table, x, y, table[k], n - 1);
    }
  }

  lemma {:induction false} ChaseTwice(table: map<Word, Word>, k: Word, m: nat, n: nat)
    ensures Chase(table, Chase(table, k, m), n) == Chase(table, k, m + n)
    decreases m
  {
    if m > 0 && k in table {
      ChaseTwice(table, table[k], m - 1, n);
    }
  }

  lemma {:induction false} FirstMeeting(table: map<Word, Word>, x: Word, y: Word, k: Word, n: nat) returns (m: nat)
    requires x !in table && Chase(table, k, n) == x
    ensures Chase(table[x := y], k, m) == x
    decreases n
  {
    if k == x {
      m := 0;
      assert Chase(table[x := y], k, 0) == k;
    } else {
      m := FirstMeeting(table, x, y, table[k], n - 1);
      m := m + 1;
    }
  }

  /** Entering an alias keeps all chains finite if and only if the chain of the
      alias does not lead back to the object. */
  lemma EnterEnds(table: map<Word, Word>, x: Word, y: Word)
    requires ChainsEnd(table) && x !in table
    ensures ChainsEnd(table[x := y]) <==> !LeadsBack(table, x, y)
  {
    var w := table[x := y];
    if LeadsBack(table, x, y) {
      var n: nat :| Chase(table, y, n) == x;
      var m := FirstMeeting(table, x, y, y, n);
      forall q: nat
        ensures Chase(w, x, q) in w
      {
        RoundAgain(w, x, m, q);
      }
      assert !ChainEnds(w, x);
    } else {
      EndOf(table, x, y, y);
      forall k
        ensures ChainEnds(w, k)
      {
        if n: nat :| Chase(table, k, n) == x {
          var m := FirstMeeting(table, x, y, k, n);
          var e: nat :| Chase(w, y, e) !in w;
          ChaseTwice(w, k, m, e + 1);
          assert Chase(w, x, e + 1) == Chase(w, y, e);
        } else {
          EndOf(table, x, y, k);
        }
      }
    }
  }

  lemma EndOf(table: map<Word, Word>, x: Word, y: Word, k: Word)
    requires ChainsEnd(table) && x !in table && forall n: nat :: Chase(table, k, n) != x
    ensures ChainEnds(table[x := y], k)
  {
    assert ChainEnds(table, k);
    var n: nat :| Chase(table, k, n) !in table;
    ChaseEntered(table, x, y, k, n);
    assert Chase(table[x := y], k, n) !in table[x := y];
  }

  /** The chain of x comes back to x and so never ends. */
  lemma {:induction false} RoundAgain(w: map<Word, Word>, x: Word, m: nat, q: nat)
    requires x in w && Chase(w, w[x], m) == x
    ensures Chase(w, x, q) in w
    decreases q
  {
    if q > m {
      ChaseTwice(w, x, m + 1, q - (m + 1));
      assert Chase(w, x, m + 1) == x;
      RoundAgain(w, x, m, q - (m + 1));
    } else if q > 0 {
      ChaseTwice(w, x, q, m + 1 - q);
      assert Chase(w, x, m + 1) == Chase(w, w[x], m);
    }
  }

  lemma NoCircle(g: Layout, st: State)
    requires ChainsEnd(st.table)
    ensures !Circles(g, st)
  {
    assert ChainEnds(st.table, st.x);
    var n: nat :| Chase(st.table, st.x, n) !in st.table;
    assert !GoesOn(st, n);
  }

  // ------------------------------------------------ a run without end

  /** Three list cells, each [1], at 0, 2 and 4, and the terms f(B, A, A) and
      f(A, B, C) over them. */
  function LoopLayout(): Layout {
    Layout(14, {0, 2, 4}, map[6 := Fun(0, 3), 10 := Fun(0, 3)])
  }

  function LoopStore(): Store {
    [Imm(1), Imm(0), Imm(1), Imm(0), Imm(1), Imm(0),
     Imm(0), Lst(2), Lst(0), Lst(0), Imm(0), Lst(0), Lst(2), Lst(4)]
  }

  function LoopRanks(): seq<nat> {
    [0, 0, 0, 0, 0, 0, 0, 0, 0, 0, 0, 0, 0, 0]
  }

  ghost function LoopState(x: Word, y: Word, table: map<Word, Word>, stack: seq<Frame>): State {
    State(LoopStore(), LoopRanks(), [], x, y, table, stack)
  }

  lemma LoopOk()
    ensures StoreOk(LoopLayout(), LoopStore(), LoopRanks())
  {
    forall t
      ensures ObjOk(LoopLayout(), t)
    {
    }
  }

  lemma LoopArguments(x: Word, y: Word, table: map<Word, Word>, stack: seq<Frame>, c: int)
    requires 0 <= c < 14
    ensures Argument(LoopState(x, y, table, stack), c) == LoopStore()[c]
  {
    assert Deref(LoopStore(), LoopRanks(), Ref(c)) == Deref(LoopStore(), LoopRanks(), LoopStore()[c]);
  }

  predicate IsOne(a: int) {
    a == 0 || a == 2 || a == 4
  }

  lemma LoopOne(a: int, x: Word, y: Word, table: map<Word, Word>, stack: seq<Frame>)
    requires IsOne(a)
    ensures Argument(LoopState(x, y, table, stack), a) == Imm(1)
    ensures Argument(LoopState(x, y, table, stack), a + 1) == Imm(0)
    ensures IsObj(LoopLayout(), Lst(a)) && ShapeOf(LoopLayout(), Lst(a)) == Cons
  {
    LoopArguments(x, y, table, stack, a);
    LoopArguments(x, y, table, stack, a + 1);
  }

  /** A new pair of list cells: their elements are next. */
  lemma LoopList(a: int, b: int, table: map<Word, Word>, stack: seq<Frame>)
    requires IsOne(a) && IsOne(b) && a != b && Lst(a) !in table
    requires Good(LoopLayout(), LoopState(Lst(a), Lst(b), table, stack))
    ensures Step(LoopLayout(), 0, LoopState(Lst(a), Lst(b), table, stack)) ==
              Running(LoopState(Imm(1), Imm(1), table[Lst(a) := Lst(b)], stack + [Frame(a + 1, b + 1, 1)]))
  {
    LoopOne(a, Lst(a), Lst(b), table, stack);
    LoopOne(b, Lst(a), Lst(b), table, stack);
    hide Deref, Good, LoopStore, LoopLayout, LoopRanks, Argument;
    TakeArguments(LoopState(Lst(a), Lst(b), table, stack), a, b);
  }

  lemma TakeArguments(st: State, a: int, b: int)
    requires st.x == Lst(a) && st.y == Lst(b) && st.x !in st.table
    ensures Tuples(st, 2) == Running(st.(table := st.table[st.x := st.y], stack := st.stack + [Frame(a + 1, b + 1, 1)],
                                         x := Argument(st, a), y := Argument(st, b)))
  {
  }

  /** Equal elements: the ends of the two cells are next. */
  lemma LoopEnds(a: int, b: int, table: map<Word, Word>, stack: seq<Frame>)
    requires IsOne(a) && IsOne(b) && Good(LoopLayout(),
             LoopState(Imm(1), Imm(1), table, stack + [Frame(a + 1, b + 1, 1)]))
    ensures Step(LoopLayout(), 0, LoopState(Imm(1), Imm(1), table, stack + [Frame(a + 1, b + 1, 1)])) ==
              Running(LoopState(Imm(0), Imm(0), table, stack))
  {
    var st := LoopState(Imm(1), Imm(1), table, stack + [Frame(a + 1, b + 1, 1)]);
    LoopOne(a, Imm(1), Imm(1), table, st.stack);
    LoopOne(b, Imm(1), Imm(1), table, st.stack);
    assert st.stack[..|st.stack| - 1] == stack;
    hide Deref, Good, LoopStore, LoopLayout, LoopRanks, Argument;
    assert Step(LoopLayout(), 0, st) == Succeed(st);
  }

  /** Equal ends: the next argument of the structures is next. */
  lemma LoopNext(c: int, d: int, i: int, table: map<Word, Word>, x: Word, y: Word)
    requires 0 <= c - (i - 1) < 14 && 0 <= d - (i - 1) < 14 && i >= 1
    requires x == LoopStore()[c - (i - 1)] && y == LoopStore()[d - (i - 1)]
    requires Good(LoopLayout(), LoopState(Imm(0), Imm(0), table, [Frame(c, d, i)]))
    ensures Step(LoopLayout(), 0, LoopState(Imm(0), Imm(0), table, [Frame(c, d, i)])) ==
              Running(LoopState(x, y, table, if i > 1 then [Frame(c, d, i - 1)] else []))
  {
    var st := LoopState(Imm(0), Imm(0), table, [Frame(c, d, i)]);
    LoopArguments(Imm(0), Imm(0), table, st.stack, c - (i - 1));
    LoopArguments(Imm(0), Imm(0), table, st.stack, d - (i - 1));
    assert st.stack[..|st.stack| - 1] == [];
    hide Deref, Good, LoopStore, LoopLayout, LoopRanks, Argument;
    assert Step(LoopLayout(), 0, st) == Succeed(st);
  }

  /** Three steps deal with one pair of list cells and take the next pair. */
  lemma LoopPair(a: int, b: int, table: map<Word, Word>, c: int, d: int, i: int, x: Word, y: Word, n: nat)
    requires IsOne(a) && IsOne(b) && a != b && Lst(a) !in table && n >= 3
    requires 0 <= c - (i - 1) < 14 && 0 <= d - (i - 1) < 14 && i >= 1
    requires x == LoopStore()[c - (i - 1)] && y == LoopStore()[d - (i - 1)]
    requires Good(LoopLayout(), LoopState(Lst(a), Lst(b), table, [Frame(c, d, i)]))
    ensures var w := LoopState(x, y, table[Lst(a) := Lst(b)], if i > 1 then [Frame(c, d, i - 1)] else []);
            Good(LoopLayout(), w) &&
            Iterate(LoopLayout(), 0, Running(LoopState(Lst(a), Lst(b), table, [Frame(c, d, i)])), n) ==
              Iterate(LoopLayout(), 0, Running(w), n - 3)
  {
    hide *;
    var g, t, f := LoopLayout(), table[Lst(a) := Lst(b)], [Frame(c, d, i)];
    var s0, s1, s2 := LoopState(Lst(a), Lst(b), table, f),
      LoopState(Imm(1), Imm(1), t, f + [Frame(a + 1, b + 1, 1)]), LoopState(Imm(0), Imm(0), t, f);
    IterateOne(g, 0, s0, n);
    LoopList(a, b, table, f);
    IterateOne(g, 0, s1, n - 1);
    LoopEnds(a, b, t, f);
    IterateOne(g, 0, s2, n - 2);
    LoopNext(c, d, i, t, x, y);
  }

  lemma LoopStart()
    ensures Good(LoopLayout(), Start(LoopStore(), LoopRanks(), [], Str(6), Str(10)))
    ensures Step(LoopLayout(), 0, Start(LoopStore(), LoopRanks(), [], Str(6), Str(10))) ==
              Running(LoopState(Lst(2), Lst(0), map[Str(6) := Str(10)], [Frame(9, 13, 2)]))
  {
    LoopOk();
    var st := Start(LoopStore(), LoopRanks(), [], Str(6), Str(10));
    LoopArguments(st.x, st.y, st.table, st.stack, 7);
    LoopArguments(st.x, st.y, st.table, st.stack, 11);
    hide Deref;
    assert Step(LoopLayout(), 0, st) == Tuples(st, 3);
  }

  lemma LoopCircles(table: map<Word, Word>)
    requires Lst(0) in table && table[Lst(0)] == Lst(2) && Lst(2) in table && table[Lst(2)] == Lst(0)
    ensures Circles(LoopLayout(), LoopState(Lst(0), Lst(4), table, []))
  {
    var st := LoopState(Lst(0), Lst(4), table, []);
    forall n: nat
      ensures GoesOn(st, n)
    {
      ChaseTwo(table, 0, 2, n);
    }
  }

  lemma {:induction false} ChaseTwo(table: map<Word, Word>, a: int, b: int, n: nat)
    requires Lst(a) in table && table[Lst(a)] == Lst(b) && Lst(b) in table && table[Lst(b)] == Lst(a)
    ensures Chase(table, Lst(a), n) == Lst(a) || Chase(table, Lst(a), n) == Lst(b)
    decreases n
  {
    if n > 0 {
      ChaseTwo(table, b, a, n - 1);
    }
  }

  /** Unifying f(B, A, A) with f(A, B, C), where A, B and C are different copies
      of [1], never ends, although the two terms are equal. */
  lemma LoopForever()
    ensures var st := Start(LoopStore(), LoopRanks(), [], Str(6), Str(10));
            Good(LoopLayout(), st) && EverCircles(LoopLayout(), 0, st)
  {
    hide *;
    LoopStart();
    var g, t1 := LoopLayout(), map[Str(6) := Str(10)];
    var t2 := t1[Lst(2) := Lst(0)];
    var t3 := t2[Lst(0) := Lst(2)];
    var st := Start(LoopStore(), LoopRanks(), [], Str(6), Str(10));
    IterateOne(g, 0, st, 7);
    LoopWords();
    LoopPair(2, 0, t1, 9, 13, 2, Lst(0), Lst(2), 6);
    LoopPair(0, 2, t2, 9, 13, 1, Lst(0), Lst(4), 3);
    LoopCircles(t3);
    var w := LoopState(Lst(0), Lst(4), t3, []);
    IterateOne(g, 0, w, 0);
    CirclesAt(g, 0, st, 7, w);
  }

  lemma LoopWords()
    ensures |LoopStore()| == 14 && LoopStore()[8] == Lst(0) && LoopStore()[12] == Lst(2) && LoopStore()[9] == Lst(0)
            && LoopStore()[13] == Lst(4)
    ensures IsOne(0) && IsOne(2)
  {
  }

  lemma CirclesAt(g: Layout, me: int, st: State, n: nat, w: State)
    requires Good(g, st) && Iterate(g, me, Running(st), n) == Running(w) && Circles(g, w)
    ensures EverCircles(g, me, st)
  {
    assert CirclesAfter(g, me, st, n);
  }

  /** The two terms are equal: every solution gives them the same tree. */
  lemma LoopEqual(v: Val)
    requires Solves(LoopLayout(), v, LoopStore())
    ensures Same(LoopLayout(), v, Str(6), Str(10))
  {
    hide *;
    forall d
      ensures SameAt(LoopLayout(), v, Str(6), Str(10), d)
    {
      LoopShapes();
      var e := d - 1;
      forall j | 0 <= j < 3
        ensures SameKidAt(v, Str(6), Str(10), j, e)
      {
        TermKid(v, j, e);
      }
      NodesEqual(LoopLayout(), v, Str(6), Str(10), 3, e);
    }
    AllSame(LoopLayout(), v, Str(6), Str(10));
  }

  lemma AllSame(g: Layout, v: Val, x: Word, y: Word)
    requires forall d :: SameAt(g, v, x, y, d)
    ensures Same(g, v, x, y)
  {
  }

  lemma NodesEqual(g: Layout, v: Val, x: Word, y: Word, n: int, e: int)
    requires AliasOk(g, x, y) && n == Width(ShapeOf(g, x)) && forall j :: 0 <= j < n ==> SameKidAt(v, x, y, j, e)
    ensures SameAt(g, v, x, y, e + 1)
  {
    KidsEqual(v, x, y, n, e);
  }

  lemma LoopShapes()
    ensures AliasOk(LoopLayout(), Str(6), Str(10)) && Width(ShapeOf(LoopLayout(), Str(6))) == 3
    ensures forall a, b :: IsOne(a) && IsOne(b) ==>
            AliasOk(LoopLayout(), Lst(a), Lst(b)) && Width(ShapeOf(LoopLayout(), Lst(a))) == 2
  {
  }

  lemma TermKid(v: Val, j: int, d: int)
    requires Solves(LoopLayout(), v, LoopStore()) && 0 <= j < 3
    ensures SameKidAt(v, Str(6), Str(10), j, d)
  {
    LoopCells(v, d);
    ListsEqual(v, 0, 2, d);
    ListsEqual(v, 0, 4, d);
    hide LoopStore, Solves, LoopLayout, TreeOf;
  }

  lemma ListsEqual(v: Val, a: int, b: int, d: int)
    requires Solves(LoopLayout(), v, LoopStore()) && IsOne(a) && IsOne(b)
    ensures TreeOf(LoopLayout(), v, Lst(a), d) == TreeOf(LoopLayout(), v, Lst(b), d)
  {
    LoopShapes();
    var e := d - 1;
    forall j | 0 <= j < 2
      ensures SameKidAt(v, Lst(a), Lst(b), j, e)
    {
      LoopCells(v, e);
      hide LoopStore, Solves, LoopLayout, TreeOf;
    }
    hide Solves, LoopStore, LoopLayout, TreeOf;
    assert SameAt(LoopLayout(), v, Lst(a), Lst(b), d) by {
      NodesEqual(LoopLayout(), v, Lst(a), Lst(b), 2, e);
    }
  }

  lemma LoopCells(v: Val, d: int)
    requires Solves(LoopLayout(), v, LoopStore())
    ensures At(v, 0, d) == At(v, 2, d) == At(v, 4, d) && At(v, 1, d) == At(v, 3, d) == At(v, 5, d)
    ensures At(v, 7, d) == TreeOf(LoopLayout(), v, Lst(2), d) && At(v, 8, d) == TreeOf(LoopLayout(), v, Lst(0), d)
    ensures At(v, 9, d) == TreeOf(LoopLayout(), v, Lst(0), d) && At(v, 11, d) == TreeOf(LoopLayout(), v, Lst(0), d)
    ensures At(v, 12, d) == TreeOf(LoopLayout(), v, Lst(2), d) && At(v, 13, d) == TreeOf(LoopLayout(), v, Lst(4), d)
  {
    var s := LoopStore();
    assert s[0] == s[2] == s[4] == Imm(1) && s[1] == s[3] == s[5] == Imm(0);
    assert s[7] == Lst(2) && s[8] == Lst(0) && s[9] == Lst(0) && s[11] == Lst(0) && s[12] == Lst(2) && s[13] == Lst(4);
  }
}
