/** A condition on two terms and the store under which their unification ends:
    the first term is a finite tree nothing in which is reached twice, and none
    of its unbound variables can be reached from the second term. Then no object
    is ever looked up again. The second term may share and may be cyclic. */
module UnTree {
  import opened UnStore
  import opened UnUnify
  import opened UnMeaning
  import opened UnLoop

  /** A word with everything reached from it, as a tree. */
  datatype Spelling = Spelling(word: Word, kids: seq<Spelling>)

  ghost predicate Spells(g: Layout, s: Store, t: Spelling)
    decreases t
  {
    match t.word
    case Imm(_) => t.kids == []
    case Uva(_) => false
    case Sva(_) => false
    case Ref(c) =>
      && 0 <= c < |s|
      && if Unbound(s[c]) then t.kids == [] else |t.kids| == 1 && t.kids[0].word == s[c] && Spells(g, s, t.kids[0])
    case _ =>
      && IsObj(g, t.word) && |t.kids| == Width(ShapeOf(g, t.word))
      && forall i :: 0 <= i < |t.kids| ==> t.kids[i].word == Ref(Kid(t.word, i)) && Spells(g, s, t.kids[i])
  }

  /** The cells and objects of a tree. */
  function Nodes(t: Spelling): set<Word>
    decreases t, 0
  {
    (if t.word.Imm? then {} else {t.word}) + AllNodes(t.kids)
  }

  function AllNodes(ts: seq<Spelling>): set<Word>
    decreases ts, 1
  {
    if ts == [] then {} else Nodes(ts[0]) + AllNodes(ts[1..])
  }

  /** No cell and no object occurs twice. */
  predicate Once(t: Spelling)
    decreases t, 0
  {
    t.word !in AllNodes(t.kids) && AllOnce(t.kids)
  }

  predicate AllOnce(ts: seq<Spelling>)
    decreases ts, 1
  {
    ts != [] ==> Once(ts[0]) && Nodes(ts[0]) !! AllNodes(ts[1..]) && AllOnce(ts[1..])
  }

  // ------------------------------------------------ what can be reached

  predicate In(reach: set<Word>, t: Word) {
    t.Imm? || t in reach
  }

  /** Whatever is reached from the set is in it. */
  ghost predicate Closed(g: Layout, s: Store, reach: set<Word>) {
    && (forall c :: Ref(c) in reach && 0 <= c < |s| && !Unbound(s[c]) ==> In(reach, s[c]))
    && (forall t :: t in reach && IsObj(g, t) ==> KidsIn(g, reach, t))
  }

  ghost predicate KidsIn(g: Layout, reach: set<Word>, t: Word)
    requires IsObj(g, t)
  {
    forall i :: 0 <= i < Width(ShapeOf(g, t)) ==> Ref(Kid(t, i)) in reach
  }

  /** None of the unbound variables among the nodes is in the set. */
  ghost predicate Unseen(s: Store, nodes: set<Word>, reach: set<Word>) {
    forall c :: Ref(c) in nodes && Free(s, c) ==> Ref(c) !in reach
  }

  /** The condition, with its witnesses: the tree of the first term, and a closed
      set around the second. */
  ghost predicate Apart(g: Layout, s: Store, x: Word, y: Word, t: Spelling, reach: set<Word>) {
    t.word == x && Spells(g, s, t) && Once(t) && Closed(g, s, reach) && In(reach, y) && Unseen(s, Nodes(t), reach)
  }

  ghost predicate TreeApart(g: Layout, s: Store, x: Word, y: Word) {
    exists t, reach :: Apart(g, s, x, y, t, reach)
  }

  // ------------------------------------------------ forests

  lemma {:induction false} NodesSplit(a: seq<Spelling>, b: seq<Spelling>)
    ensures AllNodes(a + b) == AllNodes(a) + AllNodes(b)
    ensures AllOnce(a + b) <==> AllOnce(a) && AllOnce(b) && AllNodes(a) !! AllNodes(b)
    decreases |a|
  {
    if a == [] {
      assert a + b == b;
    } else {
      assert (a + b)[1..] == a[1..] + b;
      NodesSplit(a[1..], b);
    }
  }

  lemma OneTree(t: Spelling)
    ensures AllNodes([t]) == Nodes(t) && (AllOnce([t]) <==> Once(t))
  {
    assert [t][1..] == [];
  }

  lemma FirstTree(t: Spelling, b: seq<Spelling>)
    ensures AllNodes([t] + b) == Nodes(t) + AllNodes(b)
    ensures AllOnce([t] + b) <==> Once(t) && AllOnce(b) && Nodes(t) !! AllNodes(b)
  {
    NodesSplit([t], b);
    OneTree(t);
  }

  lemma {:induction false} InAll(ts: seq<Spelling>, i: int)
    requires 0 <= i < |ts|
    ensures Nodes(ts[i]) <= AllNodes(ts)
    decreases |ts|
  {
    if i > 0 {
      assert ts[1..][i - 1] == ts[i];
      InAll(ts[1..], i - 1);
    }
  }

  /** Binding a cell does not change a tree the cell is not in. */
  lemma {:induction false} SpellsKeeps(g: Layout, s: Store, t: Spelling, c: int, w: Word)
    requires Spells(g, s, t) && Free(s, c) && Ref(c) !in Nodes(t)
    ensures Spells(g, s[c := w], t)
    decreases t
  {
    forall i | 0 <= i < |t.kids|
      ensures Spells(g, s, t.kids[i]) ==> Spells(g, s[c := w], t.kids[i])
    {
      InAll(t.kids, i);
      if Spells(g, s, t.kids[i]) {
        SpellsKeeps(g, s, t.kids[i], c, w);
      }
    }
  }

  /** The tree after following references. */
  function Followed(s: Store, t: Spelling): Spelling
    decreases t
  {
    if t.word.Ref? && Free0(s, t.word.c) && |t.kids| == 1 then Followed(s, t.kids[0]) else t
  }

  predicate Free0(s: Store, c: int) {
    0 <= c < |s| && !Unbound(s[c])
  }

  lemma {:induction false} FollowedIs(g: Layout, s: Store, r: seq<nat>, t: Spelling)
    requires StoreOk(g, s, r) && Spells(g, s, t)
    ensures Followed(s, t).word == Deref(s, r, t.word) && Spells(g, s, Followed(s, t))
    ensures Nodes(Followed(s, t)) <= Nodes(t) && (Once(t) ==> Once(Followed(s, t)))
    decreases t
  {
    if t.word.Ref? && Free0(s, t.word.c) {
      DerefStep(g, s, r, t.word.c);
      FollowedIs(g, s, r, t.kids[0]);
      InAll(t.kids, 0);
      OneTree(t.kids[0]);
      assert t.kids == [t.kids[0]];
    }
  }

  /** The nodes of a tree are closed. */
  lemma {:induction false} TreeClosed(g: Layout, s: Store, t: Spelling, n: Word)
    requires Spells(g, s, t) && n in Nodes(t)
    ensures n.Ref? && Free0(s, n.c) ==> In(Nodes(t), s[n.c])
    ensures IsObj(g, n) ==> KidsIn(g, Nodes(t), n)
    decreases t
  {
    if n == t.word {
      forall i | 0 <= i < |t.kids|
        ensures In(Nodes(t), t.kids[i].word)
      {
        InAll(t.kids, i);
      }
      if IsObj(g, n) {
        forall i | 0 <= i < Width(ShapeOf(g, n))
          ensures Ref(Kid(n, i)) in Nodes(t)
        {
          assert t.kids[i].word == Ref(Kid(n, i)) && In(Nodes(t), t.kids[i].word);
        }
      }
    } else {
      var i := WhereNode(t.kids, n);
      InAll(t.kids, i);
      assert Spells(g, s, t.kids[i]);
      TreeClosed(g, s, t.kids[i], n);
    }
  }

  lemma {:induction false} WhereNode(ts: seq<Spelling>, n: Word) returns (i: int)
    requires n in AllNodes(ts)
    ensures 0 <= i < |ts| && n in Nodes(ts[i])
    decreases |ts|
  {
    if n in Nodes(ts[0]) {
      i := 0;
    } else {
      i := WhereNode(ts[1..], n);
      i := i + 1;
    }
  }

  // ------------------------------------------------ what is still to be unified

  /** The arguments of the first term that a frame still holds. */
  function RowWords(f: Frame): (w: seq<Word>)
    ensures |w| == (if f.index > 0 then f.index else 0)
    ensures forall j :: 0 <= j < |w| ==> w[j] == Ref(f.tuple1 - (f.index - 1 - j))
  {
    seq(if f.index > 0 then f.index else 0, j requires 0 <= j < f.index => Ref(f.tuple1 - (f.index - 1 - j)))
  }

  function Words(stack: seq<Frame>): seq<Word>
    decreases |stack|
  {
    if stack == [] then [] else RowWords(Top(stack)) + Words(stack[..|stack| - 1])
  }

  lemma RowNext(f: Frame)
    requires f.index >= 1
    ensures RowWords(f) == [Ref(f.tuple1 - (f.index - 1))] + RowWords(f.(index := f.index - 1))
  {
  }

  lemma NoRow(f: Frame)
    requires f.index <= 0
    ensures RowWords(f) == []
  {
  }

  lemma WordsMore(stack: seq<Frame>, f: Frame)
    ensures Words(stack + [f]) == RowWords(f) + Words(stack)
  {
    assert (stack + [f])[..|stack + [f]| - 1] == stack;
    hide RowWords;
  }

  lemma WordsTop(stack: seq<Frame>)
    requires stack != []
    ensures Words(stack) == RowWords(Top(stack)) + Words(stack[..|stack| - 1])
  {
  }

  lemma PoppedIs(stack: seq<Frame>)
    requires stack != []
    ensures var f, rest := Top(stack), stack[..|stack| - 1];
            Popped(stack) == if f.index > 1 then rest + [f.(index := f.index - 1)] else rest
  {
  }

  lemma WordsPopped(stack: seq<Frame>)
    requires stack != [] && Top(stack).index >= 1
    ensures Words(stack) == [Ref(Top(stack).tuple1 - (Top(stack).index - 1))] + Words(Popped(stack))
  {
    hide *;
    var f, rest := Top(stack), stack[..|stack| - 1];
    var h := f.(index := f.index - 1);
    WordsTop(stack);
    PoppedIs(stack);
    RowNext(f);
    if f.index > 1 {
      WordsMore(rest, h);
    } else {
      NoRow(h);
    }
    assert [Ref(f.tuple1 - (f.index - 1))] + RowWords(h) + Words(rest) ==
      [Ref(f.tuple1 - (f.index - 1))] + (RowWords(h) + Words(rest));
  }

  lemma WordsPushed(stack: seq<Frame>, f: Frame)
    ensures Words(Pushed(stack, f)) == RowWords(f) + Words(stack)
  {
    if f.index > 0 {
      assert (stack + [f])[..|stack + [f]| - 1] == stack;
    } else {
      assert RowWords(f) == [];
    }
  }

  /** The arguments of the second term that the frames still hold. */
  ghost predicate SecondsIn(stack: seq<Frame>, reach: set<Word>) {
    forall i :: 0 <= i < |stack| ==> SecondIn(stack[i], reach)
  }

  ghost predicate SecondIn(f: Frame, reach: set<Word>) {
    forall j :: 0 <= j < f.index ==> CellIn(f.tuple2, j, reach)
  }

  predicate CellIn(tuple: int, j: int, reach: set<Word>) {
    Ref(tuple - j) in reach
  }

  /** Trees for a row of words. */
  ghost predicate Trees(g: Layout, s: Store, ts: seq<Spelling>, words: seq<Word>) {
    |ts| == |words| && forall i :: 0 <= i < |ts| ==> ts[i].word == words[i] && Spells(g, s, ts[i])
  }

  /** What is pending is a forest of nodes not met before, apart from what the
      second terms reach. */
  ghost predicate Rest(g: Layout, st: State, ts: seq<Spelling>, reach: set<Word>) {
    && Trees(g, st.s, ts, Words(st.stack)) && AllOnce(ts) && AllNodes(ts) !! st.table.Keys
    && Closed(g, st.s, reach) && SecondsIn(st.stack, reach) && Unseen(st.s, AllNodes(ts), reach)
  }

  ghost predicate Inv(g: Layout, st: State, t: Spelling, ts: seq<Spelling>, reach: set<Word>) {
    && Rest(g, st, ts, reach) && t.word == st.x && Spells(g, st.s, t) && Once(t) && Nodes(t) !! AllNodes(ts)
    && Nodes(t) !! st.table.Keys && In(reach, st.y) && Unseen(st.s, Nodes(t), reach)
  }

  lemma {:induction false} DerefIn(g: Layout, s: Store, r: seq<nat>, t: Word, reach: set<Word>)
    requires StoreOk(g, s, r) && Typed(g, t) && In(reach, t) && Closed(g, s, reach)
    ensures In(reach, Deref(s, r, t))
    decreases RankOf(r, t)
  {
    if t.Ref? && !Unbound(s[t.c]) {
      DerefStep(g, s, r, t.c);
      DerefIn(g, s, r, s[t.c], reach);
    }
  }

  lemma SecondsPopped(stack: seq<Frame>, reach: set<Word>)
    requires stack != [] && Top(stack).index >= 1 && SecondsIn(stack, reach)
    ensures Ref(Top(stack).tuple2 - (Top(stack).index - 1)) in reach && SecondsIn(Popped(stack), reach)
  {
    var f := Top(stack);
    assert SecondIn(f, reach) && CellIn(f.tuple2, f.index - 1, reach);
    var h := f.(index := f.index - 1);
    assert forall j :: 0 <= j < h.index ==> CellIn(f.tuple2, j, reach) && CellIn(h.tuple2, j, reach);
  }

  lemma TreesRest(g: Layout, s: Store, ts: seq<Spelling>, w: Word, words: seq<Word>)
    requires Trees(g, s, ts, [w] + words)
    ensures ts != [] && ts == [ts[0]] + ts[1..] && ts[0].word == w && Spells(g, s, ts[0]) && Trees(g, s, ts[1..], words)
  {
    var all, rest := [w] + words, ts[1..];
    forall i | 0 <= i < |rest|
      ensures rest[i].word == words[i] && Spells(g, s, rest[i])
    {
      assert rest[i] == ts[i + 1] && all[i + 1] == words[i];
    }
  }

  lemma TreesBoth(g: Layout, s: Store, a: seq<Spelling>, b: seq<Spelling>, v: seq<Word>, w: seq<Word>)
    requires Trees(g, s, a, v) && Trees(g, s, b, w)
    ensures Trees(g, s, a + b, v + w)
  {
  }

  /** The next pair keeps the invariant. */
  lemma SucceedInv(g: Layout, st: State, ts: seq<Spelling>, reach: set<Word>) returns (t: Spelling, rest: seq<Spelling>)
    requires Ready(g, st) && Rest(g, st, ts, reach)
    ensures Succeed(st).Running? ==> Inv(g, Succeed(st).st, t, rest, reach)
  {
    hide *;
    if st.stack == [] {
      t, rest := Spelling(Imm(0), []), [];
      NothingNext(st);
    } else {
      var f := Top(st.stack);
      var c, d := f.tuple1 - (f.index - 1), f.tuple2 - (f.index - 1);
      RestParts(g, st, ts, reach);
      WordsPopped(st.stack);
      TreesRest(g, st.s, ts, Ref(c), Words(Popped(st.stack)));
      SecondsPopped(st.stack, reach);
      rest := ts[1..];
      t := Followed(st.s, ts[0]);
      FirstTree(ts[0], rest);
      FollowedIs(g, st.s, st.r, ts[0]);
      InIs(reach, Ref(d));
      CellTyped(g, d);
      DerefIn(g, st.s, st.r, Ref(d), reach);
      ArgumentIs(st, c);
      ArgumentIs(st, d);
      NextIs(st, c, d);
      UnseenLess(st.s, AllNodes(ts), AllNodes(ts), Nodes(t), AllNodes(rest), reach);
      FoldInv(g, Succeed(st).st, t, rest, reach);
    }
  }

  lemma NothingNext(st: State)
    requires st.stack == []
    ensures !Succeed(st).Running?
  {
  }

  lemma NextIs(st: State, c: int, d: int)
    requires st.stack != [] && c == Top(st.stack).tuple1 - (Top(st.stack).index - 1)
             && d == Top(st.stack).tuple2 - (Top(st.stack).index - 1)
    ensures Succeed(st) == Running(st.(x := Argument(st, c), y := Argument(st, d), stack := Popped(st.stack)))
  {
  }

  lemma RestParts(g: Layout, st: State, ts: seq<Spelling>, reach: set<Word>)
    requires Ready(g, st) && Rest(g, st, ts, reach) && st.stack != []
    ensures StoreOk(g, st.s, st.r) && Trees(g, st.s, ts, Words(st.stack)) && AllOnce(ts)
            && AllNodes(ts) !! st.table.Keys
    ensures Closed(g, st.s, reach) && SecondsIn(st.stack, reach) && Unseen(st.s, AllNodes(ts), reach)
    ensures Top(st.stack).index >= 1 && 0 <= Top(st.stack).tuple2 - (Top(st.stack).index - 1) < g.size
  {
    PoppedOk(g, st.stack);
  }

  /** Binding keeps the trees of what is still pending. */
  lemma TreesKeep(g: Layout, s: Store, ts: seq<Spelling>, words: seq<Word>, c: int, w: Word)
    requires Trees(g, s, ts, words) && Free(s, c) && Ref(c) !in AllNodes(ts)
    ensures Trees(g, s[c := w], ts, words)
  {
    hide Spells, Nodes, AllNodes;
    forall i | 0 <= i < |ts|
      ensures Spells(g, s[c := w], ts[i])
    {
      InAll(ts, i);
      SpellsKeeps(g, s, ts[i], c, w);
    }
  }

  lemma UnseenKeeps(s: Store, c: int, w: Word, nodes: set<Word>, reach: set<Word>)
    requires Unseen(s, nodes, reach) && !Unbound(w) && 0 <= c < |s|
    ensures Unseen(s[c := w], nodes, reach)
  {
  }

  /** The variable of the first term is bound: it is not reached from the
      second, so what is reached stays closed. */
  lemma BindFirst(g: Layout, st: State, me: int, t: Spelling, ts: seq<Spelling>, reach: set<Word>)
    requires Good(g, st) && Inv(g, st, t, ts, reach) && st.x.Ref? && st.x != st.y
    ensures Rest(g, BindTo(st, me, st.x.c, st.y), ts, reach)
  {
    var c := st.x.c;
    assert Ref(c) in Nodes(t);
    TreesKeep(g, st.s, ts, Words(st.stack), c, st.y);
    UnseenKeeps(st.s, c, st.y, AllNodes(ts), reach);
    hide Spells, Nodes, AllNodes, Words, SecondsIn, Trees, Once, AllOnce, StoreOk, KidsIn, Raised;
    ClosedKeeps(g, st.s, c, st.y, reach);
  }

  lemma ClosedKeeps(g: Layout, s: Store, c: int, w: Word, reach: set<Word>)
    requires Closed(g, s, reach) && 0 <= c < |s| && (Ref(c) in reach ==> In(reach, w))
    ensures Closed(g, s[c := w], reach)
  {
    hide KidsIn;
  }

  /** The variable of the second term is bound to the first: from now on the
      nodes of the first are reached too, and they are met no more. */
  lemma BindSecond(g: Layout, st: State, me: int, t: Spelling, ts: seq<Spelling>, reach: set<Word>)
    requires Good(g, st) && Inv(g, st, t, ts, reach) && st.y.Ref? && st.x != st.y
    ensures Rest(g, BindTo(st, me, st.y.c, st.x), ts, reach + Nodes(t))
  {
    var c, more := st.y.c, reach + Nodes(t);
    assert Ref(c) in reach;
    assert Ref(c) !in Nodes(t) && Ref(c) !in AllNodes(ts);
    TreesKeep(g, st.s, ts, Words(st.stack), c, st.x);
    assert st.x.Imm? || st.x in Nodes(t);
    BothClosed(g, st.s, t, reach);
    assert Unseen(st.s, AllNodes(ts), more);
    UnseenKeeps(st.s, c, st.x, AllNodes(ts), more);
    SecondsMore(st.stack, reach, more);
    hide Spells, Nodes, AllNodes, Words, SecondsIn, Trees, Once, AllOnce, StoreOk, KidsIn, Raised;
    ClosedKeeps(g, st.s, c, st.x, more);
  }

  lemma BothClosed(g: Layout, s: Store, t: Spelling, reach: set<Word>)
    requires Closed(g, s, reach) && Spells(g, s, t)
    ensures Closed(g, s, reach + Nodes(t))
  {
    hide Spells, Nodes;
    var more := reach + Nodes(t);
    forall c | Ref(c) in more && 0 <= c < |s| && !Unbound(s[c])
      ensures In(more, s[c])
    {
      if Ref(c) in Nodes(t) {
        TreeClosed(g, s, t, Ref(c));
      }
    }
    forall n | n in more && IsObj(g, n)
      ensures KidsIn(g, more, n)
    {
      if n in Nodes(t) {
        TreeClosed(g, s, t, n);
        assert KidsIn(g, Nodes(t), n);
      } else {
        assert KidsIn(g, reach, n);
      }
    }
  }

  lemma SecondsMore(stack: seq<Frame>, reach: set<Word>, more: set<Word>)
    requires SecondsIn(stack, reach) && reach <= more
    ensures SecondsIn(stack, more)
  {
    forall i | 0 <= i < |stack|
      ensures SecondIn(stack[i], more)
    {
      assert SecondIn(stack[i], reach);
      forall j | 0 <= j < stack[i].index
        ensures CellIn(stack[i].tuple2, j, more)
      {
        assert CellIn(stack[i].tuple2, j, reach);
      }
    }
  }

  /** Two objects are taken apart: the first is new, so it has no alias. */
  lemma TuplesInv(g: Layout, st: State, t: Spelling, ts: seq<Spelling>, reach: set<Word>) returns (u: Spelling,
    rest: seq<Spelling>)
    requires Good(g, st) && Inv(g, st, t, ts, reach) && AliasOk(g, st.x, st.y)
    ensures var o := Tuples(st, Width(ShapeOf(g, st.x)));
            o.Running? && Inv(g, o.st, u, rest, reach)
  {
    hide *;
    ObjectTree(g, st, t, ts, reach);
    GoodIs(g, st);
    var n := Width(ShapeOf(g, st.x));
    var f := Rows(st.x, st.y, n);
    RowsOk(g, st.x, st.y);
    RowsAre(st.x, st.y, n);
    var k, ks := t.kids[0], t.kids[1..];
    assert t.kids == [k] + ks;
    FirstTree(k, ks);
    rest := ks + ts;
    NodesSplit(ks, ts);
    u := Followed(st.s, k);
    FollowedIs(g, st.s, st.r, k);
    KidTrees(g, st.s, t, n, f);
    TreesBoth(g, st.s, ks, ts, RowWords(f), Words(st.stack));
    WordsPushed(st.stack, f);
    SecondsPushed(st, f, n, reach);
    CellTyped(g, Kid(st.y, 0));
    InIs(reach, Ref(Kid(st.y, 0)));
    DerefIn(g, st.s, st.r, Ref(Kid(st.y, 0)), reach);
    ArgumentIs(st, Kid(st.x, 0));
    ArgumentIs(st, Kid(st.y, 0));
    TakenInv(g, st, t, ts, reach, u, rest, f, n);
  }

  lemma RowsAre(x: Word, y: Word, n: int)
    requires (x.Lst? || x.Str?) && (y.Lst? || y.Str?)
    ensures Rows(x, y, n) == Frame(Kid(x, n - 1), Kid(y, n - 1), n - 1)
  {
  }

  lemma CellTyped(g: Layout, c: int)
    requires 0 <= c < g.size
    ensures Typed(g, Ref(c))
  {
  }

  lemma InIs(reach: set<Word>, t: Word)
    ensures In(reach, t) <==> t.Imm? || t in reach
  {
  }

  lemma ArgumentIs(st: State, c: int)
    ensures Argument(st, c) == Deref(st.s, st.r, Ref(c))
  {
  }

  /** What the invariant says of an object about to be taken apart. */
  lemma ObjectTree(g: Layout, st: State, t: Spelling, ts: seq<Spelling>, reach: set<Word>)
    requires Inv(g, st, t, ts, reach) && AliasOk(g, st.x, st.y)
    ensures (st.x.Lst? || st.x.Str?) && (st.y.Lst? || st.y.Str?)
    ensures IsObj(g, st.x) && IsObj(g, st.y) && IsObj(g, t.word) && t.word == st.x && Spells(g, st.s, t)
    ensures |t.kids| == Width(ShapeOf(g, st.x)) && (|t.kids| > 0 ==>
            t.kids[0].word == Ref(Kid(st.x, 0)) && Spells(g, st.s, t.kids[0]))
    ensures st.x !in st.table && st.x !in AllNodes(t.kids) && AllNodes(t.kids) !! AllNodes(ts) && AllOnce(t.kids)
    ensures Trees(g, st.s, ts, Words(st.stack)) && AllOnce(ts) && Closed(g, st.s, reach) && SecondsIn(st.stack, reach)
    ensures forall i :: 0 <= i < Width(ShapeOf(g, st.y)) ==> Ref(Kid(st.y, i)) in reach
    ensures Width(ShapeOf(g, st.y)) == Width(ShapeOf(g, st.x))
  {
    assert st.x in Nodes(t) && AllNodes(t.kids) <= Nodes(t);
    hide Trees, SecondsIn, Words, Unseen, AllOnce;
    assert KidsIn(g, reach, st.y);
  }

  lemma KidTrees(g: Layout, s: Store, t: Spelling, n: int, f: Frame)
    requires IsObj(g, t.word) && Spells(g, s, t) && n == Width(ShapeOf(g, t.word)) >= 1
    requires f.tuple1 == Kid(t.word, n - 1) && f.index == n - 1
    ensures |t.kids| == n && Trees(g, s, t.kids[1..], RowWords(f))
  {
    var rest := t.kids[1..];
    forall i | 0 <= i < |rest|
      ensures rest[i].word == RowWords(f)[i] && Spells(g, s, rest[i])
    {
      assert rest[i] == t.kids[i + 1];
    }
  }

  lemma SecondsPushed(st: State, f: Frame, n: int, reach: set<Word>)
    requires SecondsIn(st.stack, reach) && (st.y.Lst? || st.y.Str?) && f.tuple2 == Kid(st.y, n - 1) && f.index == n - 1
    requires forall i :: 0 <= i < n ==> Ref(Kid(st.y, i)) in reach
    ensures SecondsIn(Pushed(st.stack, f), reach)
  {
    forall j | 0 <= j < f.index
      ensures CellIn(f.tuple2, j, reach)
    {
      assert f.tuple2 - j == Kid(st.y, n - 1 - j);
    }
    assert SecondIn(f, reach);
  }

  lemma TakenInv(g: Layout, st: State, t: Spelling, ts: seq<Spelling>, reach: set<Word>, u: Spelling,
    rest: seq<Spelling>, f: Frame, n: int)
    requires Inv(g, st, t, ts, reach) && AliasOk(g, st.x, st.y) && st.x !in st.table && n == Width(ShapeOf(g, st.x))
             && f == Rows(st.x, st.y, n)
    requires Trees(g, st.s, rest, Words(Pushed(st.stack, f))) && SecondsIn(Pushed(st.stack, f), reach)
    requires AllOnce(rest) && Nodes(u) + AllNodes(rest) <= AllNodes(t.kids) + AllNodes(ts) && Nodes(u) !! AllNodes(rest)
    requires u.word == Argument(st, f.tuple1 - f.index) && Spells(g, st.s, u) && Once(u)
             && In(reach, Argument(st, f.tuple2 - f.index))
    ensures Tuples(st, n).Running? && Inv(g, Tuples(st, n).st, u, rest, reach)
  {
    hide *;
    ObjectTree(g, st, t, ts, reach);
    InvParts(g, st, t, ts, reach);
    TuplesAre(st, n, f);
    var w := Tuples(st, n).st;
    assert w.table.Keys == st.table.Keys + {st.x};
    UnseenLess(st.s, Nodes(t), AllNodes(ts), Nodes(u), AllNodes(rest), reach);
    KeysApart(AllNodes(t.kids), AllNodes(ts), Nodes(u), AllNodes(rest), st.table.Keys, st.x);
    FoldInv(g, w, u, rest, reach);
  }

  lemma InvParts(g: Layout, st: State, t: Spelling, ts: seq<Spelling>, reach: set<Word>)
    requires Inv(g, st, t, ts, reach) && !st.x.Imm?
    ensures AllNodes(t.kids) <= Nodes(t) && st.x in Nodes(t) && st.x !in AllNodes(t.kids) && Nodes(t) !! AllNodes(ts)
    ensures Nodes(t) !! st.table.Keys && AllNodes(ts) !! st.table.Keys
    ensures Unseen(st.s, Nodes(t), reach) && Unseen(st.s, AllNodes(ts), reach) && Closed(g, st.s, reach)
  {
  }

  lemma TuplesAre(st: State, n: int, f: Frame)
    requires (st.x.Lst? || st.x.Str?) && (st.y.Lst? || st.y.Str?) && st.x !in st.table && f == Rows(st.x, st.y, n)
    ensures Tuples(st, n) == Running(st.(table := st.table[st.x := st.y], stack := Pushed(st.stack, f),
                                         x := Argument(st, f.tuple1 - f.index), y := Argument(st, f.tuple2 - f.index)))
  {
  }

  lemma UnseenLess(s: Store, a: set<Word>, b: set<Word>, c: set<Word>, d: set<Word>, reach: set<Word>)
    requires Unseen(s, a, reach) && Unseen(s, b, reach) && c + d <= a + b
    ensures Unseen(s, c, reach) && Unseen(s, d, reach)
  {
  }

  lemma KeysApart(a: set<Word>, b: set<Word>, c: set<Word>, d: set<Word>, keys: set<Word>, x: Word)
    requires a !! keys && b !! keys && x !in a && x !in b && c + d <= a + b
    ensures c !! (keys + {x}) && d !! (keys + {x})
  {
  }

  lemma FoldInv(g: Layout, st: State, t: Spelling, ts: seq<Spelling>, reach: set<Word>)
    requires Trees(g, st.s, ts, Words(st.stack)) && AllOnce(ts) && AllNodes(ts) !! st.table.Keys
    requires Closed(g, st.s, reach) && SecondsIn(st.stack, reach) && Unseen(st.s, AllNodes(ts), reach)
    requires t.word == st.x && Spells(g, st.s, t) && Once(t) && Nodes(t) !! AllNodes(ts)
    requires Nodes(t) !! st.table.Keys && In(reach, st.y) && Unseen(st.s, Nodes(t), reach)
    ensures Inv(g, st, t, ts, reach)
  {
  }

  /** One round keeps the invariant. */
  lemma StepInv(g: Layout, me: int, st: State, t: Spelling, ts: seq<Spelling>, reach: set<Word>)
    returns (u: Spelling, rest: seq<Spelling>, more: set<Word>)
    requires Good(g, st) && Inv(g, st, t, ts, reach)
    ensures Step(g, me, st).Running? ==> Inv(g, Step(g, me, st).st, u, rest, more)
  {
    hide Inv, Rest, LayoutOk, Deref, Raised;
    u, rest, more := t, ts, reach;
    if st.x == st.y {
      RestOf(g, st, t, ts, reach);
      u, rest := SucceedInv(g, st, ts, reach);
    } else if st.y.Ref? && !(st.x.Ref? && BindsFirst(st.s, me, st.x.c, st.y.c)) {
      BindSecond(g, st, me, t, ts, reach);
      BindToOk(g, st, me, st.y.c, st.x);
      more := reach + Nodes(t);
      u, rest := SucceedInv(g, BindTo(st, me, st.y.c, st.x), ts, more);
    } else if st.x.Ref? {
      BindFirst(g, st, me, t, ts, reach);
      BindToOk(g, st, me, st.x.c, st.y);
      u, rest := SucceedInv(g, BindTo(st, me, st.x.c, st.y), ts, reach);
    } else if IsObj(g, st.x) && IsObj(g, st.y) && ShapeOf(g, st.x) == ShapeOf(g, st.y) {
      u, rest := TuplesInv(g, st, t, ts, reach);
    }
  }

  lemma RestOf(g: Layout, st: State, t: Spelling, ts: seq<Spelling>, reach: set<Word>)
    requires Inv(g, st, t, ts, reach)
    ensures Rest(g, st, ts, reach)
  {
  }

  lemma InvNoCircle(g: Layout, st: State, t: Spelling, ts: seq<Spelling>, reach: set<Word>)
    requires Inv(g, st, t, ts, reach)
    ensures !Circles(g, st)
  {
    if AliasOk(g, st.x, st.y) {
      assert st.x in Nodes(t);
      assert !GoesOn(st, 0);
    }
  }

  lemma {:induction false} RunInv(g: Layout, me: int, st: State, t: Spelling, ts: seq<Spelling>, reach: set<Word>,
    n: nat)
    requires Good(g, st) && Inv(g, st, t, ts, reach)
    ensures !CirclesAfter(g, me, st, n)
    decreases n
  {
    hide *;
    IterateOne(g, me, st, n);
    IterateOne(g, me, st, 0);
    CirclesAfterIs(g, me, st, n);
    if n == 0 {
      InvNoCircle(g, st, t, ts, reach);
    } else if Step(g, me, st).Running? {
      var u, rest, more := StepInv(g, me, st, t, ts, reach);
      var w := Step(g, me, st).st;
      RunInv(g, me, w, u, rest, more, n - 1);
      CirclesAfterIs(g, me, w, n - 1);
    }
  }

  lemma CirclesAfterIs(g: Layout, me: int, st: State, n: nat)
    requires Good(g, st)
    ensures CirclesAfter(g, me, st, n) <==>
            Iterate(g, me, Running(st), n).Running? && Circles(g, Iterate(g, me, Running(st), n).st)
  {
  }

  /** Unification ends whenever the first term is a tree apart from the second.
      The condition is on the two terms and the store alone. */
  lemma TreeEnds(g: Layout, me: int, s: Store, r: seq<nat>, trail: seq<Entry>, x: Word, y: Word)
    requires StoreOk(g, s, r) && Final(g, s, x) && Final(g, s, y) && TreeApart(g, s, x, y)
    ensures exists rounds: nat :: !Iterate(g, me, Running(Start(s, r, trail, x, y)), rounds).Running?
  {
    var st := Start(s, r, trail, x, y);
    var t, reach :| Apart(g, s, x, y, t, reach);
    assert Inv(g, st, t, [], reach);
    hide Inv, StoreOk, Circles, CirclesAfter;
    forall n: nat
      ensures !CirclesAfter(g, me, st, n)
    {
      RunInv(g, me, st, t, [], reach, n);
    }
    EndsIff(g, me, st);
  }

  /** The condition is not necessary: f(B, A, A) unified with itself ends at once,
      although A is reached twice. */
  lemma ConverseFails()
    ensures !TreeApart(LoopLayout(), LoopStore(), Str(6), Str(6))
    ensures StoreOk(LoopLayout(), LoopStore(), LoopRanks()) && Final(LoopLayout(), LoopStore(), Str(6))
    ensures Iterate(LoopLayout(), 0, Running(Start(LoopStore(), LoopRanks(), [], Str(6), Str(6))), 1).Unified?
  {
    LoopOk();
    var st := Start(LoopStore(), LoopRanks(), [], Str(6), Str(6));
    IterateOne(LoopLayout(), 0, st, 1);
    if TreeApart(LoopLayout(), LoopStore(), Str(6), Str(6)) {
      var t, reach :| Apart(LoopLayout(), LoopStore(), Str(6), Str(6), t, reach);
      Shared(t);
    }
  }

  lemma Shared(t: Spelling)
    requires t.word == Str(6) && Spells(LoopLayout(), LoopStore(), t)
    ensures !Once(t)
  {
    var a, b := t.kids[1], t.kids[2];
    assert a.word == Ref(8) && b.word == Ref(9) && a.kids[0].word == Lst(0) && b.kids[0].word == Lst(0);
    InAll(a.kids, 0);
    InAll(b.kids, 0);
    assert Lst(0) in Nodes(a) && Lst(0) in Nodes(b);
    assert t.kids == [t.kids[0]] + [a, b] && [a, b] == [a] + [b];
    NodesSplit([t.kids[0]], [a, b]);
    FirstTree(a, [b]);
    OneTree(b);
  }
}
