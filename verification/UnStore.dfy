/** Terms as the abstract machine stores them, the store of variable cells, and
    what a store means: the valuations by (possibly infinite) trees that solve
    it, given by their truncations at every depth. */
module UnStore {

  /** A word: an immediate, a reference to a cell, a list cell, a structure, or
      the contents of an unbound cell, which tell the and-box it is local to.
      A Uva has no suspension list, an Sva has one. */
  datatype Word = Imm(n: int) | Ref(c: int) | Lst(a: int) | Str(a: int) | Uva(home: int) | Sva(home: int)

  datatype Shape = Cons | Fun(name: int, arity: int)

  /** The heap objects: where list cells begin and what functor a structure has.
      The arguments of an object are cells of the store. */
  datatype Layout = Layout(size: int, pairs: set<int>, strs: map<int, Shape>)

  type Store = seq<Word>

  predicate IsObj(g: Layout, t: Word) {
    match t
    case Lst(a) => a in g.pairs
    case Str(a) => a in g.strs && g.strs[a].Fun?
    case _ => false
  }

  function ShapeOf(g: Layout, t: Word): Shape
    requires IsObj(g, t)
  {
    if t.Lst? then Cons else g.strs[t.a]
  }

  function Width(s: Shape): int {
    if s.Cons? then 2 else s.arity
  }

  /** The cell of argument i. */
  function Kid(t: Word, i: int): int
    requires t.Lst? || t.Str?
  {
    if t.Lst? then t.a + i else t.a + 1 + i
  }

  ghost predicate ObjOk(g: Layout, t: Word) {
    IsObj(g, t) ==> Width(ShapeOf(g, t)) >= 1 && forall i :: 0 <= i < Width(ShapeOf(g, t)) ==> 0 <= Kid(t, i) < g.size
  }

  ghost predicate LayoutOk(g: Layout) {
    forall t :: ObjOk(g, t)
  }

  predicate Unbound(w: Word) {
    w.Uva? || w.Sva?
  }

  /** A word that can be passed around: no contents of an unbound cell. */
  predicate Typed(g: Layout, t: Word) {
    match t
    case Imm(_) => true
    case Ref(c) => 0 <= c < g.size
    case Lst(_) => IsObj(g, t)
    case Str(_) => IsObj(g, t)
    case Uva(_) => false
    case Sva(_) => false
  }

  /** Chains of references end: r falls along them. */
  ghost predicate Ranked(s: Store, r: seq<nat>) {
    |r| == |s| && forall c :: 0 <= c < |s| && s[c].Ref? && 0 <= s[c].c < |s| ==> r[s[c].c] < r[c]
  }

  ghost predicate StoreOk(g: Layout, s: Store, r: seq<nat>) {
    && |s| == g.size && LayoutOk(g) && Ranked(s, r)
    && forall c :: 0 <= c < |s| ==> Unbound(s[c]) || Typed(g, s[c])
  }

  /** An unbound cell. */
  predicate Free(s: Store, c: int) {
    0 <= c < |s| && Unbound(s[c])
  }

  function RankOf(r: seq<nat>, t: Word): int {
    if t.Ref? && 0 <= t.c < |r| then r[t.c] + 1 else 0
  }

  /** Follows references to a word that is none, or to an unbound cell. */
  function Deref(s: Store, r: seq<nat>, t: Word): Word
    decreases RankOf(r, t)
  {
    if t.Ref? && 0 <= t.c < |s| && !Unbound(s[t.c]) && RankOf(r, s[t.c]) < RankOf(r, t) then Deref(s, r, s[t.c]) else t
  }

  /** What a dereferenced word is. */
  predicate Final(g: Layout, s: Store, t: Word) {
    Typed(g, t) && (t.Ref? ==> Free(s, t.c))
  }

  lemma {:induction false} DerefFinal(g: Layout, s: Store, r: seq<nat>, t: Word)
    requires StoreOk(g, s, r) && Typed(g, t)
    ensures Final(g, s, Deref(s, r, t)) && RankOf(r, Deref(s, r, t)) <= RankOf(r, t)
    decreases RankOf(r, t)
  {
    if t.Ref? && !Unbound(s[t.c]) {
      DerefFinal(g, s, r, s[t.c]);
    }
  }

  lemma DerefStep(g: Layout, s: Store, r: seq<nat>, c: int)
    requires StoreOk(g, s, r) && 0 <= c < |s| && !Unbound(s[c])
    ensures Typed(g, s[c]) && RankOf(r, s[c]) < RankOf(r, Ref(c)) && Deref(s, r, Ref(c)) == Deref(s, r, s[c])
  {
  }

  // ------------------------------------------------ meaning

  /** A tree cut off at some depth. */
  datatype Tree = Cut | Leaf(n: int) | Node(shape: Shape, kids: seq<Tree>)

  /** A valuation: for every cell and every depth the tree of the cell cut off
      at that depth. */
  type Val = imap<(int, int), Tree>

  function At(v: Val, c: int, d: int): Tree {
    if d >= 0 && (c, d) in v then v[(c, d)] else Cut
  }

  function TreeOf(g: Layout, v: Val, t: Word, d: int): Tree {
    match t
    case Ref(c) => At(v, c, d)
    case Imm(n) => if d <= 0 then Cut else Leaf(n)
    case Uva(_) => Cut
    case Sva(_) => Cut
    case _ =>
      if d <= 0 || !IsObj(g, t) then Cut
      else Node(ShapeOf(g, t), Kids(v, t, Width(ShapeOf(g, t)), d - 1))
  }

  function Kids(v: Val, t: Word, n: int, d: int): (k: seq<Tree>)
    requires t.Lst? || t.Str?
    ensures |k| == (if n >= 0 then n else 0) && forall i :: 0 <= i < |k| ==> k[i] == At(v, Kid(t, i), d)
  {
    if n <= 0 then [] else Kids(v, t, n - 1, d) + [At(v, Kid(t, n - 1), d)]
  }

  /** v solves the store: a bound cell has the tree of its contents. */
  ghost predicate Solves(g: Layout, v: Val, s: Store) {
    forall c, d :: 0 <= c < |s| && !Unbound(s[c]) ==> At(v, c, d) == TreeOf(g, v, s[c], d)
  }

  predicate SameAt(g: Layout, v: Val, x: Word, y: Word, d: int) {
    TreeOf(g, v, x, d) == TreeOf(g, v, y, d)
  }

  /** x and y have the same tree. */
  ghost predicate Same(g: Layout, v: Val, x: Word, y: Word) {
    forall d :: SameAt(g, v, x, y, d)
  }

  lemma {:induction false} DerefSame(g: Layout, v: Val, s: Store, r: seq<nat>, t: Word)
    requires StoreOk(g, s, r) && Typed(g, t) && Solves(g, v, s)
    ensures Same(g, v, Deref(s, r, t), t)
    decreases RankOf(r, t)
  {
    if t.Ref? && !Unbound(s[t.c]) {
      DerefStep(g, s, r, t.c);
      DerefSame(g, v, s, r, s[t.c]);
      forall d
        ensures SameAt(g, v, Deref(s, r, t), t, d)
      {
        assert SameAt(g, v, Deref(s, r, s[t.c]), s[t.c], d);
        assert At(v, t.c, d) == TreeOf(g, v, s[t.c], d);
      }
    }
  }

  /** Two objects with the same tree have one shape and pairwise the same
      arguments. */
  lemma SameKids(g: Layout, v: Val, x: Word, y: Word, i: int)
    requires LayoutOk(g) && Same(g, v, x, y) && IsObj(g, x) && IsObj(g, y)
    ensures ShapeOf(g, x) == ShapeOf(g, y)
    ensures 0 <= i < Width(ShapeOf(g, x)) ==> Same(g, v, Ref(Kid(x, i)), Ref(Kid(y, i)))
  {
    assert SameAt(g, v, x, y, 1);
    if 0 <= i < Width(ShapeOf(g, x)) {
      forall d
        ensures SameAt(g, v, Ref(Kid(x, i)), Ref(Kid(y, i)), d)
      {
        if d >= 0 {
          assert SameAt(g, v, x, y, d + 1);
          var n := Width(ShapeOf(g, x));
          assert Kids(v, x, n, d)[i] == Kids(v, y, n, d)[i];
        }
      }
    }
  }
}
