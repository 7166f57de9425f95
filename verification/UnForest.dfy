/** Why entering a suspended and-box never unifies two objects: its equations
    form a forest, and every equation joins a class that has only variables. */
module UnForest {
  import opened UnStore
  import opened UnUnify
  import opened UnMeaning
  import opened UnLog
  import opened UnSuspend

  /** Equations over unbound variables, one for each, that fall along the ranks
      the bindings of the store fall along. */
  ghost predicate Forest(g: Layout, s: Store, r: seq<nat>, us: seq<Unifier>) {
    && StoreOk(g, s, r)
    && (forall i :: 0 <= i < |us| ==> Edge(g, s, r, us[i]))
    && (forall i, j :: 0 <= i < j < |us| ==> us[i].arg1 != us[j].arg1)
  }

  predicate Edge(g: Layout, s: Store, r: seq<nat>, u: Unifier) {
    |r| == |s| == g.size && UnifierOk(g, u) && Free(s, u.arg1) && RankOf(r, u.arg2) <= r[u.arg1]
  }

  /** The store with the first i equations bound as they stand. */
  function Bound(s: Store, us: seq<Unifier>, i: int): (t: Store)
    ensures |t| == |s|
    decreases i
  {
    if 0 < i <= |us| && 0 <= us[i - 1].arg1 < |s| then Bound(s, us, i - 1)[us[i - 1].arg1 := us[i - 1].arg2] else s
  }

  lemma {:induction false} BoundOk(g: Layout, s: Store, r: seq<nat>, us: seq<Unifier>, i: int)
    requires Forest(g, s, r, us) && 0 <= i <= |us|
    ensures StoreOk(g, Bound(s, us, i), r)
    ensures forall j :: i <= j < |us| ==> Free(Bound(s, us, i), us[j].arg1)
    decreases i
  {
    if i > 0 {
      BoundOk(g, s, r, us, i - 1);
      assert Edge(g, s, r, us[i - 1]);
    } else {
      assert forall j :: 0 <= j < |us| ==> Edge(g, s, r, us[j]);
    }
  }

  /** Binding an unbound cell: what led to the cell now leads where its term
      does. */
  lemma {:induction false} BindDeref(g: Layout, s: Store, r: seq<nat>, q: seq<nat>, c: int, t: Word, x: Word)
    requires StoreOk(g, s, r) && Free(s, c) && Typed(g, t) && StoreOk(g, s[c := t], q) && Typed(g, x)
             && Deref(s, r, t) != Ref(c)
    ensures Deref(s[c := t], q, x) == if Deref(s, r, x) == Ref(c) then Deref(s, r, t) else Deref(s, r, x)
    decreases RankOf(q, x)
  {
    var w := s[c := t];
    if x.Ref? {
      if x.c == c {
        DerefStep(g, w, q, c);
        BindDeref(g, s, r, q, c, t, t);
      } else if !Unbound(s[x.c]) {
        DerefStep(g, w, q, x.c);
        DerefStep(g, s, r, x.c);
        BindDeref(g, s, r, q, c, t, s[x.c]);
      }
    }
  }

  // ------------------------------------------------ two stores with the same classes

  /** In s and in v the same words lead to the same place, and to the same term
      where it is a term. */
  ghost predicate Alike(g: Layout, s: Store, r: seq<nat>, v: Store, q: seq<nat>) {
    forall x, y :: Typed(g, x) && Typed(g, y) ==> AlikeAt(s, r, v, q, x, y)
  }

  predicate AlikeAt(s: Store, r: seq<nat>, v: Store, q: seq<nat>, x: Word, y: Word) {
    && (Deref(s, r, x) == Deref(s, r, y) <==> Deref(v, q, x) == Deref(v, q, y))
    && (!Deref(s, r, x).Ref? || !Deref(v, q, x).Ref? ==> Deref(s, r, x) == Deref(v, q, x))
  }

  /** What led to a leads to b now; everything else leads where it did. */
  ghost predicate Moved(g: Layout, s: Store, r: seq<nat>, s2: Store, r2: seq<nat>, a: Word, b: Word) {
    forall x :: Typed(g, x) ==> MovedAt(s, r, s2, r2, a, b, x)
  }

  predicate MovedAt(s: Store, r: seq<nat>, s2: Store, r2: seq<nat>, a: Word, b: Word, x: Word) {
    Deref(s2, r2, x) == if Deref(s, r, x) == a then b else Deref(s, r, x)
  }

  /** The classes of a variable a and of b are joined, one way or the other. */
  ghost predicate Joins(g: Layout, s: Store, r: seq<nat>, s2: Store, r2: seq<nat>, a: Word, b: Word) {
    Moved(g, s, r, s2, r2, a, b) || (b.Ref? && Moved(g, s, r, s2, r2, b, a))
  }

  /** Joining the same two classes in two stores that are alike. */
  lemma JoinAlike(g: Layout, s: Store, r: seq<nat>, v: Store, q: seq<nat>, s2: Store, r2: seq<nat>, v2: Store,
    c: int, t: Word)
    requires Alike(g, s, r, v, q) && Typed(g, Ref(c)) && Typed(g, t)
    requires Deref(v, q, Ref(c)) == Ref(c) && Deref(v, q, t) != Ref(c)
    requires Joins(g, s, r, s2, r2, Deref(s, r, Ref(c)), Deref(s, r, t))
             && Moved(g, v, q, v2, q, Ref(c), Deref(v, q, t))
    ensures Alike(g, s2, r2, v2, q)
  {
    hide Deref, Typed;
    forall x, y | Typed(g, x) && Typed(g, y)
      ensures AlikeAt(s2, r2, v2, q, x, y)
    {
      JoinAlikeAt(g, s, r, v, q, s2, r2, v2, c, t, x, y);
    }
  }

  lemma JoinAlikeAt(g: Layout, s: Store, r: seq<nat>, v: Store, q: seq<nat>, s2: Store, r2: seq<nat>, v2: Store,
    c: int, t: Word,
                    x: Word, y: Word)
    requires Alike(g, s, r, v, q) && Typed(g, Ref(c)) && Typed(g, t) && Typed(g, x) && Typed(g, y)
    requires Deref(v, q, Ref(c)) == Ref(c) && Deref(v, q, t) != Ref(c)
    requires Joins(g, s, r, s2, r2, Deref(s, r, Ref(c)), Deref(s, r, t))
             && Moved(g, v, q, v2, q, Ref(c), Deref(v, q, t))
    ensures AlikeAt(s2, r2, v2, q, x, y)
  {
    hide *;
    AlikeIs(g, s, r, v, q, x, y);
    AlikeIs(g, s, r, v, q, x, Ref(c));
    AlikeIs(g, s, r, v, q, x, t);
    AlikeIs(g, s, r, v, q, y, Ref(c));
    AlikeIs(g, s, r, v, q, y, t);
    AlikeIs(g, s, r, v, q, Ref(c), t);
    AlikeIs(g, s, r, v, q, t, Ref(c));
    var a, b, e := Deref(s, r, Ref(c)), Deref(s, r, t), Deref(v, q, t);
    MovedIs(g, v, q, v2, q, Ref(c), e, x);
    MovedIs(g, v, q, v2, q, Ref(c), e, y);
    var there := JoinsIs(g, s, r, s2, r2, a, b);
    var from, to := if there then a else b, if there then b else a;
    MovedIs(g, s, r, s2, r2, from, to, x);
    MovedIs(g, s, r, s2, r2, from, to, y);
    JoinWords(Deref(s, r, x), Deref(s, r, y), Deref(v, q, x), Deref(v, q, y), a, b, Ref(c), e, from, to);
    FoldAlike(s2, r2, v2, q, x, y);
  }

  /** x and y are equal in the one store exactly when they are in the other, and
      x is the same term where it is one. */
  predicate SamePair(x: Word, y: Word, x2: Word, y2: Word) {
    (x == y <==> x2 == y2) && (!x.Ref? || !x2.Ref? ==> x == x2)
  }

  lemma AlikeIs(g: Layout, s: Store, r: seq<nat>, v: Store, q: seq<nat>, x: Word, y: Word)
    requires Alike(g, s, r, v, q) && Typed(g, x) && Typed(g, y)
    ensures SamePair(Deref(s, r, x), Deref(s, r, y), Deref(v, q, x), Deref(v, q, y))
  {
    assert AlikeAt(s, r, v, q, x, y);
  }

  lemma FoldAlike(s: Store, r: seq<nat>, v: Store, q: seq<nat>, x: Word, y: Word)
    requires SamePair(Deref(s, r, x), Deref(s, r, y), Deref(v, q, x), Deref(v, q, y))
    ensures AlikeAt(s, r, v, q, x, y)
  {
  }

  lemma MovedIs(g: Layout, s: Store, r: seq<nat>, s2: Store, r2: seq<nat>, a: Word, b: Word, x: Word)
    requires Moved(g, s, r, s2, r2, a, b) && Typed(g, x)
    ensures Deref(s2, r2, x) == Move(a, b, Deref(s, r, x))
  {
    assert MovedAt(s, r, s2, r2, a, b, x);
  }

  lemma JoinsIs(g: Layout, s: Store, r: seq<nat>, s2: Store, r2: seq<nat>, a: Word, b: Word) returns (there: bool)
    requires Joins(g, s, r, s2, r2, a, b)
    ensures if there then Moved(g, s, r, s2, r2, a, b) else b.Ref? && Moved(g, s, r, s2, r2, b, a)
  {
    there := Moved(g, s, r, s2, r2, a, b);
  }

  function Move(a: Word, b: Word, x: Word): Word {
    if x == a then b else x
  }

  /** The same on the four words two words lead to, in the one store and in the
      other; the class of a, in the other store of c, joins that of b, or e. */
  lemma JoinWords(x: Word, y: Word, x2: Word, y2: Word, a: Word, b: Word, c: Word, e: Word, from: Word, to: Word)
    requires SamePair(x, y, x2, y2) && SamePair(x, a, x2, c) && SamePair(x, b, x2, e) && SamePair(y, a, y2, c)
             && SamePair(y, b, y2, e)
    requires SamePair(a, b, c, e) && SamePair(b, a, e, c) && c != e && c.Ref?
    requires (from == a && to == b) || (b.Ref? && from == b && to == a)
    ensures SamePair(Move(from, to, x), Move(from, to, y), Move(c, e, x2), Move(c, e, y2))
  {
  }

  lemma BindMoves(g: Layout, s: Store, r: seq<nat>, q: seq<nat>, c: int, t: Word)
    requires StoreOk(g, s, r) && Free(s, c) && Typed(g, t) && StoreOk(g, s[c := t], q) && Deref(s, r, t) != Ref(c)
    ensures Moved(g, s, r, s[c := t], q, Ref(c), Deref(s, r, t))
  {
    forall x | Typed(g, x)
      ensures MovedAt(s, r, s[c := t], q, Ref(c), Deref(s, r, t), x)
    {
      BindDeref(g, s, r, q, c, t, x);
    }
  }

  // ------------------------------------------------ the next equation

  /** The variable of the next equation leads to a variable, and its term
      elsewhere. */
  lemma NextEdge(g: Layout, s0: Store, r0: seq<nat>, us: seq<Unifier>, i: int, s: Store, r: seq<nat>)
    requires Forest(g, s0, r0, us) && 0 <= i < |us| && Alike(g, s, r, Bound(s0, us, i), r0)
    ensures var v := Bound(s0, us, i);
            && Free(v, us[i].arg1) && Typed(g, Ref(us[i].arg1)) && Typed(g, us[i].arg2)
            && Deref(v, r0, Ref(us[i].arg1)) == Ref(us[i].arg1) && Deref(v, r0, us[i].arg2) != Ref(us[i].arg1)
            && Deref(s, r, Ref(us[i].arg1)).Ref? && Deref(s, r, Ref(us[i].arg1)) != Deref(s, r, us[i].arg2)
  {
    var v, c, t := Bound(s0, us, i), us[i].arg1, us[i].arg2;
    BoundOk(g, s0, r0, us, i);
    assert Edge(g, s0, r0, us[i]);
    assert Typed(g, Ref(c)) && Typed(g, t);
    DerefAvoids(g, v, r0, c, v[c], t);
    assert AlikeAt(s, r, v, r0, Ref(c), t);
  }

  /** After the equation has been dealt with the stores are alike again. */
  lemma EdgeDone(g: Layout, s0: Store, r0: seq<nat>, us: seq<Unifier>, i: int, s: Store, r: seq<nat>, s2: Store,
    r2: seq<nat>)
    requires Forest(g, s0, r0, us) && 0 <= i < |us| && Alike(g, s, r, Bound(s0, us, i), r0)
    requires Joins(g, s, r, s2, r2, Deref(s, r, Ref(us[i].arg1)), Deref(s, r, us[i].arg2))
    ensures Alike(g, s2, r2, Bound(s0, us, i + 1), r0)
  {
    hide *;
    var v, c, t := Bound(s0, us, i), us[i].arg1, us[i].arg2;
    NextEdge(g, s0, r0, us, i, s, r);
    BoundOk(g, s0, r0, us, i);
    BoundOk(g, s0, r0, us, i + 1);
    BoundNext(g, s0, r0, us, i);
    BindMoves(g, v, r0, r0, c, t);
    JoinAlike(g, s, r, v, r0, s2, r2, v[c := t], c, t);
  }

  lemma BoundNext(g: Layout, s: Store, r: seq<nat>, us: seq<Unifier>, i: int)
    requires Forest(g, s, r, us) && 0 <= i < |us|
    ensures 0 <= us[i].arg1 < |Bound(s, us, i)| && Bound(s, us, i + 1) == Bound(s, us, i)[us[i].arg1 := us[i].arg2]
  {
    assert Edge(g, s, r, us[i]);
  }

  lemma AlikeStart(g: Layout, s: Store, r: seq<nat>, us: seq<Unifier>)
    ensures Alike(g, s, r, Bound(s, us, 0), r)
  {
    forall x, y | Typed(g, x) && Typed(g, y)
      ensures AlikeAt(s, r, Bound(s, us, 0), r, x, y)
    {
    }
  }

  // ------------------------------------------------ one round

  /** A variable and another term: one round unifies them, by binding one of the
      two. */
  lemma OneRound(g: Layout, me: int, st: State, n: nat)
    requires Good(g, st) && st.stack == [] && st.table == map[] && st.x.Ref? && st.x != st.y && n >= 1
    ensures var o, w := RunFor(g, me, st, n), Last(g, me, st, n);
            && o.Unified? && StoreOk(g, w.s, w.r) && Joins(g, st.s, st.r, w.s, w.r, st.x, st.y)
  {
    IterateOne(g, me, st, n);
    var second := st.y.Ref? && !BindsFirst(st.s, me, st.x.c, st.y.c);
    var c, t := if second then st.y.c else st.x.c, if second then st.x else st.y;
    BindToOk(g, st, me, c, t);
    var w := BindTo(st, me, c, t);
    assert Step(g, me, st) == Unified(w);
    assert Deref(st.s, st.r, t) == t;
    BindMoves(g, st.s, st.r, w.r, c, t);
  }

  // ------------------------------------------------ suspending leaves a forest

  /** Unbound cells stay unbound. */
  ghost predicate Frees(s: Store, t: Store) {
    |s| == |t| && forall c :: Free(s, c) ==> Free(t, c)
  }

  ghost predicate AllFree(s: Store, us: seq<Unifier>) {
    forall i :: 0 <= i < |us| ==> Free(s, us[i].arg1)
  }

  predicate FallsAt(r: seq<nat>, u: Unifier) {
    0 <= u.arg1 < |r| && RankOf(r, u.arg2) <= r[u.arg1]
  }

  ghost predicate Falls(r: seq<nat>, us: seq<Unifier>) {
    forall i :: 0 <= i < |us| ==> FallsAt(r, us[i])
  }

  lemma FreesTwice(s: Store, t: Store, u: Store)
    requires Frees(s, t) && Frees(t, u)
    ensures Frees(s, u)
  {
  }

  lemma UnbindFrees(s: Store, c: int, w: Word)
    requires 0 <= c < |s| && Unbound(w)
    ensures Frees(s, s[c := w]) && Free(s[c := w], c)
  {
  }

  lemma FreeStays(s: Store, t: Store, us: seq<Unifier>)
    requires AllFree(s, us) && Frees(s, t)
    ensures AllFree(t, us)
  {
  }

  lemma FreeMore(s: Store, us: seq<Unifier>, i: int, ws: seq<Unifier>)
    requires 0 <= i < |us| == |ws| && AllFree(s, us[..i]) && Free(s, ws[i].arg1) && forall j :: 0 <= j < i ==>
             ws[j] == us[j]
    ensures AllFree(s, ws[..i + 1])
  {
    var a, b := us[..i], ws[..i + 1];
    forall j | 0 <= j < |b|
      ensures Free(s, b[j].arg1)
    {
      if j < i {
        assert a[j] == b[j];
      }
    }
  }

  lemma FallsMore(r: seq<nat>, u: Unifier, us: seq<Unifier>)
    requires FallsAt(r, u) && Falls(r, us)
    ensures Falls(r, [u] + us)
  {
  }

  /** What a bound cell leads to ranks no higher than the cell. */
  lemma DerefFalls(g: Layout, s: Store, r: seq<nat>, c: int)
    requires StoreOk(g, s, r) && 0 <= c < |s| && !Unbound(s[c])
    ensures FallsAt(r, Unifier(c, Deref(s, r, s[c]))) && FallsAt(r, Unifier(c, s[c]))
  {
    DerefStep(g, s, r, c);
    DerefFinal(g, s, r, s[c]);
  }

  lemma SwappedFalls(g: Layout, entry: Store, s: Store, r: seq<nat>, us: seq<Unifier>, rest: seq<Entry>,
    ws: seq<Unifier>, mine: set<int>)
    requires StoreOk(g, s, r) && Logged(entry, s, Entries(us) + rest, mine) && SwappedBack(us, ws, s)
    ensures Falls(r, ws)
  {
    var log := Entries(us) + rest;
    forall i | 0 <= i < |ws|
      ensures FallsAt(r, ws[i])
    {
      assert log[i] == Entry(us[i].arg1, us[i].arg2) && EntryOk(entry, s, log[i]);
      DerefFalls(g, s, r, us[i].arg1);
    }
  }

  lemma AwaitFree(g: Layout, s: Store, susp: map<int, seq<int>>, us: seq<Unifier>, andb: int)
    requires AwaitAll(g, s, susp, us, andb)
    ensures AllFree(s, us)
  {
    forall i | 0 <= i < |us|
      ensures Free(s, us[i].arg1)
    {
      assert Awaits(g, s, susp, us[i], andb);
    }
  }

  /** The unifiers of a suspended and-box have different variables. */
  lemma DistinctMade(entry: Store, s: Store, us: seq<Unifier>, tr: seq<Entry>, made: seq<Unifier>,
    kept: seq<Unifier>, mine: set<int>, t: Store)
    requires Logged(entry, s, Entries(us) + tr, mine) && FromTrail(made, tr) && SwappedBack(us, kept, t)
    ensures forall i, j :: 0 <= i < j < |made + kept| ==> (made + kept)[i].arg1 != (made + kept)[j].arg1
  {
    var log, all := Entries(us) + tr, made + kept;
    forall i | 0 <= i < |all|
      ensures 0 <= LogPlace(|us|, |tr|, i) < |log| && all[i].arg1 == log[LogPlace(|us|, |tr|, i)].c
    {
    }
    forall i, j | 0 <= i < j < |all|
      ensures all[i].arg1 != all[j].arg1
    {
      var p, q := LogPlace(|us|, |tr|, i), LogPlace(|us|, |tr|, j);
      assert p != q && all[i].arg1 == log[p].c && all[j].arg1 == log[q].c;
    }
  }

  function LogPlace(kept: int, made: int, i: int): int {
    if i < made then kept + i else i - made
  }

  lemma MakeForest(g: Layout, s: Store, r: seq<nat>, made: seq<Unifier>, kept: seq<Unifier>)
    requires StoreOk(g, s, r) && UnifiersOk(g, made + kept) && AllFree(s, made) && AllFree(s, kept) && Falls(r, made)
             && Falls(r, kept)
    requires forall i, j :: 0 <= i < j < |made + kept| ==> (made + kept)[i].arg1 != (made + kept)[j].arg1
    ensures Forest(g, s, r, made + kept)
  {
    var us := made + kept;
    forall i | 0 <= i < |us|
      ensures Edge(g, s, r, us[i])
    {
      assert UnifierOk(g, us[i]);
      if i < |made| {
        assert us[i] == made[i] && Free(s, made[i].arg1) && FallsAt(r, made[i]);
      } else {
        assert us[i] == kept[i - |made|] && Free(s, kept[i - |made|].arg1) && FallsAt(r, kept[i - |made|]);
      }
    }
  }
}
