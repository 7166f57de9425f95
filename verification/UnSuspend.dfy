/** Suspending an and-box turns its bindings of external variables into
    unifiers, and entering it again turns the unifiers into bindings. */
module UnSuspend {
  import opened UnStore
  import opened UnUnify
  import opened UnMeaning
  import opened UnLog

  /** An entry of an and-box's list: while it is installed, the cell arg1 is
      bound and arg2 is what the cell held before. */
  datatype Unifier = Unifier(arg1: int, arg2: Word)

  datatype Verdict = Yes | No | Unfinished

  ghost predicate Meets(g: Layout, v: Val, us: seq<Unifier>) {
    forall i :: 0 <= i < |us| ==> Same(g, v, Ref(us[i].arg1), us[i].arg2)
  }

  /** A solution of the store and of the equations of a list of unifiers. */
  ghost predicate Sols(g: Layout, v: Val, s: Store, us: seq<Unifier>) {
    Solves(g, v, s) && Meets(g, v, us)
  }

  // ------------------------------------------------ a store has solutions

  ghost function Build(g: Layout, s: Store, r: seq<nat>, c: int, d: int): Tree
    requires StoreOk(g, s, r)
    decreases if d >= 0 then d + 1 else 0
  {
    var t := Deref(s, r, Ref(c));
    if d <= 0 then Cut
    else if t.Imm? then Leaf(t.n)
    else if IsObj(g, t) then
      var n := Width(ShapeOf(g, t));
      Node(ShapeOf(g, t), seq(if n > 0 then n else 0, i requires 0 <= i < n => Build(g, s, r, Kid(t, i), d - 1)))
    else Cut
  }

  predicate Depth(p: (int, int)) {
    p.1 >= 0
  }

  ghost function Built(g: Layout, s: Store, r: seq<nat>): Val
    requires StoreOk(g, s, r)
  {
    imap p: (int, int) | Depth(p) :: Build(g, s, r, p.0, p.1)
  }

  lemma BuiltAt(g: Layout, s: Store, r: seq<nat>, c: int, d: int)
    requires StoreOk(g, s, r)
    ensures At(Built(g, s, r), c, d) == Build(g, s, r, c, d)
  {
    assert Depth((c, d)) <==> d >= 0;
  }

  /** Variables can always be given values: a store has a solution. */
  lemma Solvable(g: Layout, s: Store, r: seq<nat>)
    requires StoreOk(g, s, r)
    ensures Solves(g, Built(g, s, r), s)
  {
    var v := Built(g, s, r);
    forall c, d | 0 <= c < |s| && !Unbound(s[c])
      ensures At(v, c, d) == TreeOf(g, v, s[c], d)
    {
      BuiltAt(g, s, r, c, d);
      DerefStep(g, s, r, c);
      var t := s[c];
      if t.Ref? {
        BuiltAt(g, s, r, t.c, d);
      } else if d > 0 && IsObj(g, t) {
        assert Deref(s, r, t) == t;
        BuiltKids(g, s, r, t, d);
      }
    }
  }

  lemma BuiltKids(g: Layout, s: Store, r: seq<nat>, t: Word, d: int)
    requires StoreOk(g, s, r) && IsObj(g, t) && d > 0
    ensures var n := Width(ShapeOf(g, t));
            Kids(Built(g, s, r), t, n, d - 1) ==
              seq(if n > 0 then n else 0, i requires 0 <= i < n => Build(g, s, r, Kid(t, i), d - 1))
  {
    var n := Width(ShapeOf(g, t));
    var k := Kids(Built(g, s, r), t, n, d - 1);
    forall i | 0 <= i < |k|
      ensures k[i] == Build(g, s, r, Kid(t, i), d - 1)
    {
      BuiltAt(g, s, r, Kid(t, i), d - 1);
    }
  }

  // ------------------------------------------------ unbinding

  /** Taking a binding out of the store and stating it as an equation. */
  lemma UnbindSolves(g: Layout, v: Val, s: Store, c: int, w: Word)
    requires 0 <= c < |s| && !Unbound(s[c]) && Unbound(w)
    ensures Solves(g, v, s) <==> Solves(g, v, s[c := w]) && Same(g, v, Ref(c), s[c])
  {
    var u := s[c := w];
    if Solves(g, v, s) {
      forall d
        ensures SameAt(g, v, Ref(c), s[c], d)
      {
        assert At(v, c, d) == TreeOf(g, v, s[c], d);
      }
      forall e, d | 0 <= e < |u| && !Unbound(u[e])
        ensures At(v, e, d) == TreeOf(g, v, u[e], d)
      {
        assert u[e] == s[e];
      }
    }
    if Solves(g, v, u) && Same(g, v, Ref(c), s[c]) {
      forall e, d | 0 <= e < |s| && !Unbound(s[e])
        ensures At(v, e, d) == TreeOf(g, v, s[e], d)
      {
        if e == c {
          assert SameAt(g, v, Ref(c), s[c], d);
        } else {
          assert u[e] == s[e];
        }
      }
    }
  }

  lemma UnbindOk(g: Layout, s: Store, r: seq<nat>, c: int, w: Word)
    requires StoreOk(g, s, r) && 0 <= c < |s| && Unbound(w)
    ensures StoreOk(g, s[c := w], r)
  {
  }

  /** A chain that starts below c does not pass through c. */
  lemma {:induction false} DerefAvoids(g: Layout, s: Store, r: seq<nat>, c: int, w: Word, t: Word)
    requires StoreOk(g, s, r) && 0 <= c < |s| && Unbound(w) && Typed(g, t) && RankOf(r, t) <= r[c]
    ensures Deref(s[c := w], r, t) == Deref(s, r, t)
    ensures Deref(s, r, t) != Ref(c)
    decreases RankOf(r, t)
  {
    if t.Ref? && !Unbound(s[t.c]) {
      DerefStep(g, s, r, t.c);
      DerefAvoids(g, s, r, c, w, s[t.c]);
    }
  }

  /** What the binding of c leads to, as an equation. */
  lemma UnbindDeref(g: Layout, v: Val, s: Store, r: seq<nat>, c: int, w: Word)
    requires StoreOk(g, s, r) && 0 <= c < |s| && !Unbound(s[c]) && Unbound(w)
    ensures Solves(g, v, s) <==> Solves(g, v, s[c := w]) && Same(g, v, Ref(c), Deref(s, r, s[c]))
  {
    DerefStep(g, s, r, c);
    UnbindSolves(g, v, s, c, w);
    UnbindOk(g, s, r, c, w);
    DerefAvoids(g, s, r, c, w, s[c]);
    if Solves(g, v, s[c := w]) {
      DerefSame(g, v, s[c := w], r, s[c]);
      SameChain(g, v, Ref(c), Deref(s, r, s[c]), s[c]);
    }
  }

  lemma SameChain(g: Layout, v: Val, x: Word, y: Word, z: Word)
    requires Same(g, v, y, z)
    ensures Same(g, v, x, y) <==> Same(g, v, x, z)
  {
    hide TreeOf;
    if Same(g, v, x, y) {
      forall d
        ensures SameAt(g, v, x, z, d)
      {
        assert SameAt(g, v, x, y, d) && SameAt(g, v, y, z, d);
      }
    }
    if Same(g, v, x, z) {
      forall d
        ensures SameAt(g, v, x, y, d)
      {
        assert SameAt(g, v, x, z, d) && SameAt(g, v, y, z, d);
      }
    }
  }

  /** Giving an unbound cell a suspension list changes no meaning. */
  lemma BigSolves(g: Layout, v: Val, s: Store, c: int, w: Word)
    requires Free(s, c) && Unbound(w)
    ensures Solves(g, v, s[c := w]) <==> Solves(g, v, s)
  {
    var u := s[c := w];
    if Solves(g, v, s) {
      assert forall e :: 0 <= e < |u| && !Unbound(u[e]) ==> u[e] == s[e] && !Unbound(s[e]);
    }
    if Solves(g, v, u) {
      assert forall e :: 0 <= e < |s| && !Unbound(s[e]) ==> u[e] == s[e] && !Unbound(u[e]);
    }
  }

  lemma MeetsMore(g: Layout, v: Val, u: Unifier, us: seq<Unifier>)
    ensures Meets(g, v, [u] + us) <==> Same(g, v, Ref(u.arg1), u.arg2) && Meets(g, v, us)
  {
    var w := [u] + us;
    if Meets(g, v, w) {
      assert Same(g, v, Ref(w[0].arg1), w[0].arg2);
      forall i | 0 <= i < |us|
        ensures Same(g, v, Ref(us[i].arg1), us[i].arg2)
      {
        assert w[i + 1] == us[i];
      }
    }
  }

  lemma MeetsBoth(g: Layout, v: Val, us: seq<Unifier>, ws: seq<Unifier>)
    ensures Meets(g, v, us + ws) <==> Meets(g, v, us) && Meets(g, v, ws)
  {
    var w := us + ws;
    if Meets(g, v, w) {
      assert forall i :: 0 <= i < |us| ==> w[i] == us[i];
      forall i | 0 <= i < |ws|
        ensures Same(g, v, Ref(ws[i].arg1), ws[i].arg2)
      {
        assert w[i + |us|] == ws[i];
      }
    }
  }

  // ------------------------------------------------ the log shrinks

  lemma UnbindLogged(entry: Store, s: Store, log: seq<Entry>, rest: seq<Entry>, e: Entry, mine: set<int>)
    requires Logged(entry, s, log, mine) && (log == [e] + rest || log == rest + [e])
    ensures 0 <= e.c < |s| && !Unbound(s[e.c]) && Unbound(e.was) && Logged(entry, s[e.c := e.was], rest, mine)
    ensures entry[e.c] == e.was
  {
    var at := if log == [e] + rest then 0 else |rest|;
    assert log[at] == e && EntryOk(entry, s, log[at]);
    var w := s[e.c := e.was];
    forall i | 0 <= i < |rest|
      ensures EntryOk(entry, w, rest[i]) && rest[i].c != e.c
    {
      var j := if log == [e] + rest then i + 1 else i;
      assert log[j] == rest[i] && EntryOk(entry, s, log[j]);
    }
    forall c | 0 <= c < |w|
      ensures CellLogged(entry, w, rest, mine, c)
    {
      assert CellLogged(entry, s, log, mine, c);
      if c in Cells(log) && c != e.c {
        var j :| 0 <= j < |log| && log[j].c == c;
        var i := if log == [e] + rest then j - 1 else j;
        assert rest[i].c == c;
      }
    }
    if log == [e] + rest {
      assert forall i :: 0 <= i < |rest| ==> rest[i] == log[i + 1];
    } else {
      assert forall i :: 0 <= i < |rest| ==> rest[i] == log[i];
    }
  }

  /** A store and the same one with some unbound cells given suspension lists. */
  ghost predicate BigOf(entry: Store, base: Store) {
    |entry| == |base| && forall c :: 0 <= c < |base| ==>
      base[c] == entry[c] || (entry[c].Uva? && base[c] == Sva(entry[c].home))
  }

  lemma BigLogged(entry: Store, base: Store, s: Store, log: seq<Entry>, mine: set<int>, c: int)
    requires BigOf(entry, base) && Logged(base, s, log, mine) && Free(s, c) && s[c].Uva?
    ensures var w := Sva(s[c].home);
            c < |base| && BigOf(entry, base[c := w]) && Logged(base[c := w], s[c := w], log, mine)
  {
    var w := Sva(s[c].home);
    var base2, s2 := base[c := w], s[c := w];
    assert CellLogged(base, s, log, mine, c);
    forall i | 0 <= i < |log|
      ensures EntryOk(base2, s2, log[i])
    {
      assert EntryOk(base, s, log[i]);
    }
    forall e | 0 <= e < |s2|
      ensures CellLogged(base2, s2, log, mine, e)
    {
      assert CellLogged(base, s, log, mine, e);
    }
  }

  /** After everything logged has been undone: an external variable is what it
      was on entry, except that it may have a suspension list now. */
  ghost predicate Restored(entry: Store, s: Store, me: int) {
    |s| == |entry| && forall c :: 0 <= c < |s| ==>
      || s[c] == entry[c]
      || (entry[c].Uva? && s[c] == Sva(entry[c].home))
      || (Unbound(entry[c]) && entry[c].home == me)
  }

  lemma LoggedRestored(entry: Store, base: Store, s: Store, me: int)
    requires BigOf(entry, base) && Logged(base, s, [], {me})
    ensures Restored(entry, s, me)
  {
    forall c | 0 <= c < |s|
      ensures s[c] == base[c] || (Unbound(base[c]) && base[c].home == me)
    {
      assert CellLogged(base, s, [], {me}, c);
    }
  }

  // ------------------------------------------------ unifiers that wait

  function SuspOf(susp: map<int, seq<int>>, c: int): seq<int> {
    if c in susp then susp[c] else []
  }

  /** The cell is an unbound variable on which the and-box is suspended. */
  predicate Watched(s: Store, susp: map<int, seq<int>>, c: int, andb: int) {
    Free(s, c) && s[c].Sva? && andb in SuspOf(susp, c)
  }

  /** A unifier of a suspended and-box: its variables are unbound and would wake
      the and-box. */
  predicate Awaits(g: Layout, s: Store, susp: map<int, seq<int>>, u: Unifier, andb: int) {
    && Watched(s, susp, u.arg1, andb) && Typed(g, u.arg2) && u.arg2 != Ref(u.arg1)
    && (u.arg2.Ref? ==> Watched(s, susp, u.arg2.c, andb))
  }

  ghost predicate AwaitAll(g: Layout, s: Store, susp: map<int, seq<int>>, us: seq<Unifier>, andb: int) {
    forall i :: 0 <= i < |us| ==> Awaits(g, s, susp, us[i], andb)
  }

  /** Unbinding and suspending more keeps watched variables watched. */
  ghost predicate Loosens(s: Store, susp: map<int, seq<int>>, t: Store, more: map<int, seq<int>>) {
    forall c, andb :: Watched(s, susp, c, andb) ==> Watched(t, more, c, andb)
  }

  lemma AwaitKeeps(g: Layout, s: Store, susp: map<int, seq<int>>, t: Store, more: map<int, seq<int>>,
    us: seq<Unifier>, andb: int)
    requires Loosens(s, susp, t, more) && AwaitAll(g, s, susp, us, andb)
    ensures AwaitAll(g, t, more, us, andb)
  {
    forall i | 0 <= i < |us|
      ensures Awaits(g, t, more, us[i], andb)
    {
      assert Awaits(g, s, susp, us[i], andb);
    }
  }

  function Entries(us: seq<Unifier>): (es: seq<Entry>)
    ensures |es| == |us| && forall i :: 0 <= i < |us| ==> es[i] == Entry(us[i].arg1, us[i].arg2)
  {
    seq(|us|, i requires 0 <= i < |us| => Entry(us[i].arg1, us[i].arg2))
  }

  /** The unifiers that the entries of a trail become: in the same order, each
      with a term for its variable. */
  ghost predicate FromTrail(us: seq<Unifier>, trail: seq<Entry>) {
    |us| == |trail| && forall i :: 0 <= i < |us| ==> us[i].arg1 == trail[i].c
  }

  /** The values swapped back into a list. */
  ghost predicate SwappedBack(us: seq<Unifier>, ws: seq<Unifier>, s: Store) {
    |ws| == |us| && forall i :: 0 <= i < |us| ==> 0 <= us[i].arg1 < |s| && ws[i] == Unifier(us[i].arg1, s[us[i].arg1])
  }

  /** The first of the unifiers still installed. */
  lemma UndoOne(entry: Store, s: Store, us: seq<Unifier>, i: int, rest: seq<Entry>, mine: set<int>)
    requires 0 <= i < |us| && Logged(entry, s, Entries(us[i..]) + rest, mine)
    ensures 0 <= us[i].arg1 < |s| && !Unbound(s[us[i].arg1]) && Unbound(us[i].arg2)
    ensures Logged(entry, s[us[i].arg1 := us[i].arg2], Entries(us[i + 1..]) + rest, mine)
    ensures forall j :: i < j < |us| ==> us[j].arg1 != us[i].arg1
  {
    var log, e := Entries(us[i..]) + rest, Entry(us[i].arg1, us[i].arg2);
    assert log == [e] + (Entries(us[i + 1..]) + rest);
    UnbindLogged(entry, s, log, Entries(us[i + 1..]) + rest, e, mine);
    forall j | i < j < |us|
      ensures us[j].arg1 != us[i].arg1
    {
      assert log[0].c == us[i].arg1 && log[j - i].c == us[j].arg1;
    }
  }

  lemma MeetsLast(g: Layout, v: Val, us: seq<Unifier>, i: int)
    requires 0 <= i < |us|
    ensures Meets(g, v, us[..i + 1]) <==> Meets(g, v, us[..i]) && Same(g, v, Ref(us[i].arg1), us[i].arg2)
  {
    var a, b := us[..i + 1], us[..i];
    if Meets(g, v, a) {
      assert a[i] == us[i];
      assert forall j :: 0 <= j < i ==> b[j] == a[j];
    }
  }

  /** One unifier swapped back: its equation replaces the binding. */
  lemma UndoMeans(g: Layout, v: Val, s0: Store, s: Store, us: seq<Unifier>, ws: seq<Unifier>, i: int)
    requires 0 <= i < |us| == |ws| && 0 <= us[i].arg1 < |s| && ws == us[i := Unifier(us[i].arg1, s[us[i].arg1])]
    requires !Unbound(s[us[i].arg1]) && Unbound(us[i].arg2)
    requires Solves(g, v, s0) <==> Sols(g, v, s, us[..i])
    ensures Solves(g, v, s0) <==> Sols(g, v, s[us[i].arg1 := us[i].arg2], ws[..i + 1])
  {
    UnbindSolves(g, v, s, us[i].arg1, us[i].arg2);
    MeetsLast(g, v, ws, i);
    assert ws[..i] == us[..i];
    hide Solves, Meets, Same;
  }

  /** A list of unifiers that makes sense: variables and terms, and no variable
      is equated with itself. */
  predicate UnifierOk(g: Layout, u: Unifier) {
    0 <= u.arg1 < g.size && Typed(g, u.arg2) && u.arg2 != Ref(u.arg1)
  }

  ghost predicate UnifiersOk(g: Layout, us: seq<Unifier>) {
    forall i :: 0 <= i < |us| ==> UnifierOk(g, us[i])
  }

  lemma AwaitOk(g: Layout, s: Store, r: seq<nat>, susp: map<int, seq<int>>, us: seq<Unifier>, andb: int)
    requires StoreOk(g, s, r) && AwaitAll(g, s, susp, us, andb)
    ensures UnifiersOk(g, us)
  {
    forall i | 0 <= i < |us|
      ensures UnifierOk(g, us[i])
    {
      assert Awaits(g, s, susp, us[i], andb);
    }
  }

  /** The values taken back out of the store are terms, and none of them is its
      own variable. */
  lemma SwappedOk(g: Layout, entry: Store, s: Store, r: seq<nat>, us: seq<Unifier>, rest: seq<Entry>,
    ws: seq<Unifier>, mine: set<int>)
    requires StoreOk(g, s, r) && Logged(entry, s, Entries(us) + rest, mine) && SwappedBack(us, ws, s)
    ensures UnifiersOk(g, ws)
  {
    var log := Entries(us) + rest;
    forall i | 0 <= i < |ws|
      ensures UnifierOk(g, ws[i])
    {
      assert log[i] == Entry(us[i].arg1, us[i].arg2);
      assert EntryOk(entry, s, log[i]);
      DerefStep(g, s, r, us[i].arg1);
    }
  }

  lemma OkBoth(g: Layout, us: seq<Unifier>, ws: seq<Unifier>)
    requires UnifiersOk(g, us) && UnifiersOk(g, ws)
    ensures UnifiersOk(g, us + ws)
  {
  }

  /** The order of a log does not matter. */
  lemma Reorder(entry: Store, s: Store, a: seq<Entry>, b: seq<Entry>, e: Entry, mine: set<int>)
    requires Logged(entry, s, (a + b) + [e], mine)
    ensures Logged(entry, s, (a + [e]) + b, mine)
  {
    var old_, new_ := (a + b) + [e], (a + [e]) + b;
    assert forall i :: 0 <= i < |new_| ==> new_[i] == old_[Place(|a|, |b|, i)];
    forall i | 0 <= i < |new_|
      ensures EntryOk(entry, s, new_[i])
    {
      assert EntryOk(entry, s, old_[Place(|a|, |b|, i)]);
    }
    forall i, j | 0 <= i < j < |new_|
      ensures new_[i].c != new_[j].c
    {
      var p, q := Place(|a|, |b|, i), Place(|a|, |b|, j);
      assert new_[i] == old_[p] && new_[j] == old_[q];
    }
    forall c | 0 <= c < |s|
      ensures CellLogged(entry, s, new_, mine, c)
    {
      assert CellLogged(entry, s, old_, mine, c);
      if c in Cells(old_) {
        var j :| 0 <= j < |old_| && old_[j].c == c;
        var i := if j < |a| then j else if j < |a| + |b| then j + 1 else |a|;
        assert new_[i] == old_[j];
      }
    }
  }

  /** Where the element at i of a + [e] + b is in a + b + [e]. */
  function Place(a: int, b: int, i: int): int {
    if i < a then i else if i == a then a + b else i - 1
  }
}
