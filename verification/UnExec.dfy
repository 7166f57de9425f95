/** The execution state: cells, trail, contexts, suspensions and the unifier
    lists of the and-boxes, and the operations that change them in place. */
module UnExec {
  import opened UnStore
  import opened UnUnify
  import opened UnMeaning
  import opened UnLog
  import opened UnSuspend
  import opened UnForest

  function ListOf(unify: map<int, seq<Unifier>>, andb: int): seq<Unifier> {
    if andb in unify then unify[andb] else []
  }

  function VerdictOf(o: Outcome): Verdict {
    match o
    case Running(_) => Unfinished
    case Unified(_) => Yes
    case Clash => No
  }

  class Exec {
    const g: Layout
    var cells: Store
    ghost var r: seq<nat>
    var trail: seq<Entry>
    /** Where the trail of every context begins. */
    var marks: seq<nat>
    /** The and-boxes suspended on a cell. */
    var susp: map<int, seq<int>>
    /** The unifier list of every and-box. */
    var unify: map<int, seq<Unifier>>

    ghost predicate Valid()
      reads this`cells, this`r
    {
      StoreOk(g, cells, r)
    }

    function List(andb: int): seq<Unifier>
      reads this`unify
    {
      ListOf(unify, andb)
    }

    /** Where the trail of the current context begins. */
    function Mark(): int
      reads this`marks
    {
      if marks == [] then 0 else marks[|marks| - 1]
    }

    method DerefWord(t: Word) returns (u: Word)
      requires Valid() && Typed(g, t)
      ensures u == Deref(cells, r, t) && Final(g, cells, u)
    {
      u := t;
      while u.Ref? && !(cells[u.c].Uva? || cells[u.c].Sva?)
        invariant Typed(g, u) && Deref(cells, r, u) == Deref(cells, r, t)
        decreases RankOf(r, u)
      {
        DerefStep(g, cells, r, u.c);
        u := cells[u.c];
      }
    }

    // -------------------------------------------- unification

    /** The machine's registers and the fields, as a state. */
    ghost function Here(x: Word, y: Word, table: map<Word, Word>, stack: seq<Frame>): State
      reads this`cells, this`r, this`trail
    {
      State(cells, r, trail, x, y, table, stack)
    }

    /** Binds an unbound cell; an external one is trailed. */
    method BindVariable(me: int, c: int, t: Word, ghost st: State)
      requires Valid() && Free(cells, c) && Final(g, cells, t) && t != Ref(c)
      requires st.s == cells && st.r == r && st.trail == trail
      modifies this`cells, this`r, this`trail
      ensures Valid() && var w := BindTo(st, me, c, t); cells == w.s && r == w.r && trail == w.trail
    {
      BindToOk(g, st, me, c, t);
      if cells[c].home != me {
        trail := trail + [Entry(c, cells[c])];
      }
      r := Raised(cells, r, c, t);
      cells := cells[c := t];
    }

    /** Two different unbound variables: which one is bound depends on where
        they are local and whether they have suspensions. */
    method BindPair(me: int, x: int, y: int, ghost st: State)
      requires Valid() && Free(cells, x) && Free(cells, y) && x != y
      requires st.s == cells && st.r == r && st.trail == trail
      modifies this`cells, this`r, this`trail
      ensures Valid()
      ensures var w := if BindsFirst(st.s, me, x, y) then BindTo(st, me, x, Ref(y)) else BindTo(st, me, y, Ref(x));
              cells == w.s && r == w.r && trail == w.trail
    {
      hide Deref, StoreOk, BindTo;
      VarFinal(x);
      VarFinal(y);
      if cells[x].Uva? {
        if cells[x].home == me {
          BindVariable(me, x, Ref(y), st);
        } else {
          BindVariable(me, y, Ref(x), st);
        }
      } else {
        if cells[x].home == me {
          if cells[y].Uva? {
            if cells[y].home == me {
              BindVariable(me, y, Ref(x), st);
            } else {
              BindVariable(me, x, Ref(y), st);
            }
          } else {
            BindVariable(me, x, Ref(y), st);
          }
        } else {
          BindVariable(me, y, Ref(x), st);
        }
      }
    }

    lemma VarFinal(c: int)
      requires Valid() && Free(cells, c)
      ensures Final(g, cells, Ref(c))
    {
    }

    /** The pair is done: the next one comes from the stack, if there is one. */
    method TakeNext(x: Word, y: Word, table: map<Word, Word>, stack: seq<Frame>)
      returns (more: bool, x2: Word, y2: Word, stack2: seq<Frame>)
      requires Ready(g, Here(x, y, table, stack))
      ensures more ==> Succeed(Here(x, y, table, stack)) == Running(Here(x2, y2, table, stack2))
      ensures !more ==>
              Succeed(Here(x, y, table, stack)) == Unified(Here(x, y, table, stack)) && x2 == x && y2 == y
              && stack2 == stack
    {
      if stack == [] {
        return false, x, y, stack;
      }
      PoppedOk(g, stack);
      var f := stack[|stack| - 1];
      var index := f.index - 1;
      x2 := DerefWord(Ref(f.tuple1 - index));
      y2 := DerefWord(Ref(f.tuple2 - index));
      stack2 := stack[..|stack| - 1];
      if index > 0 {
        stack2 := stack2 + [f.(index := index)];
      }
      more := true;
    }

    /** Two objects of one shape: the alias of the first, or their arguments. */
    method TakeApart(x: Word, y: Word, table: map<Word, Word>, stack: seq<Frame>)
      returns (x2: Word, y2: Word, table2: map<Word, Word>, stack2: seq<Frame>)
      requires Good(g, Here(x, y, table, stack)) && AliasOk(g, x, y)
      ensures Tuples(Here(x, y, table, stack), Width(ShapeOf(g, x))) == Running(Here(x2, y2, table2, stack2))
    {
      if x in table {
        return table[x], y, table, stack;
      }
      RowsOk(g, x, y);
      table2 := table[x := y];
      var index := if x.Lst? then 1 else g.strs[x.a].arity - 1;
      var tuple1, tuple2 := Kid(x, index), Kid(y, index);
      stack2 := stack;
      if index > 0 {
        stack2 := stack2 + [Frame(tuple1, tuple2, index)];
      }
      x2 := DerefWord(Ref(tuple1 - index));
      y2 := DerefWord(Ref(tuple2 - index));
    }

    /** One round of the loop. */
    method Round(me: int, x: Word, y: Word, table: map<Word, Word>, stack: seq<Frame>)
      returns (more: bool, verdict: Verdict, x2: Word, y2: Word, table2: map<Word, Word>, stack2: seq<Frame>)
      requires Good(g, Here(x, y, table, stack))
      modifies this`cells, this`r, this`trail
      ensures Stepped(Step(g, me, old(Here(x, y, table, stack))), old(Here(x, y, table, stack)), more, verdict,
              Here(x2, y2, table2, stack2))
    {
      ghost var st := Here(x, y, table, stack);
      x2, y2, table2, stack2, more := x, y, table, stack, true;
      verdict := Yes;
      GoodParts(st);
      hide Deref, StoreOk, Tuples, Succeed, BindTo, StackOk, TableOk, ShapeOf, Width;
      if x == y {
        more, x2, y2, stack2 := TakeNext(x, y, table, stack);
      } else if x.Ref? && y.Ref? {
        BindPair(me, x.c, y.c, st);
        BindRest(st, me, x.c, y);
        BindRest(st, me, y.c, x);
        more, x2, y2, stack2 := TakeNext(x, y, table, stack);
      } else if y.Ref? {
        BindVariable(me, y.c, x, st);
        BindRest(st, me, y.c, x);
        more, x2, y2, stack2 := TakeNext(x, y, table, stack);
      } else if x.Ref? {
        BindVariable(me, x.c, y, st);
        BindRest(st, me, x.c, y);
        more, x2, y2, stack2 := TakeNext(x, y, table, stack);
      } else if (x.Lst? && y.Lst?) || (x.Str? && y.Str? && g.strs[x.a] == g.strs[y.a]) {
        ShapesMatch(x, y);
        x2, y2, table2, stack2 := TakeApart(x, y, table, stack);
      } else {
        ShapesMatch(x, y);
        more, verdict := false, No;
      }
    }

    /** What a round of the loop has to do with a step. */
    ghost predicate Stepped(o: Outcome, st: State, more: bool, verdict: Verdict, w: State) {
      match o
      case Running(t) => more && w == t
      case Unified(t) => !more && verdict == Yes && w == t
      case Clash => !more && verdict == No && w == st
    }

    lemma GoodParts(st: State)
      requires Good(g, st)
      ensures StoreOk(g, st.s, st.r) && |st.s| == |st.r| && StackOk(g, st.stack) && TableOk(g, st.table)
    {
    }

    lemma BindRest(st: State, me: int, c: int, t: Word)
      requires Free(st.s, c) && |st.r| == |st.s|
      ensures var w := BindTo(st, me, c, t); w.x == st.x && w.y == st.y && w.stack == st.stack && w.table == st.table
    {
    }

    lemma ShapesMatch(x: Word, y: Word)
      requires Typed(g, x) && Typed(g, y) && !x.Ref? && !y.Ref?
      ensures AliasOk(g, x, y) <==> (x.Lst? && y.Lst?) || (x.Str? && y.Str? && g.strs[x.a] == g.strs[y.a])
    {
    }

    lemma StartGood(st: State)
      requires StoreOk(g, st.s, st.r) && Final(g, st.s, st.x) && Final(g, st.s, st.y) && st.table == map[]
               && st.stack == []
      ensures Good(g, st)
    {
    }

    lemma RoundOf(me: int, st: State, k: nat)
      requires Good(g, st)
      ensures GoodOutcome(g, Step(g, me, st))
      ensures k > 0 ==> Iterate(g, me, Running(st), k) == Iterate(g, me, Step(g, me, st), k - 1)
      ensures RunFor(g, me, st, k) == Iterate(g, me, Running(st), k)
      ensures k == 0 ==> Iterate(g, me, Running(st), k) == Running(st) && Last(g, me, st, k) == st
      ensures k > 0 && !Step(g, me, st).Running? ==> Iterate(g, me, Running(st), k) == Step(g, me, st)
      ensures k > 0 && Step(g, me, st).Running? ==> Last(g, me, st, k) == Last(g, me, Step(g, me, st).st, k - 1)
      ensures k > 0 && Step(g, me, st).Unified? ==> Last(g, me, st, k) == Step(g, me, st).st
      ensures k > 0 && Step(g, me, st).Clash? ==> Last(g, me, st, k) == st
      ensures Step(g, me, st).Running? ==> Good(g, Step(g, me, st).st)
    {
      IterateOne(g, me, st, k);
    }

    lemma StartHere(x: Word, y: Word)
      requires Valid() && Final(g, cells, x) && Final(g, cells, y)
      ensures Here(x, y, map[], []) == Start(cells, r, trail, x, y) && Good(g, Here(x, y, map[], []))
    {
    }

    lemma HereValid(x: Word, y: Word, table: map<Word, Word>, stack: seq<Frame>)
      requires Good(g, Here(x, y, table, stack))
      ensures Valid()
    {
    }

    lemma RoundDone(me: int, st: State, k: nat, more: bool, verdict: Verdict, w: State)
      requires Good(g, st) && k > 0 && Stepped(Step(g, me, st), st, more, verdict, w)
      ensures more ==>
              Good(g, w) && RunFor(g, me, st, k) == RunFor(g, me, w, k - 1)
              && Last(g, me, st, k) == Last(g, me, w, k - 1)
      ensures !more ==> verdict == VerdictOf(RunFor(g, me, st, k)) && Last(g, me, st, k) == w
      ensures StoreOk(g, w.s, w.r)
      ensures VerdictOf(Running(w)) == Unfinished
    {
      RoundOf(me, st, k);
      hide Step, Good, Iterate, Last;
    }

    lemma HereIs(x: Word, y: Word, table: map<Word, Word>, stack: seq<Frame>)
      ensures Here(x, y, table, stack) == State(cells, r, trail, x, y, table, stack)
      ensures VerdictOf(Running(Here(x, y, table, stack))) == Unfinished
    {
    }

    /** Unifies x and y. The loop is given a number of rounds, because it need
        not end. */
    method UnifyMore(me: int, x0: Word, y0: Word, rounds: nat) returns (verdict: Verdict)
      requires Valid() && Final(g, cells, x0) && Final(g, cells, y0)
      modifies this`cells, this`r, this`trail
      ensures var st := Start(old(cells), old(r), old(trail), x0, y0);
              var o := RunFor(g, me, st, rounds);
              var w := Last(g, me, st, rounds);
              && verdict == VerdictOf(o)
              && cells == w.s && r == w.r && trail == w.trail
      ensures Valid()
    {
      hide *;
      var x, y := x0, y0;
      var table: map<Word, Word>, stack: seq<Frame> := map[], [];
      var k := rounds;
      ghost var st0 := Start(cells, r, trail, x0, y0);
      StartHere(x0, y0);
      while k > 0
        invariant 0 <= k <= rounds && Good(g, Here(x, y, table, stack))
        invariant Good(g, st0) && RunFor(g, me, st0, rounds) == RunFor(g, me, Here(x, y, table, stack), k)
        invariant Last(g, me, st0, rounds) == Last(g, me, Here(x, y, table, stack), k)
        decreases k
      {
        ghost var st := Here(x, y, table, stack);
        var more;
        more, verdict, x, y, table, stack := Round(me, x, y, table, stack);
        RoundDone(me, st, k, more, verdict, Here(x, y, table, stack));
        if !more {
          HereIs(x, y, table, stack);
          MakeValid();
          return;
        }
        k := k - 1;
      }
      RoundOf(me, Here(x, y, table, stack), 0);
      HereIs(x, y, table, stack);
      HereValid(x, y, table, stack);
      return Unfinished;
    }

    // -------------------------------------------- suspending

    /** UndoUnifier: every unifier swaps its saved word back into its cell. */
    method UndoUnifier(andb: int, ghost entry: Store, ghost rest: seq<Entry>, ghost mine: set<int>)
      requires Valid() && Logged(entry, cells, Entries(List(andb)) + rest, mine)
      modifies this`cells, this`unify
      ensures Valid() && Logged(entry, cells, rest, mine)
      ensures SwappedBack(old(List(andb)), List(andb), old(cells)) && AllFree(cells, List(andb))
      ensures forall b :: b != andb ==> List(b) == old(List(b))
      ensures forall v :: Solves(g, v, old(cells)) <==> Sols(g, v, cells, List(andb))
    {
      hide *;
      var us := List(andb);
      ghost var us0, cells0, unify0 := us, cells, unify;
      ListIs();
      var i := 0;
      assert us[0..] == us;
      NoneMet(us);
      while i < |us|
        invariant 0 <= i <= |us| == |us0| && unify == unify0 && Valid() && us[i..] == us0[i..] && |cells| == |cells0|
        invariant Logged(entry, cells, Entries(us[i..]) + rest, mine)
        invariant SwappedBack(us0[..i], us[..i], cells0) && AllFree(cells, us[..i])
        invariant forall j :: i <= j < |us| ==> CellKept(cells0, cells, us[j].arg1)
        invariant forall v :: Solves(g, v, cells0) <==> Sols(g, v, cells, us[..i])
        decreases |us| - i
      {
        ghost var us1, cells1 := us, cells;
        UndoOne(entry, cells, us, i, rest, mine);
        ValidIs();
        var arg1, arg2 := us[i].arg1, us[i].arg2;
        UnbindOk(g, cells, r, arg1, arg2);
        us := us[i := Unifier(arg1, cells[arg1])];
        cells := cells[arg1 := arg2];
        MakeValid();
        UndoKept(us0, us1, us, cells0, cells1, cells, i);
        UnbindFrees(cells1, arg1, arg2);
        FreeStays(cells1, cells, us1[..i]);
        FreeMore(cells, us1, i, us);
        forall v
          ensures Solves(g, v, cells0) <==> Sols(g, v, cells, us[..i + 1])
        {
          UndoMeans(g, v, cells0, cells1, us1, us, i);
        }
        assert us[i + 1..] == us1[i + 1..];
        i := i + 1;
      }
      assert us[..i] == us && us0[..i] == us0;
      NoneLogged(entry, us, rest, mine);
      unify := unify[andb := us];
      ListIs();
      ListPut(unify0, andb, us);
    }

    lemma ListIs()
      ensures forall b :: List(b) == ListOf(unify, b)
    {
    }

    lemma ListPut(unify0: map<int, seq<Unifier>>, andb: int, us: seq<Unifier>)
      ensures ListOf(unify0[andb := us], andb) == us
      ensures forall b :: b != andb ==> ListOf(unify0[andb := us], b) == ListOf(unify0, b)
    {
    }

    lemma ValidIs()
      requires Valid()
      ensures StoreOk(g, cells, r) && |cells| == g.size == |r|
    {
    }

    lemma MakeValid()
      requires StoreOk(g, cells, r)
      ensures Valid()
    {
    }

    lemma NoneLogged(entry: Store, us: seq<Unifier>, rest: seq<Entry>, mine: set<int>)
      requires Logged(entry, cells, Entries(us[|us|..]) + rest, mine)
      ensures Logged(entry, cells, rest, mine)
    {
      assert Entries(us[|us|..]) + rest == rest;
    }

    lemma UndoKept(us0: seq<Unifier>, us1: seq<Unifier>, us2: seq<Unifier>, s0: Store, s1: Store, s2: Store, i: int)
      requires 0 <= i < |us1| == |us0| == |us2| && |s0| == |s1| && us1[i..] == us0[i..]
               && SwappedBack(us0[..i], us1[..i], s0)
      requires forall j :: i <= j < |us1| ==> CellKept(s0, s1, us1[j].arg1)
      requires forall j :: i < j < |us1| ==> us1[j].arg1 != us1[i].arg1
      requires 0 <= us1[i].arg1 < |s1| && us2 == us1[i := Unifier(us1[i].arg1, s1[us1[i].arg1])]
               && s2 == s1[us1[i].arg1 := us1[i].arg2]
      ensures SwappedBack(us0[..i + 1], us2[..i + 1], s0) && us2[i + 1..] == us0[i + 1..]
      ensures forall j :: i + 1 <= j < |us2| ==> CellKept(s0, s2, us2[j].arg1)
    {
      assert us0[i] == us0[i..][0] == us1[i..][0] == us1[i];
      assert CellKept(s0, s1, us1[i].arg1);
      forall j | 0 <= j < i + 1
        ensures 0 <= us0[j].arg1 < |s0| && us2[j] == Unifier(us0[j].arg1, s0[us0[j].arg1])
      {
        if j < i {
          assert us0[..i][j] == us0[j] && us1[..i][j] == us1[j];
        }
      }
      assert us2[i + 1..] == us1[i + 1..] == us1[i..][1..] && us0[i + 1..] == us0[i..][1..];
    }

    lemma NoneMet(us: seq<Unifier>)
      ensures SwappedBack(us[..0], us[..0], cells) && AllFree(cells, us[..0])
      ensures forall v :: Sols(g, v, cells, us[..0]) <==> Solves(g, v, cells)
      ensures forall j :: 0 <= j < |us| ==> CellKept(cells, cells, us[j].arg1)
    {
    }

    /** MakeBigVar: a variable without a suspension list gets an empty one. */
    method MakeBig(c: int, andb: int, ghost entry: Store, ghost base: Store,
      ghost log: seq<Entry>) returns (ghost base2: Store)
      requires Valid() && Free(cells, c) && BigOf(entry, base) && Logged(base, cells, log, {andb})
      modifies this`cells, this`susp
      ensures Valid() && BigOf(entry, base2) && Logged(base2, cells, log, {andb})
      ensures Free(cells, c) && cells[c].Sva? && Loosens(old(cells), old(susp), cells, susp)
              && SameBound(old(cells), cells)
      ensures Bigger(old(cells), cells) && Frees(old(cells), cells)
      ensures forall v :: Solves(g, v, old(cells)) <==> Solves(g, v, cells)
    {
      hide *;
      ghost var cells0, susp0 := cells, susp;
      base2 := base;
      LoosensSelf(cells, susp);
      FreeIs(cells, c);
      if cells[c].Uva? {
        ValidIs();
        BigLogged(entry, base, cells, log, {andb}, c);
        ghost var w := Sva(cells[c].home);
        SvaUnbound(cells[c].home);
        UnbindOk(g, cells, r, c, w);
        forall v
          ensures Solves(g, v, cells0) <==> Solves(g, v, cells0[c := w])
        {
          BigSolves(g, v, cells0, c, w);
        }
        base2 := base[c := w];
        cells := cells[c := Sva(cells[c].home)];
        susp := susp[c := []];
        MakeValid();
        BigLoosens(cells0, susp0, c);
      }
    }

    /** MakeWake: the and-box is suspended on the variable. */
    method MakeWake(c: int, andb: int)
      requires Free(cells, c) && cells[c].Sva?
      modifies this`susp
      ensures Watched(cells, susp, c, andb) && Loosens(cells, old(susp), cells, susp)
    {
      susp := susp[c := [andb] + SuspOf(susp, c)];
    }

    lemma FreeIs(s: Store, c: int)
      ensures Free(s, c) <==> 0 <= c < |s| && (s[c].Uva? || s[c].Sva?)
    {
    }

    lemma SvaUnbound(h: int)
      ensures Unbound(Sva(h))
    {
    }

    lemma LoosensSelf(s: Store, susp: map<int, seq<int>>)
      ensures Loosens(s, susp, s, susp) && SameBound(s, s) && Bigger(s, s) && Frees(s, s)
    {
    }

    lemma BigLoosens(s: Store, susp: map<int, seq<int>>, c: int)
      requires Free(s, c) && s[c].Uva?
      ensures var t := s[c := Sva(s[c].home)];
              Loosens(s, susp, t, susp[c := []]) && SameBound(s, t) && Bigger(s, t) && Frees(s, t) && Free(t, c)
                && t[c].Sva?
    {
    }

    lemma LoosensTwice(s: Store, a: map<int, seq<int>>, t: Store, b: map<int, seq<int>>, u: Store, c: map<int,
      seq<int>>)
      requires Loosens(s, a, t, b) && Loosens(t, b, u, c)
      ensures Loosens(s, a, u, c)
    {
    }

    /** The newest entry of the trail becomes a unifier. */
    method SuspendOne(andb: int, ghost entry: Store, ghost base: Store) returns (ghost base2: Store, ghost u: Unifier)
      requires Valid() && 0 <= Mark() < |trail| && BigOf(entry, base) && Logged(base, cells, trail[Mark()..], {andb})
      modifies this`cells, this`trail, this`susp, this`unify
      ensures trail == old(trail)[..|old(trail)| - 1] && Mark() <= |trail|
      ensures Valid() && BigOf(entry, base2) && Logged(base2, cells, trail[Mark()..], {andb})
      ensures Loosens(old(cells), old(susp), cells, susp) && Frees(old(cells), cells) && FallsAt(r, u)
      ensures u.arg1 == old(trail)[|old(trail)| - 1].c && Awaits(g, cells, susp, u, andb)
      ensures List(andb) == [u] + old(List(andb)) && forall b :: b != andb ==> List(b) == old(List(b))
      ensures forall v :: Solves(g, v, old(cells)) <==> Solves(g, v, cells) && Same(g, v, Ref(u.arg1), u.arg2)
    {
      hide *;
      ghost var cells0, susp0, unify0, log0 := cells, susp, unify, trail[Mark()..];
      ListIs();
      ValidIs();
      var tr := trail[|trail| - 1];
      ghost var log := trail[..|trail| - 1][Mark()..];
      assert log0 == log + [tr];
      UnbindLogged(base, cells, log0, log, tr, {andb});
      UnbindOk(g, cells, r, tr.c, tr.was);
      DerefStep(g, cells, r, tr.c);
      var v1 := DerefWord(cells[tr.c]);
      UnbindChain(cells, r, tr.c, tr.was, v1);
      cells := cells[tr.c := tr.was];
      trail := trail[..|trail| - 1];
      MakeValid();
      ghost var cells1 := cells;
      UnbindLoosens(cells0, susp0, tr.c, tr.was);
      UnbindFrees(cells0, tr.c, tr.was);
      DerefFalls(g, cells0, r, tr.c);
      base2 := MakeBig(tr.c, andb, entry, base, log);
      LoosensTwice(cells0, susp0, cells1, susp0, cells, susp);
      FreesTwice(cells0, cells1, cells);
      ghost var cells2, susp2 := cells, susp;
      if v1.Ref? {
        FreeKeeps(cells1, cells2, v1.c);
        base2 := MakeBig(v1.c, andb, entry, base2, log);
        LoosensTwice(cells0, susp0, cells2, susp2, cells, susp);
        FreesTwice(cells0, cells2, cells);
        FreeKeeps(cells2, cells, tr.c);
        StaysSva(cells2, cells, tr.c);
      }
      u := Unifier(tr.c, v1);
      unify := unify[andb := [Unifier(tr.c, v1)] + ListOf(unify, andb)];
      ListIs();
      ListPut(unify0, andb, [u] + ListOf(unify0, andb));
      ghost var susp3 := susp;
      MakeWake(tr.c, andb);
      LoosensTwice(cells0, susp0, cells, susp3, cells, susp);
      ghost var susp4 := susp;
      if v1.Ref? {
        MakeWake(v1.c, andb);
        LoosensTwice(cells0, susp0, cells, susp4, cells, susp);
        LoosensAt(cells, susp4, cells, susp, tr.c, andb);
      }
      MakeAwaits(u, andb);
    }

    lemma MakeAwaits(u: Unifier, andb: int)
      requires Watched(cells, susp, u.arg1, andb) && Typed(g, u.arg2) && u.arg2 != Ref(u.arg1)
      requires u.arg2.Ref? ==> Watched(cells, susp, u.arg2.c, andb)
      ensures Awaits(g, cells, susp, u, andb)
    {
    }

    lemma LoosensAt(s: Store, a: map<int, seq<int>>, t: Store, b: map<int, seq<int>>, c: int, andb: int)
      requires Loosens(s, a, t, b) && Watched(s, a, c, andb)
      ensures Watched(t, b, c, andb)
    {
    }

    /** What the bound cell c led to, and what is left when it is unbound. */
    lemma UnbindChain(s: Store, r: seq<nat>, c: int, w: Word, v1: Word)
      requires StoreOk(g, s, r) && 0 <= c < |s| && !Unbound(s[c]) && Unbound(w) && v1 == Deref(s, r, s[c])
               && Final(g, s, v1)
      ensures Typed(g, v1) && v1 != Ref(c) && (v1.Ref? ==> Free(s[c := w], v1.c)) && Free(s[c := w], c)
      ensures forall v :: Solves(g, v, s) <==> Solves(g, v, s[c := w]) && Same(g, v, Ref(c), v1)
    {
      forall v
        ensures Solves(g, v, s) <==> Solves(g, v, s[c := w]) && Same(g, v, Ref(c), v1)
      {
        UnbindDeref(g, v, s, r, c, w);
      }
    }

    lemma UnbindLoosens(s: Store, susp: map<int, seq<int>>, c: int, w: Word)
      requires 0 <= c < |s| && !Unbound(s[c]) && Unbound(w)
      ensures Loosens(s, susp, s[c := w], susp)
    {
    }

    lemma FreeKeeps(s: Store, t: Store, c: int)
      requires SameBound(s, t) && Free(s, c)
      ensures Free(t, c)
    {
    }

    /** A variable that has got its suspension list keeps it. */
    lemma StaysSva(s2: Store, s3: Store, c: int)
      requires Free(s2, c) && s2[c].Sva? && Free(s3, c) && Bigger(s2, s3)
      ensures s3[c].Sva?
    {
    }

    /** suspend_trail: every binding of the current context becomes a unifier of
        the and-box, the oldest one first in the list. */
    method SuspendTrail(andb: int, ghost entry: Store) returns (ghost base: Store, ghost made: seq<Unifier>)
      requires Valid() && 0 <= Mark() <= |trail| && Logged(entry, cells, trail[Mark()..], {andb})
      modifies this`cells, this`trail, this`susp, this`unify
      ensures trail == old(trail)[..Mark()] && Valid() && Restored(entry, cells, andb)
      ensures List(andb) == made + old(List(andb)) && forall b :: b != andb ==> List(b) == old(List(b))
      ensures FromTrail(made, old(trail)[Mark()..]) && AwaitAll(g, cells, susp, made, andb)
      ensures Frees(old(cells), cells) && Falls(r, made)
      ensures forall v :: Solves(g, v, old(cells)) <==> Sols(g, v, cells, made)
    {
      hide *;
      made, base := [], entry;
      ghost var cells0 := cells;
      SuspendStart(entry, andb);
      assert old(trail)[|trail|..] == [];
      while |trail| > Mark()
        invariant Mark() <= |trail| <= |old(trail)| && trail == old(trail)[..|trail|]
        invariant Valid() && BigOf(entry, base) && Logged(base, cells, trail[Mark()..], {andb})
        invariant List(andb) == made + old(List(andb)) && forall b :: b != andb ==> List(b) == old(List(b))
        invariant FromTrail(made, old(trail)[|trail|..]) && AwaitAll(g, cells, susp, made, andb)
        invariant Frees(cells0, cells) && Falls(r, made)
        invariant forall v :: Solves(g, v, cells0) <==> Sols(g, v, cells, made)
        decreases |trail|
      {
        ghost var cells1, susp1, made1, n := cells, susp, made, |trail|;
        ghost var u;
        base, u := SuspendOne(andb, entry, base);
        AwaitKeeps(g, cells1, susp1, cells, susp, made, andb);
        made := [u] + made;
        AwaitMore(u, made1, andb);
        FreesTwice(cells0, cells1, cells);
        FallsMore(r, u, made1);
        assert old(trail)[n - 1..] == [old(trail)[n - 1]] + old(trail)[n..];
        FromMore(u, made1, old(trail)[n - 1], old(trail)[n..]);
        forall v
          ensures Solves(g, v, cells0) <==> Sols(g, v, cells, made)
        {
          SolsMore(v, cells1, u, made1);
        }
        assert made + old(List(andb)) == [u] + (made1 + old(List(andb)));
      }
      assert trail[Mark()..] == [];
      LoggedRestored(entry, base, cells, andb);
    }

    /** What has been bound for the and-box since its context was entered: its
        installed unifiers and the current stretch of the trail. */
    function Log(andb: int): seq<Entry>
      requires 0 <= Mark() <= |trail|
      reads this`unify, this`trail, this`marks
    {
      Entries(List(andb)) + trail[Mark()..]
    }

    /** The suspend handler: the unifiers are taken out of the store, the trail
        becomes unifiers. Every external variable is as it was on entry, and the
        store with all equations of the and-box has the solutions the store had
        before. */
    method Suspend(andb: int, ghost entry: Store) returns (ghost made: seq<Unifier>, ghost kept: seq<Unifier>)
      requires Valid() && 0 <= Mark() <= |trail| && Logged(entry, cells, Log(andb), {andb})
      modifies this`cells, this`trail, this`susp, this`unify
      ensures trail == old(trail)[..Mark()] && Valid() && Restored(entry, cells, andb)
      ensures List(andb) == made + kept && forall b :: b != andb ==> List(b) == old(List(b))
      ensures FromTrail(made, old(trail)[Mark()..]) && AwaitAll(g, cells, susp, made, andb)
      ensures SwappedBack(old(List(andb)), kept, old(cells)) && Forest(g, cells, r, List(andb))
      ensures forall v :: Solves(g, v, old(cells)) <==> Sols(g, v, cells, List(andb))
    {
      hide *;
      ghost var cells0, us, tr := cells, List(andb), trail[Mark()..];
      LogIs(andb);
      ValidIs();
      UndoUnifier(andb, entry, trail[Mark()..], {andb});
      ghost var cells1 := cells;
      kept := List(andb);
      ghost var base;
      base, made := SuspendTrail(andb, entry);
      ValidIs();
      AwaitOk(g, cells, r, susp, made, andb);
      SwappedOk(g, entry, cells0, r, us, tr, kept, {andb});
      OkBoth(g, made, kept);
      AwaitFree(g, cells, susp, made, andb);
      FreeStays(cells1, cells, kept);
      SwappedFalls(g, entry, cells0, r, us, tr, kept, {andb});
      DistinctMade(entry, cells0, us, tr, made, kept, {andb}, cells0);
      MakeForest(g, cells, r, made, kept);
      forall v
        ensures Solves(g, v, cells0) <==> Sols(g, v, cells, List(andb))
      {
        SolsBoth(v, cells0, cells1, made, kept);
      }
    }

    lemma LogIs(andb: int)
      requires 0 <= Mark() <= |trail|
      ensures Log(andb) == Entries(List(andb)) + trail[Mark()..]
    {
    }

    lemma SolsBoth(v: Val, s0: Store, s1: Store, made: seq<Unifier>, kept: seq<Unifier>)
      requires Solves(g, v, s0) <==> Sols(g, v, s1, kept)
      requires Solves(g, v, s1) <==> Sols(g, v, cells, made)
      ensures Solves(g, v, s0) <==> Sols(g, v, cells, made + kept)
    {
      MeetsBoth(g, v, made, kept);
      hide Solves, Meets;
    }

    // -------------------------------------------- failing

    /** UndoTrail. */
    method UndoTrail(ghost entry: Store, ghost mine: set<int>)
      requires Valid() && 0 <= Mark() <= |trail| && Logged(entry, cells, trail[Mark()..], mine)
      modifies this`cells, this`trail
      ensures trail == old(trail)[..Mark()] && Valid() && Logged(entry, cells, [], mine)
    {
      hide *;
      while |trail| > Mark()
        invariant Mark() <= |trail| <= |old(trail)| && trail == old(trail)[..|trail|]
        invariant Valid() && Logged(entry, cells, trail[Mark()..], mine)
        decreases |trail|
      {
        ghost var log := trail[..|trail| - 1][Mark()..];
        var tr := trail[|trail| - 1];
        ValidIs();
        assert trail[Mark()..] == log + [tr];
        UnbindLogged(entry, cells, trail[Mark()..], log, tr, mine);
        UnbindOk(g, cells, r, tr.c, tr.was);
        cells := cells[tr.c := tr.was];
        trail := trail[..|trail| - 1];
        MakeValid();
      }
      assert trail[Mark()..] == [];
    }

    /** The failure handler: every external variable is exactly what it was when
        the context was entered. */
    method Fail(andb: int, ghost entry: Store, ghost mine: set<int>)
      requires Valid() && 0 <= Mark() <= |trail| && Logged(entry, cells, Log(andb), mine)
      modifies this`cells, this`trail, this`unify
      ensures trail == old(trail)[..Mark()] && Valid() && |cells| == |entry| && Logged(entry, cells, [], mine)
      ensures forall c :: 0 <= c < |cells| ==> cells[c] == entry[c] || (Unbound(entry[c]) && entry[c].home in mine)
      ensures forall b :: b != andb ==> List(b) == old(List(b))
    {
      hide *;
      LogIs(andb);
      UndoUnifier(andb, entry, trail[Mark()..], mine);
      UndoTrail(entry, mine);
      NothingLeft(entry, mine);
    }

    lemma NothingLeft(entry: Store, mine: set<int>)
      requires Logged(entry, cells, [], mine)
      ensures |cells| == |entry|
      ensures forall c :: 0 <= c < |cells| ==> cells[c] == entry[c] || (Unbound(entry[c]) && entry[c].home in mine)
    {
      forall c | 0 <= c < |cells|
        ensures cells[c] == entry[c] || (Unbound(entry[c]) && entry[c].home in mine)
      {
        assert CellLogged(entry, cells, [], mine, c);
      }
    }

    lemma SuspendStart(entry: Store, andb: int)
      ensures BigOf(entry, entry) && AwaitAll(g, cells, susp, [], andb)
      ensures forall v :: Solves(g, v, cells) <==> Sols(g, v, cells, [])
      ensures FromTrail([], []) && Frees(cells, cells) && Falls(r, [])
    {
    }

    lemma AwaitMore(u: Unifier, us: seq<Unifier>, andb: int)
      requires AwaitAll(g, cells, susp, us, andb) && Awaits(g, cells, susp, u, andb)
      ensures AwaitAll(g, cells, susp, [u] + us, andb)
    {
      var ws := [u] + us;
      forall i | 0 <= i < |ws|
        ensures Awaits(g, cells, susp, ws[i], andb)
      {
        assert i > 0 ==> ws[i] == us[i - 1];
      }
    }

    lemma FromMore(u: Unifier, us: seq<Unifier>, e: Entry, es: seq<Entry>)
      requires FromTrail(us, es) && u.arg1 == e.c
      ensures FromTrail([u] + us, [e] + es)
    {
    }

    lemma SolsMore(v: Val, s: Store, u: Unifier, us: seq<Unifier>)
      requires Solves(g, v, s) <==> Solves(g, v, cells) && Same(g, v, Ref(u.arg1), u.arg2)
      ensures Sols(g, v, s, us) <==> Sols(g, v, cells, [u] + us)
    {
      MeetsMore(g, v, u, us);
      hide Solves, Same, Meets;
    }

    // -------------------------------------------- entering

    method PushContext()
      modifies this`marks
      ensures marks == old(marks) + [|trail|] && Mark() == |trail|
    {
      marks := marks + [|trail|];
    }

    /** BindUnifier: the term goes into the cell, the cell's word into the
        unifier. */
    method BindUnifier(u: Unifier, andb: int, ghost entry: Store, ghost kept: seq<Unifier>) returns (w: Unifier)
      requires Valid() && UnifierOk(g, u) && Free(cells, u.arg1) && (u.arg2.Ref? ==> Free(cells, u.arg2.c))
      requires 0 <= Mark() <= |trail| && Logged(entry, cells, Entries(kept) + trail[Mark()..], {andb})
      modifies this`cells, this`r
      ensures Valid() && Logged(entry, cells, Entries(kept + [w]) + trail[Mark()..], {andb})
      ensures forall v :: Solves(g, v, cells) <==> Solves(g, v, old(cells)) && Same(g, v, Ref(u.arg1), u.arg2)
      ensures var x, y := Deref(old(cells), old(r), Ref(u.arg1)), Deref(old(cells), old(r), u.arg2);
              x != y ==> Joins(g, old(cells), old(r), cells, r, x, y)
    {
      ghost var log, cells0 := Entries(kept) + trail[Mark()..], cells;
      w := Unifier(u.arg1, cells[u.arg1]);
      BindMeans(u, cells, r);
      BindLogged(entry, cells, log, {andb}, u.arg1, u.arg2, log + [Entry(u.arg1, cells[u.arg1])]);
      Reorder(entry, cells[u.arg1 := u.arg2], Entries(kept), trail[Mark()..], Entry(u.arg1, cells[u.arg1]), {andb});
      BindJoins(u, cells, r);
      hide Solves, Logged, StoreOk, Raised, Same, Deref, Moved, Joins;
      r := Raised(cells, r, u.arg1, u.arg2);
      cells := cells[u.arg1 := u.arg2];
      assert Entries(kept + [w]) == Entries(kept) + [Entry(u.arg1, w.arg2)];
    }

    lemma BindJoins(u: Unifier, s: Store, r: seq<nat>)
      requires StoreOk(g, s, r) && UnifierOk(g, u) && Free(s, u.arg1) && (u.arg2.Ref? ==> Free(s, u.arg2.c))
      requires StoreOk(g, s[u.arg1 := u.arg2], Raised(s, r, u.arg1, u.arg2))
      ensures var x, y := Deref(s, r, Ref(u.arg1)), Deref(s, r, u.arg2);
              x != y ==> Joins(g, s, r, s[u.arg1 := u.arg2], Raised(s, r, u.arg1, u.arg2), x, y)
    {
      BindMoves(g, s, r, Raised(s, r, u.arg1, u.arg2), u.arg1, u.arg2);
    }

    lemma BindMeans(u: Unifier, s: Store, r: seq<nat>)
      requires StoreOk(g, s, r) && UnifierOk(g, u) && Free(s, u.arg1) && (u.arg2.Ref? ==> Free(s, u.arg2.c))
      ensures StoreOk(g, s[u.arg1 := u.arg2], Raised(s, r, u.arg1, u.arg2)) && !Unbound(u.arg2)
      ensures forall v :: Solves(g, v, s[u.arg1 := u.arg2]) <==> Solves(g, v, s) && Same(g, v, Ref(u.arg1), u.arg2)
    {
      RaisedRanked(g, s, r, u.arg1, u.arg2);
      var t := s[u.arg1 := u.arg2];
      forall v
        ensures Solves(g, v, t) <==> Solves(g, v, s) && Same(g, v, Ref(u.arg1), u.arg2)
      {
        UnbindSolves(g, v, t, u.arg1, s[u.arg1]);
        assert t[u.arg1 := s[u.arg1]] == s;
      }
    }

    /** A unifier whose variable is bound by now, or whose term is a bound
        variable, is unified like any two terms. */
    method UnifyUnifier(u: Unifier, andb: int, rounds: nat, ghost entry: Store,
      ghost kept: seq<Unifier>) returns (verdict: Verdict)
      requires Valid() && UnifierOk(g, u)
      requires 0 <= Mark() <= |trail| && Logged(entry, cells, Entries(kept) + trail[Mark()..], {andb})
      modifies this`cells, this`r, this`trail
      ensures Valid() && old(trail) <= trail && Logged(entry, cells, Entries(kept) + trail[Mark()..], {andb})
      ensures verdict == Yes ==> forall v :: Solves(g, v, cells) <==>
              Solves(g, v, old(cells)) && Same(g, v, Ref(u.arg1), u.arg2)
      ensures verdict == No ==> forall v :: !(Solves(g, v, old(cells)) && Same(g, v, Ref(u.arg1), u.arg2))
      ensures var x, y := Deref(old(cells), old(r), Ref(u.arg1)), Deref(old(cells), old(r), u.arg2);
              x.Ref? && x != y && rounds >= 1 ==> verdict == Yes && Joins(g, old(cells), old(r), cells, r, x, y)
    {
      hide *;
      UnifierParts(u);
      ValidIs();
      ghost var cells0, r0, trail0 := cells, r, trail;
      var x := DerefWord(Ref(u.arg1));
      var y := DerefWord(u.arg2);
      verdict := UnifyMore(andb, x, y, rounds);
      UnifiedMeans(u, andb, cells0, r0, trail0, x, y, rounds, entry, Entries(kept), Mark());
    }

    lemma UnifierParts(u: Unifier)
      requires Valid() && UnifierOk(g, u)
      ensures Typed(g, Ref(u.arg1)) && Typed(g, u.arg2)
    {
    }

    lemma UnifiedMeans(u: Unifier, andb: int, s: Store, r: seq<nat>, trail: seq<Entry>, x: Word, y: Word, rounds: nat,
                       entry: Store, pre: seq<Entry>, mark: nat)
      requires StoreOk(g, s, r) && Typed(g, Ref(u.arg1)) && Typed(g, u.arg2) && mark <= |trail|
      requires x == Deref(s, r, Ref(u.arg1)) && y == Deref(s, r, u.arg2) && Final(g, s, x) && Final(g, s, y)
      requires Logged(entry, s, pre + trail[mark..], {andb})
      ensures var st := Start(s, r, trail, x, y);
              var o, w := RunFor(g, andb, st, rounds), Last(g, andb, st, rounds);
              && trail <= w.trail && mark <= |w.trail| && Logged(entry, w.s, pre + w.trail[mark..], {andb})
              && (x.Ref? && x != y && rounds >= 1 ==> VerdictOf(o) == Yes && Joins(g, s, r, w.s, w.r, x, y))
              && (VerdictOf(o) == Yes ==> forall v :: Solves(g, v, w.s) <==>
                 Solves(g, v, s) && Same(g, v, Ref(u.arg1), u.arg2))
              && (VerdictOf(o) == No ==> forall v :: !(Solves(g, v, s) && Same(g, v, Ref(u.arg1), u.arg2)))
    {
      var st := Start(s, r, trail, x, y);
      StartGood(st);
      LastLogged(g, entry, st, pre, mark, andb, rounds);
      LastIs(g, andb, st, rounds);
      if x.Ref? && x != y && rounds >= 1 {
        OneRound(g, andb, st, rounds);
      }
      var o, w := Iterate(g, andb, Running(st), rounds), Last(g, andb, st, rounds);
      hide Solves, Same, Iterate, Last, Logged, Deref, Joins, Moved;
      forall v
        ensures o.Unified? ==> (Solves(g, v, w.s) <==> Solves(g, v, s) && Same(g, v, Ref(u.arg1), u.arg2))
        ensures o.Clash? ==> !(Solves(g, v, s) && Same(g, v, Ref(u.arg1), u.arg2))
      {
        UnifyMeaning(g, v, andb, s, r, trail, x, y, rounds);
        if Solves(g, v, s) {
          DerefSame(g, v, s, r, Ref(u.arg1));
          DerefSame(g, v, s, r, u.arg2);
          SameEnds(g, v, x, Ref(u.arg1), y, u.arg2);
        }
      }
    }

    lemma SameEnds(g: Layout, v: Val, x: Word, x0: Word, y: Word, y0: Word)
      requires Same(g, v, x, x0) && Same(g, v, y, y0)
      ensures Same(g, v, x, y) <==> Same(g, v, x0, y0)
    {
      hide TreeOf;
      if Same(g, v, x, y) {
        forall d
          ensures SameAt(g, v, x0, y0, d)
        {
          assert SameAt(g, v, x, y, d) && SameAt(g, v, x, x0, d) && SameAt(g, v, y, y0, d);
        }
      }
      if Same(g, v, x0, y0) {
        forall d
          ensures SameAt(g, v, x, y, d)
        {
          assert SameAt(g, v, x0, y0, d) && SameAt(g, v, x, x0, d) && SameAt(g, v, y, y0, d);
        }
      }
    }

    /** install: the unifiers of the and-box are put back into the store. If
        that works, the store then has the solutions it had with the equations;
        if it fails, there were none. Whatever was bound is logged. */
    method Install(andb: int, rounds: nat) returns (verdict: Verdict)
      requires Valid() && 0 <= Mark() == |trail| && UnifiersOk(g, List(andb))
      modifies this`cells, this`r, this`trail, this`unify
      ensures Valid() && old(trail) <= trail && Logged(old(cells), cells, Log(andb), {andb})
      ensures forall b :: b != andb ==> List(b) == old(List(b))
      ensures verdict == Yes ==> forall v :: Solves(g, v, cells) <==> Sols(g, v, old(cells), old(List(andb)))
      ensures verdict == No ==> forall v :: !Sols(g, v, old(cells), old(List(andb)))
      ensures Forest(g, old(cells), old(r), old(List(andb))) && rounds >= 1 ==> verdict == Yes
    {
      hide *;
      ListIs();
      ghost var cells0, unify0, trail0, r0 := cells, unify, trail, r;
      var us := ListOf(unify, andb);
      var kept: seq<Unifier> := [];
      var i := 0;
      InstallStart(us, andb);
      AlikeStart(g, cells, r, us);
      verdict := Yes;
      while i < |us|
        invariant 0 <= i <= |us| && verdict == Yes && Valid() && unify == unify0 && trail0 <= trail
        invariant Logged(cells0, cells, Entries(kept) + trail[Mark()..], {andb})
        invariant forall v :: Solves(g, v, cells) <==> Sols(g, v, cells0, us[..i])
        invariant Forest(g, cells0, r0, us) && rounds >= 1 ==> Alike(g, cells, r, Bound(cells0, us, i), r0)
        decreases |us| - i
      {
        ghost var cells1, r1 := cells, r;
        var u := us[i];
        if Forest(g, cells0, r0, us) && rounds >= 1 {
          NextEdge(g, cells0, r0, us, i, cells, r);
        }
        UnifierAt(us, i);
        FreeIs(cells, u.arg1);
        FreeIs(cells, if u.arg2.Ref? then u.arg2.c else 0);
        if (cells[u.arg1].Uva? || cells[u.arg1].Sva?) && (!u.arg2.Ref? || cells[u.arg2.c].Uva?
          || cells[u.arg2.c].Sva?) {
          var w := BindUnifier(u, andb, cells0, kept);
          kept := kept + [w];
        } else {
          verdict := UnifyUnifier(u, andb, rounds, cells0, kept);
          if verdict != Yes {
            InstallStops(verdict, cells0, cells1, us, i);
            unify := unify[andb := kept];
            ListIs();
            ListPut(unify0, andb, kept);
            LogIs(andb);
            return;
          }
        }
        InstallOne(cells0, cells1, us, i);
        if Forest(g, cells0, r0, us) && rounds >= 1 {
          EdgeDone(g, cells0, r0, us, i, cells1, r1, cells, r);
        }
        i := i + 1;
      }
      assert us[..i] == us;
      unify := unify[andb := kept];
      ListIs();
      ListPut(unify0, andb, kept);
      LogIs(andb);
    }

    lemma InstallStart(us: seq<Unifier>, andb: int)
      requires 0 <= Mark() == |trail|
      ensures Logged(cells, cells, Entries([]) + trail[Mark()..], {andb})
      ensures forall v :: Solves(g, v, cells) <==> Sols(g, v, cells, us[..0])
    {
      NothingLogged(cells, {andb});
      assert Entries([]) + trail[Mark()..] == [];
    }

    lemma UnifierAt(us: seq<Unifier>, i: int)
      requires Valid() && UnifiersOk(g, us) && 0 <= i < |us|
      ensures UnifierOk(g, us[i]) && 0 <= us[i].arg1 < |cells| && (us[i].arg2.Ref? ==> 0 <= us[i].arg2.c < |cells|)
    {
      assert UnifierOk(g, us[i]);
    }

    lemma InstallOne(s0: Store, s1: Store, us: seq<Unifier>, i: int)
      requires 0 <= i < |us| && forall v :: Solves(g, v, s1) <==> Sols(g, v, s0, us[..i])
      requires forall v :: Solves(g, v, cells) <==> Solves(g, v, s1) && Same(g, v, Ref(us[i].arg1), us[i].arg2)
      ensures forall v :: Solves(g, v, cells) <==> Sols(g, v, s0, us[..i + 1])
    {
      hide Solves, Same, Meets;
      forall v
        ensures Solves(g, v, cells) <==> Sols(g, v, s0, us[..i + 1])
      {
        MeetsLast(g, v, us, i);
      }
    }

    lemma InstallStops(verdict: Verdict, s0: Store, s1: Store, us: seq<Unifier>, i: int)
      requires 0 <= i < |us| && forall v :: Solves(g, v, s1) <==> Sols(g, v, s0, us[..i])
      requires verdict == No ==> forall v :: !(Solves(g, v, s1) && Same(g, v, Ref(us[i].arg1), us[i].arg2))
      ensures verdict == No ==> forall v :: !Sols(g, v, s0, us)
    {
      hide Solves, Same;
      forall v
        ensures verdict == No ==> !Sols(g, v, s0, us)
      {
        if Sols(g, v, s0, us) {
          var done := us[..i];
          assert forall j :: 0 <= j < i ==> done[j] == us[j];
          assert Sols(g, v, s0, done) && Same(g, v, Ref(us[i].arg1), us[i].arg2);
        }
      }
    }

    /** installb: the and-boxes on the way down from the current one are entered
        one after the other, each in a context of its own that begins where the
        trail ended when the box was entered, so that everything the box binds is
        logged in it. On failure the box that failed is the last one of the depth
        reached. */
    method InstallB(path: seq<int>, rounds: nat) returns (verdict: Verdict, depth: nat, ghost entries: seq<Store>)
      requires Valid() && forall i :: 0 <= i < |path| ==> UnifiersOk(g, List(path[i]))
      requires forall i, j :: 0 <= i < j < |path| ==> path[i] != path[j]
      modifies this`cells, this`r, this`trail, this`unify, this`marks
      ensures Valid() && forall b :: b !in path ==> List(b) == old(List(b))
      ensures depth <= |path| && (verdict == Yes ==> depth == |path|) && (verdict == No ==> depth > 0)
      ensures |marks| == |old(marks)| + depth && old(marks) <= marks && old(trail) <= trail
      ensures Entered(cells, trail, marks, unify, path[..depth], entries)
      ensures Begun(old(cells), old(trail), |old(marks)|, cells, trail, marks, entries)
      ensures |entries| == depth
      ensures forall k, v :: 0 <= k < depth ==>
                (Solves(g, v, entries[k]) <==> PathSols(v, old(cells), old(unify), path[..k]))
      ensures verdict == Yes ==> forall v :: Solves(g, v, cells) <==> PathSols(v, old(cells), old(unify), path)
      ensures verdict == No ==> forall v :: !PathSols(v, old(cells), old(unify), path[..depth])
      decreases path
    {
      hide *;
      ListIs();
      if path == [] {
        NoPath(unify);
        NoneEntered(cells, trail, marks, unify);
        return Yes, 0, [];
      }
      ghost var cells0, unify0, trail0, from := cells, unify, trail, |marks|;
      var up, to := path[..|path| - 1], path[|path| - 1];
      verdict, depth, entries := InstallB(up, rounds);
      assert up[..depth] == path[..depth];
      assert forall k :: 0 <= k <= |up| ==> up[..k] == path[..k];
      if verdict != Yes {
        return;
      }
      ghost var cells1, trail1, marks1, unify1 := cells, trail, marks, unify;
      assert up[..depth] == up;
      NotAbove(path);
      PushContext();
      ListIs();
      verdict := Install(to, rounds);
      depth := |path|;
      assert path[..depth] == path == up + [to];
      LogIs(to);
      ListIs();
      EnterOne(cells1, trail1, marks1, unify1, up, entries, cells, trail, unify, to);
      BegunOn(cells0, trail0, from, cells1, trail1, marks1, entries, cells, trail, marks);
      entries := entries + [cells1];
      PathDown(cells0, cells1, unify0, path, verdict);
    }

    /** The failure handler, box by box from the innermost one up: what the boxes
        on the path have bound is undone, and their contexts are gone. Every
        variable external to all of them is exactly what it was when the first
        was entered. */
    method FailPath(path: seq<int>, ghost entries: seq<Store>)
      requires Valid() && Entered(cells, trail, marks, unify, path, entries) && path != []
      requires forall i, j :: 0 <= i < j < |path| ==> path[i] != path[j]
      modifies this`cells, this`trail, this`unify, this`marks
      ensures Valid() && marks == old(marks)[..|old(marks)| - |path|]
      ensures var m := old(marks)[|old(marks)| - |path|]; m <= |old(trail)| && trail == old(trail)[..m]
      ensures |cells| == |entries[0]| && forall c :: 0 <= c < |cells| ==>
              cells[c] == entries[0][c] || (Unbound(entries[0][c]) && entries[0][c].home in path)
    {
      hide *;
      EnteredShape(cells, trail, marks, unify, path, entries);
      ghost var cells0, trail0, marks0, unify0, from := cells, trail, marks, unify, |marks| - |path|;
      var n := |path|;
      EndIs(marks, trail, from);
      NothingLogged(cells, Boxes(path, n));
      assert trail0[..|trail0|] == trail0 && marks0[..|marks0|] == marks0;
      while n > 0
        invariant 0 <= n <= |path| && Valid() && marks == marks0[..from + n]
        invariant EndOf(marks0, trail0, from + n) <= |trail0| && trail == trail0[..EndOf(marks0, trail0, from + n)]
        invariant Logged(StoreAt(entries, cells0, n), cells, [], Boxes(path, n))
        invariant forall k :: 0 <= k < n ==> ListOf(unify, path[k]) == ListOf(unify0, path[k])
      {
        var k := n - 1;
        FailReady(cells0, trail0, marks0, unify0, path, entries, k, cells, unify);
        ListIs();
        MarkIs();
        LogIs(path[k]);
        Fail(path[k], entries[k], Boxes(path, k));
        marks := marks[..|marks| - 1];
        ListIs();
        n := k;
      }
      FirstStore(entries, cells0);
      NothingLeft(entries[0], Boxes(path, 0));
      AllBoxes(path);
    }

    lemma MarkIs()
      requires marks != []
      ensures Mark() == marks[|marks| - 1]
    {
    }

    lemma NotAbove(path: seq<int>)
      requires path != [] && forall i, j :: 0 <= i < j < |path| ==> path[i] != path[j]
      ensures path[|path| - 1] !in path[..|path| - 1]
    {
    }

    /** Solutions of a store and of the equations of all boxes on a path. */
    ghost predicate PathSols(v: Val, s: Store, unify: map<int, seq<Unifier>>, path: seq<int>) {
      Solves(g, v, s) && forall i :: 0 <= i < |path| ==> Meets(g, v, ListOf(unify, path[i]))
    }

    lemma NoPath(unify: map<int, seq<Unifier>>)
      ensures forall v :: Solves(g, v, cells) <==> PathSols(v, cells, unify, [])
    {
    }

    lemma PathDown(s0: Store, s1: Store, unify0: map<int, seq<Unifier>>, path: seq<int>, verdict: Verdict)
      requires path != [] && forall v :: Solves(g, v, s1) <==> PathSols(v, s0, unify0, path[..|path| - 1])
      requires var us := ListOf(unify0, path[|path| - 1]);
               && (verdict == Yes ==> forall v :: Solves(g, v, cells) <==> Sols(g, v, s1, us))
               && (verdict == No ==> forall v :: !Sols(g, v, s1, us))
      ensures verdict == Yes ==> forall v :: Solves(g, v, cells) <==> PathSols(v, s0, unify0, path)
      ensures verdict == No ==> forall v :: !PathSols(v, s0, unify0, path)
    {
      var us, up := ListOf(unify0, path[|path| - 1]), path[..|path| - 1];
      hide Solves, Meets, ListOf;
      forall v
        ensures PathSols(v, s0, unify0, path) <==> Sols(g, v, s1, us)
      {
        if PathSols(v, s0, unify0, path) {
          assert forall i :: 0 <= i < |up| ==> Meets(g, v, ListOf(unify0, up[i])) && up[i] == path[i];
          assert PathSols(v, s0, unify0, up) && Meets(g, v, us);
        }
        if Sols(g, v, s1, us) {
          assert PathSols(v, s0, unify0, up);
          assert forall i :: 0 <= i < |up| ==> up[i] == path[i];
        }
      }
      if verdict == Yes {
        assert forall v :: Solves(g, v, cells) <==> Sols(g, v, s1, us);
      }
    }

    /** Suspending and entering again loses nothing: it does not fail, and the
        store has the solutions it had, so the same variables are equal and have
        the same terms; everything bound is logged against the suspended store,
        ready to be suspended again. */
    method Reenter(andb: int, rounds: nat, ghost entry: Store) returns (verdict: Verdict, ghost between: Store)
      requires Valid() && 0 <= Mark() <= |trail| && Logged(entry, cells, Log(andb), {andb})
      modifies this`cells, this`r, this`trail, this`susp, this`unify
      ensures Valid() && Restored(entry, between, andb)
      ensures Mark() <= |trail| && Logged(between, cells, Log(andb), {andb})
      ensures verdict != No && (rounds >= 1 ==> verdict == Yes)
      ensures verdict == Yes ==> forall v :: Solves(g, v, cells) <==> Solves(g, v, old(cells))
    {
      hide *;
      ghost var us, rest, cells0, r0 := List(andb), trail[Mark()..], cells, r;
      LogIs(andb);
      ValidIs();
      Solvable(g, cells, r);
      ghost var v := Built(g, cells, r);
      ghost var made, kept := Suspend(andb, entry);
      between := cells;
      ValidIs();
      AwaitOk(g, cells, r, susp, made, andb);
      SwappedOk(g, entry, cells0, r0, us, rest, kept, {andb});
      OkBoth(g, made, kept);
      verdict := Install(andb, rounds);
      assert Solves(g, v, cells0);
    }
  }

  /** The same cells are bound, to the same terms. */
  ghost predicate SameBound(s: Store, t: Store) {
    |s| == |t| && forall c :: 0 <= c < |s| ==> (Unbound(s[c]) <==> Unbound(t[c])) && (!Unbound(s[c]) ==> t[c] == s[c])
  }

  /** Suspension lists stay. */
  ghost predicate Bigger(s: Store, t: Store) {
    |s| == |t| && forall c :: 0 <= c < |s| && s[c].Sva? ==> t[c].Sva?
  }

  predicate CellKept(s0: Store, s: Store, c: int) {
    0 <= c < |s0| == |s| ==> s[c] == s0[c]
  }

  // ------------------------------------------------ contexts on the way down

  /** Where the stretch of trail of a context ends. */
  function EndOf(marks: seq<nat>, trail: seq<Entry>, i: int): nat {
    if 0 <= i < |marks| then marks[i] else |trail|
  }

  /** The store when the k-th box was entered; the present one for the last. */
  ghost function StoreAt(entries: seq<Store>, now: Store, k: int): Store {
    if 0 <= k < |entries| then entries[k] else now
  }

  /** Whatever the k-th box on the path has bound since it was entered is logged
      in its unifiers and in its stretch of the trail. */
  ghost predicate EnteredAt(s: Store, trail: seq<Entry>, marks: seq<nat>, unify: map<int, seq<Unifier>>,
                            path: seq<int>, entries: seq<Store>, k: int)
    requires 0 <= k < |path| && |path| <= |marks|
  {
    var i := |marks| - |path| + k;
    && marks[i] <= EndOf(marks, trail, i + 1) <= |trail|
    && Logged(StoreAt(entries, s, k), StoreAt(entries, s, k + 1),
              Entries(ListOf(unify, path[k])) + trail[marks[i]..EndOf(marks, trail, i + 1)], {path[k]})
  }

  /** The last contexts are those of the boxes on the path. */
  ghost predicate Entered(s: Store, trail: seq<Entry>, marks: seq<nat>, unify: map<int, seq<Unifier>>,
                          path: seq<int>, entries: seq<Store>) {
    && |entries| == |path| <= |marks|
    && forall k :: 0 <= k < |path| ==> EnteredAt(s, trail, marks, unify, path, entries, k)
  }

  /** The first context begins with the store and the trail as they were. */
  ghost predicate Begun(s0: Store, trail0: seq<Entry>, from: nat, s: Store, trail: seq<Entry>, marks: seq<nat>,
                        entries: seq<Store>) {
    StoreAt(entries, s, 0) == s0 && EndOf(marks, trail, from) == |trail0|
  }

  lemma NoneEntered(s: Store, trail: seq<Entry>, marks: seq<nat>, unify: map<int, seq<Unifier>>)
    ensures Entered(s, trail, marks, unify, [], []) && Begun(s, trail, |marks|, s, trail, marks, [])
  {
  }

  lemma EnterOne(s1: Store, trail1: seq<Entry>, marks1: seq<nat>, unify1: map<int, seq<Unifier>>, up: seq<int>,
                 entries: seq<Store>, s: Store, trail: seq<Entry>, unify: map<int, seq<Unifier>>, to: int)
    requires Entered(s1, trail1, marks1, unify1, up, entries) && trail1 <= trail && to !in up
    requires forall b :: b != to ==> ListOf(unify, b) == ListOf(unify1, b)
    requires Logged(s1, s, Entries(ListOf(unify, to)) + trail[|trail1|..], {to})
    ensures Entered(s, trail, marks1 + [|trail1|], unify, up + [to], entries + [s1])
  {
    hide Logged, Entries, ListOf;
    var path, marks, all := up + [to], marks1 + [|trail1|], entries + [s1];
    forall k | 0 <= k < |path|
      ensures EnteredAt(s, trail, marks, unify, path, all, k)
    {
      if k < |up| {
        assert EnteredAt(s1, trail1, marks1, unify1, up, entries, k);
        var i := |marks1| - |up| + k;
        assert EndOf(marks, trail, i + 1) == EndOf(marks1, trail1, i + 1);
        assert StoreAt(all, s, k + 1) == StoreAt(entries, s1, k + 1);
        assert trail[marks[i]..EndOf(marks, trail, i + 1)] == trail1[marks1[i]..EndOf(marks1, trail1, i + 1)];
        assert path[k] == up[k] && path[k] in up;
      } else {
        assert trail[|trail1|..|trail|] == trail[|trail1|..];
      }
    }
  }

  lemma BegunOn(s0: Store, trail0: seq<Entry>, from: nat, s1: Store, trail1: seq<Entry>, marks1: seq<nat>,
                entries: seq<Store>, s: Store, trail: seq<Entry>, marks: seq<nat>)
    requires Begun(s0, trail0, from, s1, trail1, marks1, entries) && from <= |marks1| == |marks| - 1
    requires marks == marks1 + [|trail1|]
    ensures Begun(s0, trail0, from, s, trail, marks, entries + [s1])
  {
  }

  lemma EnteredShape(s: Store, trail: seq<Entry>, marks: seq<nat>, unify: map<int, seq<Unifier>>,
                     path: seq<int>, entries: seq<Store>)
    requires Entered(s, trail, marks, unify, path, entries)
    ensures |entries| == |path| <= |marks| && EndOf(marks, trail, |marks|) == |trail|
    ensures StoreAt(entries, s, |path|) == s
  {
  }

  lemma EndIs(marks: seq<nat>, trail: seq<Entry>, i: int)
    requires 0 <= i < |marks|
    ensures EndOf(marks, trail, i) == marks[i]
  {
  }

  lemma FirstStore(entries: seq<Store>, s: Store)
    requires entries != []
    ensures StoreAt(entries, s, 0) == entries[0]
  {
  }

  /** The boxes on the path from the k-th one down. */
  ghost function Boxes(path: seq<int>, k: int): set<int> {
    set i | k <= i < |path| && 0 <= i :: path[i]
  }

  lemma AllBoxes(path: seq<int>)
    ensures forall b :: b in Boxes(path, 0) <==> b in path
  {
  }

  /** The boxes below the k-th one have failed: it is ready to fail. */
  lemma FailReady(s: Store, trail: seq<Entry>, marks: seq<nat>, unify: map<int, seq<Unifier>>, path: seq<int>,
                  entries: seq<Store>, k: int, now: Store, lists: map<int, seq<Unifier>>)
    requires Entered(s, trail, marks, unify, path, entries) && 0 <= k < |path|
    requires ListOf(lists, path[k]) == ListOf(unify, path[k])
    requires Logged(StoreAt(entries, s, k + 1), now, [], Boxes(path, k + 1))
    ensures var i := |marks| - |path| + k;
            && marks[i] <= EndOf(marks, trail, i + 1) <= |trail| && k < |entries|
            && EndOf(marks, trail, i) == marks[i]
            && StoreAt(entries, s, k) == entries[k]
            && Logged(entries[k], now,
                      Entries(ListOf(lists, path[k])) + trail[..EndOf(marks, trail, i + 1)][marks[i]..], Boxes(path, k))
  {
    assert EnteredAt(s, trail, marks, unify, path, entries, k);
    var i := |marks| - |path| + k;
    var end := EndOf(marks, trail, i + 1);
    assert trail[marks[i]..end] == trail[..end][marks[i]..];
    assert Boxes(path, k) == {path[k]} + Boxes(path, k + 1);
    LoggedThen(entries[k], StoreAt(entries, s, k + 1), now, Entries(ListOf(unify, path[k])) + trail[marks[i]..end],
               {path[k]}, Boxes(path, k + 1));
  }
}
