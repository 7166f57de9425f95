/** What a run of the unifier leaves behind to undo it: the trail. */
module UnLog {
  import opened UnStore
  import opened UnUnify
  import opened UnMeaning

  /** Cell c is as it was on entry, or was unbound and is bound now; then it is
      local to one of the and-boxes or logged. */
  ghost predicate CellLogged(entry: Store, s: Store, log: seq<Entry>, mine: set<int>, c: int)
    requires 0 <= c < |s| == |entry|
  {
    s[c] == entry[c] || (Unbound(entry[c]) && !Unbound(s[c]) && (entry[c].home in mine || c in Cells(log)))
  }

  ghost function Cells(log: seq<Entry>): set<int> {
    set i | 0 <= i < |log| :: log[i].c
  }

  /** An entry holds what its cell was on entry; the cell is bound. */
  predicate EntryOk(entry: Store, s: Store, e: Entry) {
    0 <= e.c < |s| == |entry| && entry[e.c] == e.was && Unbound(e.was) && !Unbound(s[e.c])
  }

  /** The log accounts for every binding of an external variable, once. */
  ghost predicate Logged(entry: Store, s: Store, log: seq<Entry>, mine: set<int>) {
    && |s| == |entry|
    && (forall c :: 0 <= c < |s| ==> CellLogged(entry, s, log, mine, c))
    && (forall i :: 0 <= i < |log| ==> EntryOk(entry, s, log[i]))
    && (forall i, j :: 0 <= i < j < |log| ==> log[i].c != log[j].c)
  }

  /** What is logged for two boxes, one entered after the other. */
  lemma LoggedThen(entry: Store, t: Store, s: Store, log: seq<Entry>, mine: set<int>, more: set<int>)
    requires Logged(entry, t, log, mine) && Logged(t, s, [], more)
    ensures Logged(entry, s, log, mine + more)
  {
    forall c | 0 <= c < |s|
      ensures CellLogged(entry, s, log, mine + more, c)
    {
      assert CellLogged(entry, t, log, mine, c) && CellLogged(t, s, [], more, c);
    }
    forall i | 0 <= i < |log|
      ensures EntryOk(entry, s, log[i])
    {
      assert EntryOk(entry, t, log[i]) && CellLogged(t, s, [], more, log[i].c);
    }
  }

  lemma NothingLogged(s: Store, mine: set<int>)
    ensures Logged(s, s, [], mine)
  {
  }

  /** Binding a cell, with an entry for it unless it is local. */
  lemma BindLogged(entry: Store, s: Store, log: seq<Entry>, mine: set<int>, c: int, t: Word, more: seq<Entry>)
    requires Logged(entry, s, log, mine) && Free(s, c) && !Unbound(t)
    requires (s[c].home in mine && more == log) || more == log + [Entry(c, s[c])]
    ensures Logged(entry, s[c := t], more, mine)
  {
    var w := s[c := t];
    assert CellLogged(entry, s, log, mine, c);
    forall i | 0 <= i < |log|
      ensures log[i].c != c
    {
      assert EntryOk(entry, s, log[i]);
    }
    CellsMore(log, Entry(c, s[c]));
    forall e | 0 <= e < |w|
      ensures CellLogged(entry, w, more, mine, e)
    {
      assert CellLogged(entry, s, log, mine, e);
    }
    forall i | 0 <= i < |more|
      ensures EntryOk(entry, w, more[i])
    {
      if i < |log| {
        assert more[i] == log[i] && EntryOk(entry, s, log[i]);
      }
    }
  }

  lemma CellsMore(log: seq<Entry>, e: Entry)
    ensures Cells(log + [e]) == Cells(log) + {e.c}
  {
    var more := log + [e];
    forall c
      ensures c in Cells(more) <==> c in Cells(log) || c == e.c
    {
      if c in Cells(log) {
        var i :| 0 <= i < |log| && log[i].c == c;
        assert more[i].c == c;
      }
      if c == e.c {
        assert more[|log|].c == c;
      }
    }
  }

  /** The log of a state: what was logged before the run, then its trail. */
  function LogOf(pre: seq<Entry>, st: State, base: nat): seq<Entry>
    requires base <= |st.trail|
  {
    pre + st.trail[base..]
  }

  lemma BindToLogged(entry: Store, st: State, pre: seq<Entry>, base: nat, me: int, c: int, t: Word)
    requires base <= |st.trail| && |st.r| == |st.s| && Free(st.s, c) && !Unbound(t)
    requires Logged(entry, st.s, LogOf(pre, st, base), {me})
    ensures var w := BindTo(st, me, c, t);
            st.trail <= w.trail && Logged(entry, w.s, LogOf(pre, w, base), {me})
  {
    var w := BindTo(st, me, c, t);
    assert !IsLocal(st.s, me, c) ==> LogOf(pre, w, base) == LogOf(pre, st, base) + [Entry(c, st.s[c])];
    BindLogged(entry, st.s, LogOf(pre, st, base), {me}, c, t, LogOf(pre, w, base));
  }

  lemma StepLogged(g: Layout, entry: Store, st: State, pre: seq<Entry>, base: nat, me: int)
    requires Good(g, st) && base <= |st.trail| && Logged(entry, st.s, LogOf(pre, st, base), {me})
    ensures var o := Step(g, me, st);
            !o.Clash? ==> st.trail <= o.st.trail && Logged(entry, o.st.s, LogOf(pre, o.st, base), {me})
  {
    hide Logged, Deref;
    if st.x != st.y && (st.x.Ref? || st.y.Ref?) {
      var second := st.y.Ref? && !(st.x.Ref? && BindsFirst(st.s, me, st.x.c, st.y.c));
      var c, t := if second then st.y.c else st.x.c, if second then st.x else st.y;
      BindToLogged(entry, st, pre, base, me, c, t);
    }
  }

  /** A clash leaves no state behind; the store and the trail then are those of
      the last state, which this keeps. */
  ghost function Last(g: Layout, me: int, st: State, n: nat): State
    requires Good(g, st)
    decreases n
  {
    IterateOne(g, me, st, n);
    var o := Step(g, me, st);
    if n == 0 || o.Clash? then st
    else if o.Unified? then o.st
    else Last(g, me, o.st, n - 1)
  }

  lemma {:induction false} LastLogged(g: Layout, entry: Store, st: State, pre: seq<Entry>, base: nat, me: int, n: nat)
    requires Good(g, st) && base <= |st.trail| && Logged(entry, st.s, LogOf(pre, st, base), {me})
    ensures var w := Last(g, me, st, n);
            StoreOk(g, w.s, w.r) && st.trail <= w.trail && Logged(entry, w.s, LogOf(pre, w, base), {me})
    decreases n
  {
    IterateOne(g, me, st, n);
    StepLogged(g, entry, st, pre, base, me);
    var o := Step(g, me, st);
    hide Logged;
    if n > 0 && o.Running? {
      LastLogged(g, entry, o.st, pre, base, me, n - 1);
    }
  }

  lemma {:induction false} LastIs(g: Layout, me: int, st: State, n: nat)
    requires Good(g, st)
    ensures var o := Iterate(g, me, Running(st), n);
            !o.Clash? ==> o.st == Last(g, me, st, n)
    decreases n
  {
    IterateOne(g, me, st, n);
    var o := Step(g, me, st);
    if n > 0 && o.Running? {
      LastIs(g, me, o.st, n - 1);
    }
  }
}
