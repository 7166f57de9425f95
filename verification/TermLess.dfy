/** The standard order of ground terms, said without a comparison: which of two
    terms comes first. */
module TermLess {
  import opened TermOrder

  // ------------------------------------------------ names

  /** a is a proper part of b from its start, or has the smaller character where
      they first differ. */
  predicate StrBefore(a: string, b: string) {
    exists i :: 0 <= i <= |a| && PartedAt(a, b, i)
  }

  predicate PartedAt(a: string, b: string, i: nat)
    requires i <= |a|
  {
    i < |b| && a[..i] == b[..i] && (i == |a| || a[i] < b[i])
  }

  lemma PartedTail(a: string, b: string, i: nat)
    requires i < |a| && b != [] && a[0] == b[0]
    ensures PartedAt(a, b, i + 1) <==> PartedAt(a[1..], b[1..], i)
  {
    if i + 1 < |b| {
      assert a[..i + 1] == [a[0]] + a[1..][..i] && b[..i + 1] == [b[0]] + b[1..][..i];
      assert a[..i + 1][1..] == a[1..][..i] && b[..i + 1][1..] == b[1..][..i];
    }
  }

  lemma {:induction false} StrLess(a: string, b: string)
    ensures StrCmp(a, b) == LESS <==> StrBefore(a, b)
    decreases a
  {
    if a != [] && b != [] && a[0] == b[0] {
      StrLess(a[1..], b[1..]);
      if StrBefore(a[1..], b[1..]) {
        var i :| 0 <= i <= |a| - 1 && PartedAt(a[1..], b[1..], i);
        PartedTail(a, b, i);
        assert PartedAt(a, b, i + 1);
      }
      if StrBefore(a, b) {
        var i :| 0 <= i <= |a| && PartedAt(a, b, i);
        assert i > 0;
        PartedTail(a, b, i - 1);
      }
    } else if b != [] {
      assert a == [] || a[0] < b[0] ==> PartedAt(a, b, 0);
      FirstParted(a, b);
    }
  }

  lemma FirstParted(a: string, b: string)
    requires b != [] && (a == [] || a[0] != b[0])
    ensures forall i: nat :: i <= |a| && PartedAt(a, b, i) ==> i == 0
  {
    forall i: nat | i <= |a|
      ensures PartedAt(a, b, i) ==> i == 0
    {
      if 0 < i <= |b| {
        assert a[..i][0] == a[0] && b[..i][0] == b[0];
      }
    }
  }

  lemma {:induction false} StrTurned(a: string, b: string)
    ensures StrCmp(a, b) == GREATER <==> StrCmp(b, a) == LESS
    decreases a
  {
    if a != [] && b != [] {
      StrTurned(a[1..], b[1..]);
    }
  }

  /** strcmp, in both directions. */
  lemma StrAnswers(a: string, b: string)
    ensures StrCmp(a, b) == LESS <==> StrBefore(a, b)
    ensures StrCmp(a, b) == EQUAL <==> a == b
    ensures StrCmp(a, b) == GREATER <==> StrBefore(b, a)
  {
    StrLess(a, b);
    StrLess(b, a);
    StrEqual(a, b);
    StrTurned(a, b);
  }

  // ------------------------------------------------ functors

  /** Numbers come before atoms. */
  predicate NameBefore(x: Term, y: Term) {
    || (x.Int? && y.Int? && x.i < y.i)
    || (x.Int? && y.Atm?)
    || (x.Atm? && y.Atm? && StrBefore(x.name, y.name))
  }

  /** The first name in which two rows differ comes before the other. */
  predicate NamesBefore(a: seq<Term>, b: seq<Term>) {
    exists i :: 0 <= i < |a| && NamesPart(a, b, i)
  }

  predicate NamesPart(a: seq<Term>, b: seq<Term>, i: nat)
    requires i < |a|
  {
    i < |b| && NameBefore(a[i], b[i]) && forall j :: 0 <= j < i ==> a[j] == b[j]
  }

  /** By name; then the smaller arity; then the one with fewer features; then by
      the names of the features. */
  predicate FnBefore(f: Functor, g: Functor)
    requires f.Functor? && g.Functor?
  {
    || StrBefore(f.name, g.name)
    || (f.name == g.name && f.arity < g.arity)
    || (f.name == g.name && f.arity == g.arity && f.nums > g.nums)
    || (f.name == g.name && f.arity == g.arity && f.nums == g.nums && NamesBefore(f.names, g.names))
  }

  lemma NameLess(x: Term, y: Term)
    requires IsName(x) && IsName(y)
    ensures NameCmp(x, y) == LESS <==> NameBefore(x, y)
    ensures NameCmp(x, y) == EQUAL <==> x == y
  {
    if x.Atm? && y.Atm? {
      StrAnswers(x.name, y.name);
    }
  }

  lemma NotItself(x: Term)
    requires IsName(x)
    ensures !NameBefore(x, x)
  {
    NameLess(x, x);
  }

  lemma NamesTail(a: seq<Term>, b: seq<Term>, i: nat)
    requires i + 1 < |a| && b != [] && a[0] == b[0]
    ensures NamesPart(a, b, i + 1) <==> NamesPart(a[1..], b[1..], i)
  {
    if NamesPart(a, b, i + 1) {
      forall j | 0 <= j < i
        ensures a[1..][j] == b[1..][j]
      {
        assert a[j + 1] == b[j + 1];
      }
    }
    if NamesPart(a[1..], b[1..], i) {
      forall j | 0 <= j < i + 1
        ensures a[j] == b[j]
      {
        if j > 0 {
          assert a[1..][j - 1] == b[1..][j - 1];
        }
      }
    }
  }

  lemma {:induction false} NamesLess(a: seq<Term>, b: seq<Term>)
    requires AllNames(a) && AllNames(b) && |a| == |b|
    ensures NameRows(a, b) == LESS <==> NamesBefore(a, b)
    decreases a
  {
    if a != [] {
      NameLess(a[0], b[0]);
      NotItself(a[0]);
      hide NameCmp, NameBefore;
      if a[0] != b[0] {
        assert NameBefore(a[0], b[0]) ==> NamesPart(a, b, 0);
        assert forall i: nat :: i < |a| && NamesPart(a, b, i) ==> i == 0;
      } else {
        NamesLess(a[1..], b[1..]);
        if NamesBefore(a[1..], b[1..]) {
          var i :| 0 <= i < |a| - 1 && NamesPart(a[1..], b[1..], i);
          NamesTail(a, b, i);
          assert NamesPart(a, b, i + 1);
        }
        if NamesBefore(a, b) {
          var i :| 0 <= i < |a| && NamesPart(a, b, i);
          assert i > 0;
          NamesTail(a, b, i - 1);
        }
      }
    }
  }

  lemma FnLess(f: Functor, g: Functor)
    requires f.Functor? && g.Functor? && |f.names| == f.arity - f.nums && |g.names| == g.arity - g.nums
    requires AllNames(f.names) && AllNames(g.names)
    ensures Heads(f, g) == LESS <==> FnBefore(f, g)
  {
    StrAnswers(f.name, g.name);
    StrAnswers(f.name, f.name);
    hide StrCmp, StrBefore, NameRows, NamesBefore;
    if f.arity == g.arity && f.nums == g.nums {
      NamesLess(f.names, g.names);
    }
  }

  // ------------------------------------------------ terms

  /** Floats, integers, atoms, compound terms. */
  predicate KindBefore(x: Term, y: Term) {
    || (x.Flt? && !y.Flt?)
    || (x.Int? && !y.Flt? && !y.Int?)
    || (x.Atm? && !y.Flt? && !y.Int? && !y.Atm?)
  }

  predicate HeadBefore(n: string, a: int, m: string, b: int) {
    StrBefore(n, m) || (n == m && a < b)
  }

  /** x comes before y: by kind; the smaller number; the name that comes first;
      the functor that comes first; the first argument in which they differ. */
  ghost predicate Less(x: Term, y: Term)
    decreases x
  {
    KindBefore(x, y) ||
    match x
    case Int(i) => y.Int? && i < y.i
    case Flt(r, _) => y.Flt? && r < y.r
    case Atm(n) => y.Atm? && StrBefore(n, y.name)
    case Lst(a, d) =>
      if y.Lst? then Less(a, y.car) || (Unsigned(a) == Unsigned(y.car) && Less(d, y.cdr))
      else y.Str? && y.fn.Functor? && HeadBefore(".", 2, y.fn.name, y.fn.arity)
    case Str(f, args) =>
      if y.Lst? then f.Functor? && HeadBefore(f.name, f.arity, ".", 2)
      else y.Str? && f.Functor? && y.fn.Functor? &&
           if f != y.fn then FnBefore(f, y.fn)
           else exists i :: 0 <= i < |args| && i < |y.args| && Less(args[i], y.args[i]) && AlikeTo(args, y.args, i)
    case _ => false
  }

  /** The first i terms of two rows are equal up to the signs of zeros. */
  predicate AlikeTo(a: seq<Term>, b: seq<Term>, i: nat) {
    forall j :: 0 <= j < i && j < |a| && j < |b| ==> Unsigned(a[j]) == Unsigned(b[j])
  }

  ghost predicate RowsPart(a: seq<Term>, b: seq<Term>, i: int) {
    0 <= i < |a| && i < |b| && Less(a[i], b[i]) && AlikeTo(a, b, i)
  }

  lemma LessRows(x: Term, y: Term)
    requires x.Str? && y.Str? && x.fn.Functor? && x.fn == y.fn
    ensures Less(x, y) <==> exists i :: RowsPart(x.args, y.args, i)
  {
    if Less(x, y) {
      var i :| 0 <= i < |x.args| && i < |y.args| && Less(x.args[i], y.args[i]) && AlikeTo(x.args, y.args, i);
      assert RowsPart(x.args, y.args, i);
    }
    if i :| RowsPart(x.args, y.args, i) {
      assert Less(x.args[i], y.args[i]) && AlikeTo(x.args, y.args, i);
    }
  }

  lemma HeadLess(n: string, a: int, m: string, b: int)
    ensures HeadCmp(n, a, m, b) == LESS <==> HeadBefore(n, a, m, b)
  {
    StrAnswers(n, m);
    StrAnswers(n, n);
  }

  /** The comparison finds the term that comes first. */
  lemma {:induction false} OrderedLess(x: Term, y: Term)
    requires Ground(x) && Ground(y)
    ensures Ordered(x, y) == LESS <==> Less(x, y)
    decreases x, 1
  {
    match x
    case Int(_) =>
    case Flt(_, _) =>
    case Atm(n) => if y.Atm? { StrAnswers(n, y.name); }
    case Lst(a, d) =>
      if y.Lst? {
        EqualIff(a, y.car);
        OrderedLess(a, y.car);
        OrderedLess(d, y.cdr);
      } else if y.Str? {
        HeadLess(".", 2, y.fn.name, y.fn.arity);
      }
    case Str(f, args) =>
      if y.Lst? {
        HeadLess(f.name, f.arity, ".", 2);
      } else if y.Str? {
        if f != y.fn {
          FnLess(f, y.fn);
        } else {
          RowsLess(args, y.args);
          LessRows(x, y);
        }
      }
  }

  lemma AlikeTail(a: seq<Term>, b: seq<Term>, i: nat)
    requires a != [] && |a| == |b| && i < |a| - 1 && Unsigned(a[0]) == Unsigned(b[0])
    ensures AlikeTo(a, b, i + 1) <==> AlikeTo(a[1..], b[1..], i)
  {
    hide Unsigned;
    if AlikeTo(a, b, i + 1) {
      forall j | 0 <= j < i
        ensures Unsigned(a[1..][j]) == Unsigned(b[1..][j])
      {
        assert Unsigned(a[j + 1]) == Unsigned(b[j + 1]);
      }
    }
    if AlikeTo(a[1..], b[1..], i) {
      forall j | 0 <= j < i + 1
        ensures Unsigned(a[j]) == Unsigned(b[j])
      {
        if j > 0 {
          assert Unsigned(a[1..][j - 1]) == Unsigned(b[1..][j - 1]);
        }
      }
    }
  }

  lemma {:induction false} RowsLess(a: seq<Term>, b: seq<Term>)
    requires |a| == |b| && AllGround(a) && AllGround(b)
    ensures OrderedRows(a, b) == LESS <==> exists i :: RowsPart(a, b, i)
    decreases a, 0
  {
    if a != [] {
      OrderedLess(a[0], b[0]);
      EqualIff(a[0], b[0]);
      RowsLess(a[1..], b[1..]);
      hide Less, Unsigned, Ordered, Ground;
      if Unsigned(a[0]) == Unsigned(b[0]) {
        if i :| RowsPart(a[1..], b[1..], i) {
          AlikeTail(a, b, i);
          assert RowsPart(a, b, i + 1);
        }
        if i :| RowsPart(a, b, i) {
          assert i > 0;
          AlikeTail(a, b, i - 1);
          assert RowsPart(a[1..], b[1..], i - 1);
        }
      } else {
        assert Less(a[0], b[0]) ==> RowsPart(a, b, 0);
        assert forall i :: RowsPart(a, b, i) ==> i == 0;
      }
    }
  }

  /** What the comparison answers on ground terms. */
  lemma StandardOrder(x: Term, y: Term, c: Cmp)
    requires Ground(x) && Ground(y)
    ensures Compare(x, y, c) == Order(LESS) <==> Less(x, y)
    ensures Compare(x, y, c) == Order(EQUAL) <==> Unsigned(x) == Unsigned(y)
    ensures Compare(x, y, c) == Order(GREATER) <==> !Less(x, y) && Unsigned(x) != Unsigned(y)
  {
    CompareIs(x, y, c);
    OrderedLess(x, y);
    EqualIff(x, y);
    hide Less, Unsigned, Ordered, Compare, Ground;
  }

  /** For atoms that is the order of their names, both ways. */
  lemma AtomOrder(a: string, b: string, c: Cmp)
    ensures Compare(Atm(a), Atm(b), c) == Order(LESS) <==> StrBefore(a, b)
    ensures Compare(Atm(a), Atm(b), c) == Order(GREATER) <==> StrBefore(b, a)
  {
    StrAnswers(a, b);
  }
}
