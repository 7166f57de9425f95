/** The order of ground terms is total, except between list cells and structures
    that have the name and the arity of one. */
module TermTotal {
  import opened TermOrder

  // ------------------------------------------------ both ways

  /** Comparing x with y comes down to a list cell and a dotted structure. */
  predicate Clash(x: Term, y: Term)
    requires Ground(x) && Ground(y)
    decreases x, 1
  {
    match x
    case Lst(a, d) =>
      if y.Lst? then if Ordered(a, y.car) != EQUAL then Clash(a, y.car) else Clash(d, y.cdr)
      else Dotted(y)
    case Str(f, args) =>
      if y.Str? then f == y.fn && RowsClash(args, y.args) else y.Lst? && Dotted(x)
    case _ => false
  }

  predicate RowsClash(a: seq<Term>, b: seq<Term>)
    requires |a| == |b| && AllGround(a) && AllGround(b)
    decreases a, 0
  {
    a != [] && if Ordered(a[0], b[0]) != EQUAL then Clash(a[0], b[0]) else RowsClash(a[1..], b[1..])
  }

  lemma {:induction false} StrFlip(a: string, b: string)
    ensures StrCmp(b, a) == Flip(StrCmp(a, b))
    decreases a
  {
    if a != [] && b != [] {
      StrFlip(a[1..], b[1..]);
    }
  }

  lemma {:induction false} NamesFlip(a: seq<Term>, b: seq<Term>)
    requires AllNames(a) && AllNames(b)
    ensures NameRows(b, a) == Flip(NameRows(a, b))
    decreases a
  {
    if a != [] && b != [] {
      if a[0].Atm? && b[0].Atm? {
        StrFlip(a[0].name, b[0].name);
      }
      NamesFlip(a[1..], b[1..]);
    }
  }

  lemma HeadsFlip(f: Functor, g: Functor)
    requires f.Functor? && g.Functor? && AllNames(f.names) && AllNames(g.names)
    ensures Heads(g, f) == Flip(Heads(f, g))
  {
    StrFlip(f.name, g.name);
    NamesFlip(f.names, g.names);
  }

  lemma EqualBoth(x: Term, y: Term)
    requires Ground(x) && Ground(y)
    ensures Ordered(x, y) == EQUAL <==> Ordered(y, x) == EQUAL
  {
    EqualIff(x, y);
    EqualIff(y, x);
  }

  /** The two comparisons of two terms agree if and only if they do not come down
      to a list cell and a dotted structure; then each term is greater. */
  lemma {:induction false} FlipIff(x: Term, y: Term)
    requires Ground(x) && Ground(y)
    ensures Ordered(y, x) == Flip(Ordered(x, y)) <==> !Clash(x, y)
    ensures Clash(x, y) ==> Ordered(x, y) == GREATER && Ordered(y, x) == GREATER
    decreases x, 1
  {
    match x
    case Atm(n) => if y.Atm? { StrFlip(n, y.name); }
    case Lst(a, d) =>
      if y.Lst? {
        EqualBoth(a, y.car);
        FlipIff(a, y.car);
        FlipIff(d, y.cdr);
      } else if y.Str? {
        StrFlip(".", y.fn.name);
        StrEqual(".", y.fn.name);
      }
    case Str(f, args) =>
      if y.Str? {
        HeadsFlip(f, y.fn);
        if f == y.fn {
          RowsFlip(args, y.args);
        }
      } else if y.Lst? {
        StrFlip(f.name, ".");
        StrEqual(f.name, ".");
      }
    case Int(_) =>
    case Flt(_, _) =>
  }

  lemma {:induction false} RowsFlip(a: seq<Term>, b: seq<Term>)
    requires |a| == |b| && AllGround(a) && AllGround(b)
    ensures OrderedRows(b, a) == Flip(OrderedRows(a, b)) <==> !RowsClash(a, b)
    ensures RowsClash(a, b) ==> OrderedRows(a, b) == GREATER && OrderedRows(b, a) == GREATER
    decreases a, 0
  {
    if a != [] {
      EqualBoth(a[0], b[0]);
      FlipIff(a[0], b[0]);
      RowsFlip(a[1..], b[1..]);
    }
  }

  lemma {:induction false} PlainAgree(x: Term, y: Term)
    requires Ground(x) && Ground(y) && Plain(x) && Plain(y)
    ensures !Clash(x, y)
    decreases x, 1
  {
    match x
    case Lst(a, d) =>
      if y.Lst? {
        PlainAgree(a, y.car);
        PlainAgree(d, y.cdr);
      }
    case Str(f, args) =>
      if y.Str? && f == y.fn {
        RowsAgree(args, y.args);
      }
    case Atm(_) =>
    case Int(_) =>
    case Flt(_, _) =>
  }

  lemma {:induction false} RowsAgree(a: seq<Term>, b: seq<Term>)
    requires |a| == |b| && AllGround(a) && AllGround(b) && AllPlain(a) && AllPlain(b)
    ensures !RowsClash(a, b)
    decreases a, 0
  {
    if a != [] {
      PlainAgree(a[0], b[0]);
      RowsAgree(a[1..], b[1..]);
    }
  }

  // ------------------------------------------------ three terms

  /** What the comparisons of x with y and of y with z say of x with z. */
  predicate Chained(p: Cmp, q: Cmp, r: Cmp) {
    && (p == EQUAL ==> r == q) && (q == EQUAL ==> r == p)
    && (p == q ==> r == p)
  }

  lemma ThenChained(p: Cmp, q: Cmp, r: Cmp, s: Cmp, t: Cmp, u: Cmp)
    requires Chained(p, q, r) && (p == EQUAL && q == EQUAL ==> Chained(s, t, u))
    ensures Chained(Then(p, s), Then(q, t), Then(r, u))
  {
  }

  lemma {:induction false} StrChained(a: string, b: string, c: string)
    ensures Chained(StrCmp(a, b), StrCmp(b, c), StrCmp(a, c))
    decreases a
  {
    if a != [] && b != [] && c != [] {
      StrChained(a[1..], b[1..], c[1..]);
    }
  }

  lemma NameChained(x: Term, y: Term, z: Term)
    requires IsName(x) && IsName(y) && IsName(z)
    ensures Chained(NameCmp(x, y), NameCmp(y, z), NameCmp(x, z))
  {
    if x.Atm? && y.Atm? && z.Atm? {
      StrChained(x.name, y.name, z.name);
    }
  }

  lemma {:induction false} NamesChained(a: seq<Term>, b: seq<Term>, c: seq<Term>)
    requires AllNames(a) && AllNames(b) && AllNames(c) && |a| == |b| == |c|
    ensures Chained(NameRows(a, b), NameRows(b, c), NameRows(a, c))
    decreases a
  {
    if a != [] {
      NameChained(a[0], b[0], c[0]);
      NamesChained(a[1..], b[1..], c[1..]);
    }
  }

  predicate NamedFn(f: Functor) {
    f.Functor? && |f.names| == f.arity - f.nums && AllNames(f.names)
  }

  lemma HeadsChained(f: Functor, g: Functor, h: Functor)
    requires NamedFn(f) && NamedFn(g) && NamedFn(h)
    ensures Chained(Heads(f, g), Heads(g, h), Heads(f, h))
  {
    StrChained(f.name, g.name, h.name);
    var p, q, r := NumCmp(f.arity, g.arity), NumCmp(g.arity, h.arity), NumCmp(f.arity, h.arity);
    var s, t, u := NumCmp(g.nums, f.nums), NumCmp(h.nums, g.nums), NumCmp(h.nums, f.nums);
    var v, w, x := NameRows(f.names, g.names), NameRows(g.names, h.names), NameRows(f.names, h.names);
    if p == EQUAL && q == EQUAL && s == EQUAL && t == EQUAL {
      NamesChained(f.names, g.names, h.names);
    }
    hide StrCmp, NumCmp, NameRows;
    if p == EQUAL && q == EQUAL {
      ThenChained(s, t, u, v, w, x);
    }
    ThenChained(p, q, r, Then(s, v), Then(t, w), Then(u, x));
    ThenChained(StrCmp(f.name, g.name), StrCmp(g.name, h.name), StrCmp(f.name, h.name),
      Then(p, Then(s, v)), Then(q, Then(t, w)), Then(r, Then(u, x)));
  }

  /** A list cell as a structure. */
  function Head(t: Term): Functor
    requires t.Lst? || t.Str?
  {
    if t.Lst? then Functor(".", 2, 2, []) else t.fn
  }

  function Body(x: Term, y: Term): Cmp
    requires Ground(x) && Ground(y) && Rank(x) == 3 && Rank(y) == 3
  {
    if x.Lst? && y.Lst? then Then(Ordered(x.car, y.car), Ordered(x.cdr, y.cdr))
    else if x.Str? && y.Str? && x.fn == y.fn then OrderedRows(x.args, y.args)
    else EQUAL
  }

  /** Compound terms without dots compare by their heads first. */
  lemma ByHead(x: Term, y: Term)
    requires Ground(x) && Ground(y) && Plain(x) && Plain(y) && Rank(x) == 3 && Rank(y) == 3
    ensures NamedFn(Head(x)) && NamedFn(Head(y))
    ensures Ordered(x, y) == Then(Heads(Head(x), Head(y)), Body(x, y))
    ensures Heads(Head(x), Head(y)) == EQUAL <==> Head(x) == Head(y)
    ensures Head(x) == Head(y) ==> x.Lst? == y.Lst?
  {
    HeadsCompared(Head(x), Head(y), EQUAL);
    StrEqual(Head(x).name, Head(y).name);
  }

  lemma {:induction false} BodyChained(x: Term, y: Term, z: Term)
    requires Ground(x) && Ground(y) && Ground(z) && Plain(x) && Plain(y) && Plain(z)
    requires Rank(x) == 3 && Rank(y) == 3 && Rank(z) == 3 && Head(x) == Head(y) == Head(z)
    requires x.Lst? == y.Lst? == z.Lst?
    ensures Chained(Body(x, y), Body(y, z), Body(x, z))
    decreases x, 0
  {
    if x.Lst? {
      OrderChained(x.car, y.car, z.car);
      OrderChained(x.cdr, y.cdr, z.cdr);
      hide Ordered;
      ThenChained(Ordered(x.car, y.car), Ordered(y.car, z.car), Ordered(x.car, z.car),
        Ordered(x.cdr, y.cdr), Ordered(y.cdr, z.cdr), Ordered(x.cdr, z.cdr));
    } else {
      RowsChained(x.args, y.args, z.args);
    }
  }

  lemma {:induction false} OrderChained(x: Term, y: Term, z: Term)
    requires Ground(x) && Ground(y) && Ground(z) && Plain(x) && Plain(y) && Plain(z)
    ensures Chained(Ordered(x, y), Ordered(y, z), Ordered(x, z))
    decreases x, 1
  {
    if Rank(x) == 3 && Rank(y) == 3 && Rank(z) == 3 {
      ByHead(x, y);
      ByHead(y, z);
      ByHead(x, z);
      HeadsChained(Head(x), Head(y), Head(z));
      hide Heads, Body, Ordered, Plain, Ground;
      if Head(x) == Head(y) == Head(z) {
        BodyChained(x, y, z);
      }
      ThenChained(Heads(Head(x), Head(y)), Heads(Head(y), Head(z)), Heads(Head(x), Head(z)),
        Body(x, y), Body(y, z), Body(x, z));
    } else if x.Atm? && y.Atm? && z.Atm? {
      StrChained(x.name, y.name, z.name);
    }
  }

  lemma {:induction false} RowsChained(a: seq<Term>, b: seq<Term>, c: seq<Term>)
    requires |a| == |b| == |c| && AllGround(a) && AllGround(b) && AllGround(c)
    requires AllPlain(a) && AllPlain(b) && AllPlain(c)
    ensures Chained(OrderedRows(a, b), OrderedRows(b, c), OrderedRows(a, c))
    decreases a, 0
  {
    if a != [] {
      OrderChained(a[0], b[0], c[0]);
      RowsChained(a[1..], b[1..], c[1..]);
      ThenChained(Ordered(a[0], b[0]), Ordered(b[0], c[0]), Ordered(a[0], c[0]),
        OrderedRows(a[1..], b[1..]), OrderedRows(b[1..], c[1..]), OrderedRows(a[1..], c[1..]));
    }
  }

  // ------------------------------------------------ a total order

  predicate Before(x: Term, y: Term)
    requires Ground(x) && Ground(y)
  {
    Ordered(x, y) != GREATER
  }

  /** On ground terms without dotted structures: reflexive, total, antisymmetric
      up to the signs of zeros, and transitive. */
  lemma TotalOrder(x: Term, y: Term, z: Term)
    requires Ground(x) && Ground(y) && Ground(z) && Plain(x) && Plain(y) && Plain(z)
    ensures Before(x, x) && (Before(x, y) || Before(y, x))
    ensures Before(x, y) && Before(y, x) ==> Unsigned(x) == Unsigned(y)
    ensures Before(x, y) && Before(y, z) ==> Before(x, z)
  {
    EqualIff(x, x);
    EqualIff(x, y);
    PlainFlip(x, y);
    OrderChained(x, y, z);
    hide *;
    TotalFrom(Ordered(x, x), Ordered(x, y), Ordered(y, x), Ordered(y, z), Ordered(x, z));
    BeforeIs(x, x);
    BeforeIs(x, y);
    BeforeIs(y, x);
    BeforeIs(y, z);
    BeforeIs(x, z);
  }

  lemma BeforeIs(x: Term, y: Term)
    requires Ground(x) && Ground(y)
    ensures Before(x, y) <==> Ordered(x, y) != GREATER
  {
  }

  lemma PlainFlip(x: Term, y: Term)
    requires Ground(x) && Ground(y) && Plain(x) && Plain(y)
    ensures Ordered(y, x) == Flip(Ordered(x, y))
  {
    PlainAgree(x, y);
    FlipIff(x, y);
  }

  lemma TotalFrom(same: Cmp, p: Cmp, back: Cmp, q: Cmp, r: Cmp)
    requires same == EQUAL && back == Flip(p) && Chained(p, q, r)
    ensures same != GREATER && (p != GREATER || back != GREATER)
    ensures p != GREATER && back != GREATER ==> p == EQUAL
    ensures p != GREATER && q != GREATER ==> r != GREATER
  {
  }

  /** A list cell and the dotted structure of the same arguments are each greater
      than the other; both are sound keys of the comparison. */
  lemma DotsClash(a: Term, d: Term)
    requires Ground(a) && Ground(d)
    ensures var x, y := Lst(a, d), Str(Functor(".", 2, 1, [Atm("f")]), [a, d]);
            Compare(x, y, EQUAL) == Order(GREATER) && Compare(y, x, EQUAL) == Order(GREATER)
  {
    StrEqual(".", ".");
  }
}
