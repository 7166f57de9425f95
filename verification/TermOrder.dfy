/** The standard order of terms, as the comparison walks two terms, and what it
    is on finite ground trees: a total order. */
module TermOrder {

  datatype Cmp = LESS | EQUAL | GREATER

  /** Not a tree, or an unbound variable was met, or compared. */
  datatype Answer = Refused | Waits | Order(c: Cmp)

  /** Functors are unique. A functor has `nums` arguments by position and one for
      every feature name; the functor object of a term without arguments has that
      term as its name. */
  datatype Functor =
    | Functor(name: string, arity: int, nums: int, names: seq<Term>)
    | Functor0(name0: Term)

  /** A float is a number and a sign, which tells the two zeros apart. Obj is any
      other object, Var an unbound variable. */
  datatype Term =
    | Int(i: int)
    | Flt(r: real, neg: bool)
    | Atm(name: string)
    | Lst(car: Term, cdr: Term)
    | Str(fn: Functor, args: seq<Term>)
    | Fun(fn: Functor)
    | Obj(id: int)
    | Var(id: int)

  function NumCmp(a: int, b: int): Cmp {
    if a < b then LESS else if a == b then EQUAL else GREATER
  }

  function RealCmp(a: real, b: real): Cmp {
    if a < b then LESS else if a == b then EQUAL else GREATER
  }

  /** strcmp */
  function StrCmp(a: string, b: string): Cmp {
    if a == [] then if b == [] then EQUAL else LESS
    else if b == [] then GREATER
    else if a[0] == b[0] then StrCmp(a[1..], b[1..])
    else if a[0] < b[0] then LESS else GREATER
  }

  // ------------------------------------------------ the comparison

  /** akl_compare_aux: c is what the result variable holds before. */
  function Compare(x: Term, y: Term, c: Cmp): Answer
    decreases x, 1
  {
    if x.Var? || y.Var? then Waits
    else match x
      case Int(i) =>
        if y.Int? then Order(NumCmp(i, y.i))
        else if y.Flt? then Order(GREATER)
        else if y.Obj? then Refused else Order(LESS)
      case Flt(r, _) =>
        if y.Flt? then Order(RealCmp(r, y.r))
        else if y.Obj? then Refused else Order(LESS)
      case Atm(n) =>
        if y.Atm? then Order(if n == y.name then EQUAL else if StrCmp(n, y.name) == GREATER then GREATER else LESS)
        else if y.Int? || y.Flt? then Order(GREATER)
        else if y.Obj? then Refused else Order(LESS)
      case Lst(a, d) =>
        if y.Lst? then
          var r := Compare(a, y.car, c);
          if r == Order(EQUAL) then Compare(d, y.cdr, EQUAL) else r
        else if y.Str? && y.fn.Functor? then Order(HeadCmp(".", 2, y.fn.name, y.fn.arity))
        else CompareUp(y)
      case Str(f, args) =>
        if y.Str? then if f == y.fn then CompareArgs(args, y.args, c) else CompareFunctors(f, y.fn, c)
        else if y.Lst? && f.Functor? then Order(HeadCmp(f.name, f.arity, ".", 2))
        else CompareUp(y)
      case Fun(f) =>
        if y.Fun? then CompareFunctors(f, y.fn, c) else Order(GREATER)
      case Obj(_) => Refused
  }

  /** A compound term against something else. */
  function CompareUp(y: Term): Answer {
    if y.Int? || y.Flt? || y.Atm? then Order(GREATER) else if y.Fun? then Order(LESS) else Refused
  }

  /** A list against a structure: a tie goes to the first. */
  function HeadCmp(n: string, a: int, m: string, b: int): Cmp {
    if StrCmp(n, m) != EQUAL then StrCmp(n, m) else if a < b then LESS else GREATER
  }

  function CompareArgs(a: seq<Term>, b: seq<Term>, c: Cmp): Answer
    decreases a, 0
  {
    if a == [] || b == [] then Order(c)
    else
      var r := Compare(a[0], b[0], c);
      if r == Order(EQUAL) then CompareArgs(a[1..], b[1..], EQUAL) else r
  }

  /** compare_functors: more positional arguments come first. */
  function CompareFunctors(f: Functor, g: Functor, c: Cmp): Answer
    decreases f, 0
  {
    match f
    case Functor0(n) => if g.Functor0? then Compare(n, g.name0, c) else Order(LESS)
    case Functor(n, a, k, names) =>
      if g.Functor0? then Order(GREATER)
      else if StrCmp(n, g.name) != EQUAL then Order(StrCmp(n, g.name))
      else if a != g.arity then Order(NumCmp(a, g.arity))
      else if k != g.nums then Order(NumCmp(g.nums, k))
      else CompareArgs(names, g.names, c)
  }

  // ------------------------------------------------ the loops

  /** Structures have as many arguments as their functors say, functors as many
      names as features. */
  predicate Made(t: Term)
    decreases t, 1
  {
    match t
    case Lst(a, d) => Made(a) && Made(d)
    case Str(f, args) => f.Functor? && |args| == f.arity && MadeFn(f) && AllMade(args)
    case Fun(f) => MadeFn(f)
    case _ => true
  }

  predicate MadeFn(f: Functor)
    decreases f, 0
  {
    match f
    case Functor0(n) => Made(n)
    case Functor(_, a, k, names) => |names| == a - k && AllMade(names)
  }

  predicate AllMade(s: seq<Term>)
    decreases s, 0
  {
    s == [] || (Made(s[0]) && AllMade(s[1..]))
  }

  lemma {:induction false} MadeAt(s: seq<Term>, i: nat)
    requires AllMade(s) && i < |s|
    ensures Made(s[i])
    decreases i
  {
    if i > 0 {
      assert s[1..][i - 1] == s[i];
      MadeAt(s[1..], i - 1);
    }
  }

  /** The loop over two rows of arguments or feature names. */
  method CompareRows(a: seq<Term>, b: seq<Term>, c: Cmp) returns (r: Answer)
    requires |a| == |b| && AllMade(a) && AllMade(b)
    ensures r == CompareArgs(a, b, c)
    decreases a, 0
  {
    var i, compres := 0, c;
    while i < |a|
      invariant 0 <= i <= |a|
      invariant CompareArgs(a, b, c) == CompareArgs(a[i..], b[i..], compres)
    {
      assert a[i..][1..] == a[i + 1..] && b[i..][1..] == b[i + 1..];
      MadeAt(a, i);
      MadeAt(b, i);
      r := AklCompareAux(a[i], b[i], compres);
      if r != Order(EQUAL) {
        return;
      }
      compres := EQUAL;
      i := i + 1;
    }
    return Order(compres);
  }

  method CompareFunctorsM(f: Functor, g: Functor, c: Cmp) returns (r: Answer)
    requires MadeFn(f) && MadeFn(g)
    ensures r == CompareFunctors(f, g, c)
    decreases f, 0
  {
    if f.Functor0? {
      if g.Functor0? {
        r := AklCompareAux(f.name0, g.name0, c);
      } else {
        r := Order(LESS);
      }
      return;
    }
    if g.Functor0? {
      return Order(GREATER);
    }
    var cmp := StrCmp(f.name, g.name);
    if cmp != EQUAL {
      return Order(cmp);
    }
    if f.arity < g.arity {
      return Order(LESS);
    } else if f.arity > g.arity {
      return Order(GREATER);
    } else if f.nums < g.nums {
      return Order(GREATER);
    } else if f.nums > g.nums {
      return Order(LESS);
    }
    r := CompareRows(f.names, g.names, c);
  }

  /** The comparison with its loops computes Compare. */
  method AklCompareAux(x: Term, y: Term, c: Cmp) returns (r: Answer)
    requires Made(x) && Made(y)
    ensures r == Compare(x, y, c)
    decreases x, 1
  {
    if x.Var? || y.Var? {
      return Waits;
    }
    r := Refused;
    match x {
      case Int(i) =>
        if y.Int? {
          r := Order(NumCmp(i, y.i));
        } else if y.Flt? {
          r := Order(GREATER);
        } else if !y.Obj? {
          r := Order(LESS);
        }
      case Flt(v, _) =>
        if y.Flt? {
          r := Order(RealCmp(v, y.r));
        } else if !y.Obj? {
          r := Order(LESS);
        }
      case Atm(n) =>
        if y.Atm? {
          var cmp := if n == y.name then EQUAL else StrCmp(n, y.name);
          r := Order(if n == y.name then EQUAL else if cmp == GREATER then GREATER else LESS);
        } else if y.Int? || y.Flt? {
          r := Order(GREATER);
        } else if !y.Obj? {
          r := Order(LESS);
        }
      case Lst(a, d) =>
        if y.Lst? {
          r := AklCompareAux(a, y.car, c);
          if r == Order(EQUAL) {
            r := AklCompareAux(d, y.cdr, EQUAL);
          }
        } else if y.Str? {
          r := Order(HeadCmp(".", 2, y.fn.name, y.fn.arity));
        } else if y.Int? || y.Flt? || y.Atm? {
          r := Order(GREATER);
        } else if y.Fun? {
          r := Order(LESS);
        }
      case Str(f, args) =>
        if y.Str? {
          if f == y.fn {
            r := CompareRows(args, y.args, c);
          } else {
            r := CompareFunctorsM(f, y.fn, c);
          }
        } else if y.Lst? {
          r := Order(HeadCmp(f.name, f.arity, ".", 2));
        } else if y.Int? || y.Flt? || y.Atm? {
          r := Order(GREATER);
        } else if y.Fun? {
          r := Order(LESS);
        }
      case Fun(f) =>
        if y.Fun? {
          r := CompareFunctorsM(f, y.fn, c);
        } else {
          r := Order(GREATER);
        }
      case Obj(_) =>
    }
  }

  // ------------------------------------------------ finite ground trees

  predicate IsName(t: Term) {
    t.Atm? || t.Int?
  }

  predicate AllNames(s: seq<Term>) {
    forall i :: 0 <= i < |s| ==> IsName(s[i])
  }

  predicate Ground(t: Term)
    decreases t, 1
  {
    match t
    case Int(_) => true
    case Flt(r, neg) => r != 0.0 ==> neg == (r < 0.0)
    case Atm(_) => true
    case Lst(a, d) => Ground(a) && Ground(d)
    case Str(f, args) =>
      f.Functor? && f.arity >= 1 && |args| == f.arity && |f.names| == f.arity - f.nums && AllNames(f.names)
      && AllGround(args)
    case _ => false
  }

  predicate AllGround(s: seq<Term>)
    decreases s, 0
  {
    s == [] || (Ground(s[0]) && AllGround(s[1..]))
  }

  /** A structure that is no list cell, but has its name and arity. */
  predicate Dotted(t: Term) {
    t.Str? && t.fn.Functor? && t.fn.name == "." && t.fn.arity == 2
  }

  predicate Plain(t: Term)
    decreases t, 1
  {
    !Dotted(t) &&
    match t
    case Lst(a, d) => Plain(a) && Plain(d)
    case Str(f, args) => AllPlain(args)
    case _ => true
  }

  predicate AllPlain(s: seq<Term>)
    decreases s, 0
  {
    s == [] || (Plain(s[0]) && AllPlain(s[1..]))
  }

  // ------------------------------------------------ the order on them

  function Rank(t: Term): int {
    match t
    case Flt(_, _) => 0
    case Int(_) => 1
    case Atm(_) => 2
    case _ => 3
  }

  function Then(a: Cmp, b: Cmp): Cmp {
    if a == EQUAL then b else a
  }

  function Flip(c: Cmp): Cmp {
    match c
    case LESS => GREATER
    case EQUAL => EQUAL
    case GREATER => LESS
  }

  /** The order of ground terms: by kind, then by value, name and arity, and
      argument by argument. */
  function Ordered(x: Term, y: Term): Cmp
    requires Ground(x) && Ground(y)
    decreases x, 1
  {
    if Rank(x) != Rank(y) then NumCmp(Rank(x), Rank(y))
    else match x
      case Int(i) => NumCmp(i, y.i)
      case Flt(r, _) => RealCmp(r, y.r)
      case Atm(n) => StrCmp(n, y.name)
      case Lst(a, d) =>
        if y.Lst? then Then(Ordered(a, y.car), Ordered(d, y.cdr)) else HeadCmp(".", 2, y.fn.name, y.fn.arity)
      case Str(f, args) =>
        if y.Lst? then HeadCmp(f.name, f.arity, ".", 2)
        else if f == y.fn then OrderedRows(args, y.args)
        else Heads(f, y.fn)
  }

  function OrderedRows(a: seq<Term>, b: seq<Term>): Cmp
    requires |a| == |b| && AllGround(a) && AllGround(b)
    decreases a, 0
  {
    if a == [] then EQUAL else Then(Ordered(a[0], b[0]), OrderedRows(a[1..], b[1..]))
  }

  /** Functors: by name, by arity, those with fewer features first, then by the
      names of the features. */
  function Heads(f: Functor, g: Functor): Cmp
    requires f.Functor? && g.Functor?
  {
    Then(StrCmp(f.name, g.name),
         Then(NumCmp(f.arity, g.arity), Then(NumCmp(g.nums, f.nums), NameRows(f.names, g.names))))
  }

  function NameRows(a: seq<Term>, b: seq<Term>): Cmp
    decreases a
  {
    if a == [] || b == [] then EQUAL else Then(NameCmp(a[0], b[0]), NameRows(a[1..], b[1..]))
  }

  function NameCmp(x: Term, y: Term): Cmp {
    if x.Int? && y.Int? then NumCmp(x.i, y.i)
    else if x.Atm? && y.Atm? then StrCmp(x.name, y.name)
    else if x.Int? then LESS else if y.Int? then GREATER else EQUAL
  }

  lemma {:induction false} StrEqual(a: string, b: string)
    ensures StrCmp(a, b) == EQUAL <==> a == b
    decreases a
  {
    if a != [] && b != [] {
      StrEqual(a[1..], b[1..]);
      assert a == [a[0]] + a[1..] && b == [b[0]] + b[1..];
    }
  }

  lemma NameCompared(x: Term, y: Term, c: Cmp)
    requires IsName(x) && IsName(y)
    ensures Compare(x, y, c) == Order(NameCmp(x, y)) && (NameCmp(x, y) == EQUAL <==> x == y)
  {
    if x.Atm? && y.Atm? {
      StrEqual(x.name, y.name);
    }
  }

  lemma {:induction false} NamesCompared(a: seq<Term>, b: seq<Term>, c: Cmp)
    requires AllNames(a) && AllNames(b) && |a| == |b|
    ensures CompareArgs(a, b, c) == Order(if a == [] then c else NameRows(a, b))
    ensures NameRows(a, b) == EQUAL <==> a == b
    decreases a
  {
    if a != [] {
      NameCompared(a[0], b[0], c);
      NamesCompared(a[1..], b[1..], EQUAL);
      assert a == [a[0]] + a[1..] && b == [b[0]] + b[1..];
    }
  }

  /** Different functors are told apart. */
  lemma HeadsCompared(f: Functor, g: Functor, c: Cmp)
    requires f.Functor? && g.Functor? && |f.names| == f.arity - f.nums && |g.names| == g.arity - g.nums
    requires AllNames(f.names) && AllNames(g.names)
    ensures Heads(f, g) == EQUAL <==> f == g
    ensures f != g ==> CompareFunctors(f, g, c) == Order(Heads(f, g))
  {
    StrEqual(f.name, g.name);
    if f.arity == g.arity && f.nums == g.nums {
      NamesCompared(f.names, g.names, c);
    }
  }

  /** On ground terms the comparison answers with this order, whatever the
      result variable held. */
  lemma {:induction false} CompareIs(x: Term, y: Term, c: Cmp)
    requires Ground(x) && Ground(y)
    ensures Compare(x, y, c) == Order(Ordered(x, y))
    decreases x, 1
  {
    match x
    case Atm(n) => if y.Atm? { StrEqual(n, y.name); }
    case Lst(a, d) =>
      if y.Lst? {
        CompareIs(a, y.car, c);
        CompareIs(d, y.cdr, EQUAL);
      }
    case Str(f, args) =>
      if y.Str? {
        HeadsCompared(f, y.fn, c);
        if f == y.fn {
          RowsAre(args, y.args, c);
        }
      }
    case Int(_) =>
    case Flt(_, _) =>
  }

  lemma {:induction false} RowsAre(a: seq<Term>, b: seq<Term>, c: Cmp)
    requires |a| == |b| && AllGround(a) && AllGround(b)
    ensures CompareArgs(a, b, c) == Order(if a == [] then c else OrderedRows(a, b))
    decreases a, 0
  {
    if a != [] {
      CompareIs(a[0], b[0], c);
      RowsAre(a[1..], b[1..], EQUAL);
    }
  }

  // ------------------------------------------------ equal terms

  /** The term with positive zeros. */
  function Unsigned(t: Term): Term
    decreases t, 1
  {
    match t
    case Flt(r, neg) => Flt(r, neg && r != 0.0)
    case Lst(a, d) => Lst(Unsigned(a), Unsigned(d))
    case Str(f, args) => Str(f, AllUnsigned(args))
    case _ => t
  }

  function AllUnsigned(s: seq<Term>): (r: seq<Term>)
    ensures |r| == |s|
    decreases s, 0
  {
    if s == [] then [] else [Unsigned(s[0])] + AllUnsigned(s[1..])
  }

  /** Terms compare equal exactly when they are equal up to the signs of zeros. */
  lemma {:induction false} EqualIff(x: Term, y: Term)
    requires Ground(x) && Ground(y)
    ensures Ordered(x, y) == EQUAL <==> Unsigned(x) == Unsigned(y)
    decreases x, 1
  {
    match x
    case Atm(n) => if y.Atm? { StrEqual(n, y.name); }
    case Lst(a, d) =>
      if y.Lst? {
        EqualIff(a, y.car);
        EqualIff(d, y.cdr);
      }
    case Str(f, args) =>
      if y.Str? {
        HeadsCompared(f, y.fn, EQUAL);
        if f == y.fn {
          RowsEqual(args, y.args);
        }
      }
    case Int(_) =>
    case Flt(_, _) =>
  }

  lemma {:induction false} RowsEqual(a: seq<Term>, b: seq<Term>)
    requires |a| == |b| && AllGround(a) && AllGround(b)
    ensures OrderedRows(a, b) == EQUAL <==> AllUnsigned(a) == AllUnsigned(b)
    decreases a, 0
  {
    if a != [] {
      EqualIff(a[0], b[0]);
      RowsEqual(a[1..], b[1..]);
      assert AllUnsigned(a)[0] == Unsigned(a[0]) && AllUnsigned(b)[0] == Unsigned(b[0]);
      assert AllUnsigned(a)[1..] == AllUnsigned(a[1..]) && AllUnsigned(b)[1..] == AllUnsigned(b[1..]);
    }
  }
}
