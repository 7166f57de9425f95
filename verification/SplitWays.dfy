/** What a tree of and-boxes and choice-boxes denotes: in how many ways it can
    be resolved, one alternative for every choice-box. Splitting keeps the
    count of every way. */
module SplitWays {
  import opened SplitTree
  import opened SplitCopy
  import opened SplitChoice

  /** A resolution: of an and-box, one of every choice-box below it; of a
      choice-box, one of its alternatives, or a clause not yet tried. */
  datatype Way = Goals(load: int, ways: seq<Way>) | Clause(load: int, way: Way) | Untried(load: int)

  /** In how many ways w resolves the and-box t. A dead box has none. */
  function AndWays(t: Tree, w: Way): nat
    decreases t, 2
  {
    if !t.dead && w.Goals? && w.load == t.load && |w.ways| == |t.kids| then Product(t.kids, w.ways) else 0
  }

  /** In how many ways w resolves the choice-box t. */
  function ChoiceWays(t: Tree, w: Way): nat
    decreases t, 2
  {
    match w
    case Goals(_, _) => 0
    case Clause(load, way) => if load == t.load then Sum(t.kids, way) else 0
    case Untried(load) => if t.open && load == t.load then 1 else 0
  }

  function Product(kids: seq<Tree>, ways: seq<Way>): nat
    requires |ways| == |kids|
    decreases kids, 1
  {
    if kids == [] then 1 else Times(ChoiceWays(kids[0], ways[0]), Product(kids[1..], ways[1..]))
  }

  function Sum(kids: seq<Tree>, way: Way): nat
    decreases kids, 1
  {
    if kids == [] then 0 else AndWays(kids[0], way) + Sum(kids[1..], way)
  }

  function Times(a: nat, b: nat): nat {
    a * b
  }

  // ------------------------------------------------ names do not matter

  lemma {:induction false} SameWays(t: Tree, u: Tree, w: Way)
    requires SameTree(t, u)
    ensures AndWays(t, w) == AndWays(u, w) && ChoiceWays(t, w) == ChoiceWays(u, w)
    decreases t, 2
  {
    if w.Goals? && |w.ways| == |t.kids| {
      SameProduct(t.kids, u.kids, w.ways);
    }
    if w.Clause? {
      SameSum(t.kids, u.kids, w.way);
    }
  }

  lemma {:induction false} SameProduct(a: seq<Tree>, b: seq<Tree>, ways: seq<Way>)
    requires |a| == |b| == |ways| && forall i :: 0 <= i < |a| ==> SameTree(a[i], b[i])
    ensures Product(a, ways) == Product(b, ways)
    decreases a, 1
  {
    if a != [] {
      SameWays(a[0], b[0], ways[0]);
      assert forall i :: 0 <= i < |a| - 1 ==> a[1..][i] == a[i + 1] && b[1..][i] == b[i + 1];
      SameProduct(a[1..], b[1..], ways[1..]);
    }
  }

  lemma {:induction false} SameSum(a: seq<Tree>, b: seq<Tree>, way: Way)
    requires |a| == |b| && forall i :: 0 <= i < |a| ==> SameTree(a[i], b[i])
    ensures Sum(a, way) == Sum(b, way)
    decreases a, 1
  {
    if a != [] {
      SameWays(a[0], b[0], way);
      assert forall i :: 0 <= i < |a| - 1 ==> a[1..][i] == a[i + 1] && b[1..][i] == b[i + 1];
      SameSum(a[1..], b[1..], way);
    }
  }

  // ------------------------------------------------ splitting

  lemma {:induction false} SumSplit(a: seq<Tree>, b: seq<Tree>, way: Way)
    ensures Sum(a + b, way) == Sum(a, way) + Sum(b, way)
    decreases |a|
  {
    if a == [] {
      assert a + b == b;
    } else {
      assert (a + b)[1..] == a[1..] + b;
      SumSplit(a[1..], b, way);
    }
  }

  /** The fork without any alternative: only its untried clauses are left. */
  function Bare(a: Tree, q: int): Tree
    requires 0 <= q < |a.kids|
  {
    Put(a, q, a.kids[q].(kids := []))
  }

  /** At the fork: what one alternative and the others have together, the fork
      had, and the untried clauses are there twice. */
  lemma ForkWays(f: Tree, c: int, w: Way)
    requires 0 <= c < |f.kids|
    ensures ChoiceWays(Only(f, c), w) + ChoiceWays(Others(f, c), w) == ChoiceWays(f, w) + ChoiceWays(f.(kids := []), w)
  {
    if w.Clause? {
      var a, k, b := f.kids[..c], f.kids[c], f.kids[c + 1..];
      assert f.kids == a + ([k] + b) && Without(f.kids, c) == a + b;
      SumSplit(a, [k] + b, w.way);
      SumSplit([k], b, w.way);
      SumSplit(a, b, w.way);
    }
  }

  lemma TimesSum(a: nat, b: nat, c: nat, d: nat, e: nat)
    requires a + b == c + d
    ensures Times(a, e) + Times(b, e) == Times(c, e) + Times(d, e)
    ensures Times(e, a) + Times(e, b) == Times(e, c) + Times(e, d)
  {
    calc {
      a * e + b * e;
      (a + b) * e;
      (c + d) * e;
      c * e + d * e;
    }
  }

  /** A sum at one place of a product. */
  lemma {:induction false} ProductSum(kids: seq<Tree>, ways: seq<Way>, q: int, x: Tree, y: Tree, z: Tree)
    requires |ways| == |kids| && 0 <= q < |kids|
    requires ChoiceWays(x, ways[q]) + ChoiceWays(y, ways[q]) == ChoiceWays(kids[q], ways[q]) + ChoiceWays(z, ways[q])
    ensures Product(kids[q := x], ways) + Product(kids[q := y], ways) ==
            Product(kids, ways) + Product(kids[q := z], ways)
    decreases q
  {
    var rest, more := kids[1..], ways[1..];
    if q == 0 {
      assert kids[0 := x][1..] == rest && kids[0 := y][1..] == rest && kids[0 := z][1..] == rest;
      TimesSum(ChoiceWays(x, ways[0]), ChoiceWays(y, ways[0]), ChoiceWays(kids[0], ways[0]), ChoiceWays(z, ways[0]),
        Product(rest, more));
    } else {
      assert rest[q - 1] == kids[q] && more[q - 1] == ways[q];
      ProductSum(rest, more, q - 1, x, y, z);
      assert kids[q := x][1..] == rest[q - 1 := x] && kids[q := y][1..] == rest[q - 1 := y]
        && kids[q := z][1..] == rest[q - 1 := z];
      TimesSum(Product(rest[q - 1 := x], more), Product(rest[q - 1 := y], more), Product(rest, more),
        Product(rest[q - 1 := z], more),
               ChoiceWays(kids[0], ways[0]));
    }
  }

  /** The two and-boxes of a split have together the ways of the original one,
      and those through clauses the fork had not tried twice. */
  lemma SplitWays(a: Tree, q: int, c: int, w: Way)
    requires IsFork(a, q, c)
    ensures AndWays(Chosen(a, q, c), w) + AndWays(Rest(a, q, c), w) == AndWays(a, w) + AndWays(Bare(a, q), w)
  {
    if !a.dead && w.Goals? && w.load == a.load && |w.ways| == |a.kids| {
      var f := a.kids[q];
      ForkWays(f, c, w.ways[q]);
      ProductSum(a.kids, w.ways, q, Only(f, c), Others(f, c), f.(kids := []));
    }
  }

  lemma {:induction false} NoProduct(kids: seq<Tree>, ways: seq<Way>, q: int)
    requires |ways| == |kids| && 0 <= q < |kids| && ChoiceWays(kids[q], ways[q]) == 0
    ensures Product(kids, ways) == 0
    decreases q
  {
    if q > 0 {
      assert kids[1..][q - 1] == kids[q] && ways[1..][q - 1] == ways[q];
      NoProduct(kids[1..], ways[1..], q - 1);
    }
  }

  /** Splitting preserves meaning: when the fork has no untried clauses, the copy
      u and what is left of the and-box resolve together exactly as the original
      did, way by way. */
  lemma SplitMeaning(a: Tree, q: int, c: int, u: Tree, w: Way)
    requires IsFork(a, q, c) && !a.kids[q].open && SameTree(Chosen(a, q, c), u)
    ensures AndWays(u, w) + AndWays(Rest(a, q, c), w) == AndWays(a, w)
  {
    SplitWays(a, q, c, w);
    SameWays(Chosen(a, q, c), u, w);
    var b := Bare(a, q);
    if !b.dead && w.Goals? && w.load == b.load && |w.ways| == |b.kids| {
      assert b.kids[q] == a.kids[q].(kids := []);
      NoProduct(b.kids, w.ways, q);
    }
  }

  /** The two boxes have together the ways of the original one. */
  predicate Together(a: Tree, q: int, c: int, w: Way)
    requires IsFork(a, q, c)
  {
    AndWays(Chosen(a, q, c), w) + AndWays(Rest(a, q, c), w) == AndWays(a, w)
  }

  /** w does not go through an untried clause of the fork. */
  predicate Tried(a: Tree, q: int, w: Way)
    requires 0 <= q < |a.kids|
  {
    AndWays(Bare(a, q), w) == 0
  }

  /** With untried clauses it does so if and only if no way goes through them. */
  lemma SplitExactly(a: Tree, q: int, c: int)
    requires IsFork(a, q, c)
    ensures (forall w :: Together(a, q, c, w)) <==> (forall w :: Tried(a, q, w))
  {
    hide AndWays, Chosen, Rest, Bare;
    forall w
      ensures Together(a, q, c, w) <==> Tried(a, q, w)
    {
      SplitWays(a, q, c, w);
    }
  }

  // ------------------------------------------------ a condition on the tree

  /** The and-box can be resolved: it is not dead, and each of its forks can. */
  predicate AndCan(t: Tree)
    decreases t, 2
  {
    !t.dead && AllCan(t.kids)
  }

  /** The choice-box can: it has untried clauses, or one of its alternatives can. */
  predicate ChoiceCan(t: Tree)
    decreases t, 2
  {
    t.open || AnyCan(t.kids)
  }

  predicate AllCan(kids: seq<Tree>)
    decreases kids, 1
  {
    kids == [] || (ChoiceCan(kids[0]) && AllCan(kids[1..]))
  }

  predicate AnyCan(kids: seq<Tree>)
    decreases kids, 1
  {
    kids != [] && (AndCan(kids[0]) || AnyCan(kids[1..]))
  }

  /** One way to resolve what can be. */
  function AndWay(t: Tree): Way
    decreases t, 2
  {
    Goals(t.load, AllWays(t.kids))
  }

  function ChoiceWay(t: Tree): Way
    decreases t, 2
  {
    if t.open then Untried(t.load) else Clause(t.load, AnyWay(t.kids))
  }

  function AllWays(kids: seq<Tree>): (r: seq<Way>)
    ensures |r| == |kids|
    decreases kids, 1
  {
    if kids == [] then [] else [ChoiceWay(kids[0])] + AllWays(kids[1..])
  }

  function AnyWay(kids: seq<Tree>): Way
    decreases kids, 1
  {
    if kids == [] then Untried(0) else if AndCan(kids[0]) then AndWay(kids[0]) else AnyWay(kids[1..])
  }

  lemma TimesPositive(a: nat, b: nat)
    ensures Times(a, b) > 0 <==> a > 0 && b > 0
  {
    if a > 0 && b > 0 {
      assert a * b >= b;
    }
  }

  /** What can be resolved has a way, and what has a way can be resolved. */
  lemma {:induction false} CanResolve(t: Tree, w: Way)
    ensures AndCan(t) ==> AndWays(t, AndWay(t)) > 0
    ensures ChoiceCan(t) ==> ChoiceWays(t, ChoiceWay(t)) > 0
    ensures AndWays(t, w) > 0 ==> AndCan(t)
    ensures ChoiceWays(t, w) > 0 ==> ChoiceCan(t)
    decreases t, 2
  {
    AllResolve(t.kids, if w.Goals? && |w.ways| == |t.kids| then w.ways else AllWays(t.kids));
    AnyResolve(t.kids, if w.Clause? then w.way else w);
  }

  lemma {:induction false} AllResolve(kids: seq<Tree>, ways: seq<Way>)
    requires |ways| == |kids|
    ensures AllCan(kids) ==> Product(kids, AllWays(kids)) > 0
    ensures Product(kids, ways) > 0 ==> AllCan(kids)
    decreases kids, 1
  {
    if kids != [] {
      CanResolve(kids[0], ways[0]);
      AllResolve(kids[1..], ways[1..]);
      var ws := AllWays(kids);
      assert ws[1..] == AllWays(kids[1..]);
      TimesPositive(ChoiceWays(kids[0], ws[0]), Product(kids[1..], ws[1..]));
      TimesPositive(ChoiceWays(kids[0], ways[0]), Product(kids[1..], ways[1..]));
    }
  }

  lemma {:induction false} AnyResolve(kids: seq<Tree>, way: Way)
    ensures AnyCan(kids) ==> Sum(kids, AnyWay(kids)) > 0
    ensures Sum(kids, way) > 0 ==> AnyCan(kids)
    decreases kids, 1
  {
    if kids != [] {
      CanResolve(kids[0], way);
      AnyResolve(kids[1..], way);
    }
  }

  lemma {:induction false} AllCanAt(kids: seq<Tree>)
    ensures AllCan(kids) <==> forall i :: 0 <= i < |kids| ==> ChoiceCan(kids[i])
    decreases |kids|
  {
    if kids != [] {
      AllCanAt(kids[1..]);
      assert forall i :: 0 < i < |kids| ==> kids[i] == kids[1..][i - 1];
      if AllCan(kids) {
        forall i | 0 <= i < |kids|
          ensures ChoiceCan(kids[i])
        {
          assert i > 0 ==> ChoiceCan(kids[1..][i - 1]);
        }
      }
    }
  }

  /** What splitting cannot keep apart: the fork has untried clauses, and what is
      around it can be resolved. */
  predicate Shared(a: Tree, q: int)
    requires 0 <= q < |a.kids|
  {
    a.kids[q].open && !a.dead && forall i :: 0 <= i < |a.kids| && i != q ==> ChoiceCan(a.kids[i])
  }

  lemma BareCan(a: Tree, q: int)
    requires 0 <= q < |a.kids|
    ensures AndCan(Bare(a, q)) <==> Shared(a, q)
  {
    var b := Bare(a, q);
    AllCanAt(b.kids);
    forall i | 0 <= i < |a.kids|
      ensures ChoiceCan(b.kids[i]) <==> if i == q then a.kids[q].open else ChoiceCan(a.kids[i])
    {
    }
    forall i | 0 <= i < |a.kids| && AndCan(b)
      ensures i != q ==> ChoiceCan(a.kids[i])
    {
      assert ChoiceCan(b.kids[i]);
    }
  }

  /** The split preserves every way if and only if not: the fork has untried
      clauses, the and-box is not dead, and each other fork of it can be
      resolved. */
  lemma SplitOnTree(a: Tree, q: int, c: int)
    requires IsFork(a, q, c)
    ensures (forall w :: Together(a, q, c, w)) <==> !Shared(a, q)
  {
    SplitExactly(a, q, c);
    BareCan(a, q);
    hide AndWays, Together, Shared, AndCan, Bare;
    if AndCan(Bare(a, q)) {
      CanResolve(Bare(a, q), Untried(0));
      assert !Tried(a, q, AndWay(Bare(a, q)));
    } else {
      forall w
        ensures Tried(a, q, w)
      {
        CanResolve(Bare(a, q), w);
      }
    }
  }

  /** The choice-box above loses and gains nothing either: its and-box has been
      replaced by two that have its ways. */
  lemma SplitAbove(rt: Tree, p: int, q: int, c: int, u: Tree, w: Way)
    requires 0 <= p < |rt.kids| && IsFork(rt.kids[p], q, c) && !rt.kids[p].kids[q].open
             && SameTree(Chosen(rt.kids[p], q, c), u)
    ensures ChoiceWays(Beside(rt, p, u, Rest(rt.kids[p], q, c)), w) == ChoiceWays(rt, w)
  {
    if w.Clause? {
      var k, r := rt.kids[p], Rest(rt.kids[p], q, c);
      var t := Beside(rt, p, u, r);
      hide *;
      SumAround(rt.kids, p, w.way);
      SumBeside(rt, p, u, r, w.way);
      SplitMeaning(k, q, c, u, w.way);
      ClauseWays(rt, t, w);
    }
  }

  lemma ClauseWays(t: Tree, u: Tree, w: Way)
    requires w.Clause? && t.load == u.load && Sum(t.kids, w.way) == Sum(u.kids, w.way)
    ensures ChoiceWays(t, w) == ChoiceWays(u, w)
  {
  }

  lemma OneSum(k: Tree, way: Way)
    ensures Sum([k], way) == AndWays(k, way)
  {
  }

  lemma SumAround(kids: seq<Tree>, p: int, way: Way)
    requires 0 <= p < |kids|
    ensures Sum(kids, way) == Sum(kids[..p], way) + AndWays(kids[p], way) + Sum(kids[p + 1..], way)
  {
    hide *;
    assert kids == kids[..p] + ([kids[p]] + kids[p + 1..]);
    SumSplit(kids[..p], [kids[p]] + kids[p + 1..], way);
    SumSplit([kids[p]], kids[p + 1..], way);
    OneSum(kids[p], way);
  }

  lemma SumBeside(t: Tree, p: int, u: Tree, r: Tree, way: Way)
    requires 0 <= p < |t.kids|
    ensures Beside(t, p, u, r).load == t.load
    ensures Sum(Beside(t, p, u, r).kids, way) == Sum(t.kids[..p], way) + AndWays(u, way) + AndWays(r, way)
            + Sum(t.kids[p + 1..], way)
  {
    var a, b, w := t.kids[..p], t.kids[p + 1..], Beside(t, p, u, r);
    assert w.kids == a + ([u] + ([r] + b)) && w.load == t.load;
    hide *;
    SumSplit(a, [u] + ([r] + b), way);
    SumSplit([u], [r] + b, way);
    SumSplit([r], b, way);
    OneSum(u, way);
    OneSum(r, way);
  }
}
