/** Which solution a search by labelling finds: the first one in the order in
    which variables are chosen and values tried. */
module FdFirst {
  import opened FdWords
  import opened FdExpr
  import opened FdProblem
  import opened FdFixpoint

  // ------------------------------------------------ the variable chosen

  /** The first variable of vs that is not determined is the one at i. */
  ghost predicate FirstOpen(vs: seq<int>, box: Box, i: int) {
    && 0 <= i < |vs| && !Single(Dom1(box, vs[i]))
    && forall j :: 0 <= j < i ==> Single(Dom1(box, vs[j]))
  }

  /** x is the first of the variables not determined that have the smallest
      domain. */
  ghost predicate FirstSmallest(vs: seq<int>, box: Box, x: int) {
    exists k :: SmallestAt(vs, box, k) && vs[k] == x
  }

  ghost predicate SmallestAt(vs: seq<int>, box: Box, k: int) {
    && 0 <= k < |vs| && !Single(Dom1(box, vs[k]))
    && (forall j :: 0 <= j < k && !Single(Dom1(box, vs[j])) ==> |Dom1(box, vs[k])| < |Dom1(box, vs[j])|)
    && (forall j :: k <= j < |vs| && !Single(Dom1(box, vs[j])) ==> |Dom1(box, vs[k])| <= |Dom1(box, vs[j])|)
  }

  /** The variable labelled next and the list gone on with: in the order of the
      list what is behind the first variable not determined; smallest domain
      first, the list from that variable on. */
  ghost predicate Chosen(vs: seq<int>, ff: bool, box: Box, x: int, rest: seq<int>) {
    exists i :: ChosenAt(vs, ff, box, i, x, rest)
  }

  ghost predicate ChosenAt(vs: seq<int>, ff: bool, box: Box, i: int, x: int, rest: seq<int>) {
    && FirstOpen(vs, box, i)
    && if ff then FirstSmallest(vs, box, x) && rest == vs[i..] else x == vs[i] && rest == vs[i + 1..]
  }

  // ------------------------------------------------ the solution found

  /** The domains are the values of one solution within the box. */
  ghost predicate IsSolution(p: Problem, box: Box, found: Box) {
    exists a :: a in Sols(p, box) && found == Point(a)
  }

  /** r is what is left of the box with m for x: fewer values, no solution lost. */
  ghost predicate TriedBox(p: Problem, box: Box, x: int, m: int, r: Box)
    requires 0 <= x < |box|
  {
    Narrows(box[x := {m}], r) && Sols(p, r) == Sols(p, box[x := {m}]) && Total(r) < Total(box)
  }

  /** No solution has a smaller value for x than m. */
  ghost predicate NoneLower(p: Problem, box: Box, x: int, m: int)
    requires 0 <= x < |box|
  {
    m in box[x] && forall l :: l in box[x] && l < m ==> Sols(p, box[x := {l}]) == {}
  }

  /** found is reached by taking, for each variable as it is chosen, the least
      value that leaves a solution. */
  ghost predicate FirstFound(p: Problem, vs: seq<int>, ff: bool, box: Box, found: Box)
    decreases Total(box), 1
  {
    || ((forall i :: 0 <= i < |vs| ==> Single(Dom1(box, vs[i]))) && found == box && IsSolution(p, box, box))
    || exists x, rest, m :: Chosen(vs, ff, box, x, rest) && FoundAt(p, rest, ff, box, x, m, found)
  }

  ghost predicate FoundAt(p: Problem, rest: seq<int>, ff: bool, box: Box, x: int, m: int, found: Box)
    decreases Total(box), 0
  {
    0 <= x < |box| && NoneLower(p, box, x, m) &&
    exists r :: TriedBox(p, box, x, m, r) && FirstFound(p, rest, ff, r, found)
  }

  /** found is the first solution among those with m for x. */
  ghost predicate FoundWith(p: Problem, rest: seq<int>, ff: bool, box: Box, x: int, m: int, found: Box)
    requires 0 <= x < |box|
  {
    exists r :: TriedBox(p, box, x, m, r) && FirstFound(p, rest, ff, r, found)
  }

  lemma FoundOne(p: Problem, rest: seq<int>, ff: bool, box: Box, x: int, m: int, r: Box, found: Box)
    requires 0 <= x < |box| && Narrows(box[x := {m}], r) && Sols(p, r) == Sols(p, box[x := {m}])
    requires Total(r) < Total(box) && FirstFound(p, rest, ff, r, found)
    ensures FoundWith(p, rest, ff, box, x, m, found)
  {
    hide Sols, Narrows, Total, FirstFound;
    assert TriedBox(p, box, x, m, r);
  }

  lemma FoundFirst(p: Problem, rest: seq<int>, ff: bool, box: Box, x: int, m: int, found: Box)
    requires 0 <= x < |box| && m in box[x] && SolsBelow(p, box, x, m) == {}
    requires FoundWith(p, rest, ff, box, x, m, found)
    ensures FoundAt(p, rest, ff, box, x, m, found)
  {
    hide Sols, TriedBox, FirstFound;
    forall l | l in box[x] && l < m
      ensures Sols(p, box[x := {l}]) == {}
    {
      var t := Sols(p, box[x := {l}]);
      forall a | a in t
        ensures a in SolsBelow(p, box, x, m)
      {
        OneValueSols(p, box, x, l, a);
      }
    }
  }

  lemma SolutionAbove(p: Problem, box: Box, x: int, m: int, r: Box, found: Box)
    requires 0 <= x < |box| && m in box[x] && Sols(p, r) == Sols(p, box[x := {m}]) && IsSolution(p, r, found)
    ensures IsSolution(p, box, found)
  {
    hide Sols;
    var a :| a in Sols(p, r) && found == Point(a);
    OneValueSols(p, box, x, m, a);
  }

  lemma {:induction false} FirstIsSolution(p: Problem, vs: seq<int>, ff: bool, box: Box, found: Box)
    requires FirstFound(p, vs, ff, box, found)
    ensures IsSolution(p, box, found)
    decreases Total(box)
  {
    hide IsSolution, Chosen, Sols, Single, Narrows, Total;
    if x, rest, m :| Chosen(vs, ff, box, x, rest) && FoundAt(p, rest, ff, box, x, m, found) {
      var r :| TriedBox(p, box, x, m, r) && FirstFound(p, rest, ff, r, found);
      FirstIsSolution(p, rest, ff, r, found);
      SolutionAbove(p, box, x, m, r, found);
    }
  }

  // ------------------------------------------------ the order of the list

  /** Along the list vs the first value in which a and b differ is smaller in a. */
  ghost predicate Precedes(vs: seq<int>, a: seq<int>, b: seq<int>) {
    exists i :: FirstDiffers(vs, a, b, i) && ValueAt(a, vs[i]) < ValueAt(b, vs[i])
  }

  ghost predicate FirstDiffers(vs: seq<int>, a: seq<int>, b: seq<int>, i: int) {
    0 <= i < |vs| && ValueAt(a, vs[i]) != ValueAt(b, vs[i]) &&
    forall j :: 0 <= j < i ==> ValueAt(a, vs[j]) == ValueAt(b, vs[j])
  }

  /** a comes before all other solutions, along the list vs. */
  ghost predicate LeastSolution(p: Problem, vs: seq<int>, box: Box, a: seq<int>) {
    a in Sols(p, box) && forall b :: b in Sols(p, box) && b != a ==> Precedes(vs, a, b)
  }

  /** Every variable is determined or in the list. */
  ghost predicate Listed(n: int, vs: seq<int>, box: Box) {
    && (forall i :: 0 <= i < |vs| ==> 0 <= vs[i] < n)
    && (forall x :: 0 <= x < n ==> x in vs || Single(Dom1(box, x)))
  }

  /** Labelling in the order of the list finds the least solution. */
  lemma {:induction false} FirstIsLeast(p: Problem, vs: seq<int>, box: Box, found: Box)
    requires FirstFound(p, vs, false, box, found) && Listed(|box|, vs, box)
    ensures exists a :: found == Point(a) && LeastSolution(p, vs, box, a)
    decreases Total(box)
  {
    hide Sols, Single, Narrows, Total, Precedes;
    if forall i :: 0 <= i < |vs| ==> Single(Dom1(box, vs[i])) {
      OnlyOne(p, vs, box, found);
    } else {
      var x, rest, m :| Chosen(vs, false, box, x, rest) && FoundAt(p, rest, false, box, x, m, found);
      var r :| TriedBox(p, box, x, m, r) && FirstFound(p, rest, false, r, found);
      var i :| ChosenAt(vs, false, box, i, x, rest);
      ChosenListed(vs, false, box, x, rest);
      RestListed(rest, x, m, box, r);
      FirstIsLeast(p, rest, r, found);
      var a :| found == Point(a) && LeastSolution(p, rest, r, a);
      LeastAbove(p, vs, box, i, m, r, a);
    }
  }

  lemma OnlyOne(p: Problem, vs: seq<int>, box: Box, found: Box)
    requires FirstFound(p, vs, false, box, found) && Listed(|box|, vs, box)
    requires forall i :: 0 <= i < |vs| ==> Single(Dom1(box, vs[i]))
    ensures exists a :: found == Point(a) && LeastSolution(p, vs, box, a)
  {
    hide Sols, Single, Precedes;
    assert found == box && IsSolution(p, box, box);
    var a :| a in Sols(p, box) && box == Point(a);
    forall b | b in Sols(p, box)
      ensures b == a
    {
      SolsAre(p, box, b);
      PointInside(a, b);
    }
    assert LeastSolution(p, vs, box, a);
  }

  lemma PointInside(a: seq<int>, b: seq<int>)
    requires Inside(b, Point(a))
    ensures b == a
  {
    forall x | 0 <= x < |b|
      ensures b[x] == a[x]
    {
      assert b[x] in Point(a)[x];
    }
  }

  /** Every variable but x is determined or in the list. */
  ghost predicate ListedWithout(n: int, rest: seq<int>, x: int, box: Box) {
    && (forall y :: y in rest ==> 0 <= y < n)
    && (forall y :: 0 <= y < n ==> y == x || y in rest || Single(Dom1(box, y)))
  }

  lemma TriedListed(n: int, rest: seq<int>, x: int, m: int, box: Box, r: Box)
    requires ListedWithout(n, rest, x, box) && 0 <= x < |box| == n && Narrows(box[x := {m}], r)
    ensures Listed(n, rest, r)
  {
    assert forall i :: 0 <= i < |rest| ==> rest[i] in rest;
    forall y | 0 <= y < n
      ensures y in rest || Single(Dom1(r, y))
    {
      if y == x {
        var d := {m};
        assert Single(d) && box[x := {m}][x] == d;
        assert r[x] == d;
      } else if Single(Dom1(box, y)) {
        assert r[y] == box[x := {m}][y];
      }
    }
  }

  lemma RestListed(rest: seq<int>, x: int, m: int, box: Box, r: Box)
    requires ListedWithout(|box|, rest, x, box) && 0 <= x < |box| && Narrows(box[x := {m}], r)
    ensures |r| == |box| && Listed(|r|, rest, r)
  {
    TriedListed(|box|, rest, x, m, box, r);
  }

  lemma ChosenListed(vs: seq<int>, ff: bool, box: Box, x: int, rest: seq<int>)
    requires Listed(|box|, vs, box) && Chosen(vs, ff, box, x, rest)
    ensures 0 <= x < |box| && x in vs && !Single(Dom1(box, x)) && ListedWithout(|box|, rest, x, box)
  {
    hide Single;
    var i :| ChosenAt(vs, ff, box, i, x, rest);
    forall y | y in vs && !Single(Dom1(box, y))
      ensures y in vs[i..] && (y == vs[i] || y in vs[i + 1..])
    {
      var j :| 0 <= j < |vs| && vs[j] == y;
      assert vs[i..][j - i] == y;
      if j > i {
        assert vs[i + 1..][j - i - 1] == y;
      }
    }
  }

  /** The values of a solution where its domain is down to one. */
  lemma SameWhereSingle(p: Problem, box: Box, a: seq<int>, b: seq<int>, x: int)
    requires a in Sols(p, box) && b in Sols(p, box) && 0 <= x < |box| && Single(box[x])
    ensures ValueAt(a, x) == ValueAt(b, x)
  {
    SolsAre(p, box, a);
    SolsAre(p, box, b);
    assert a[x] in box[x] && b[x] in box[x];
  }

  /** The least solution for the first open variable set to m is the least. */
  lemma LeastAbove(p: Problem, vs: seq<int>, box: Box, i: int, m: int, r: Box, a: seq<int>)
    requires Listed(|box|, vs, box) && FirstOpen(vs, box, i)
    requires NoneLower(p, box, vs[i], m) && TriedBox(p, box, vs[i], m, r) && LeastSolution(p, vs[i + 1..], r, a)
    ensures LeastSolution(p, vs, box, a)
  {
    var x := vs[i];
    hide Sols, Single, Narrows, Total;
    OneValueSols(p, box, x, m, a);
    forall b | b in Sols(p, box) && b != a
      ensures Precedes(vs, a, b)
    {
      LeastStep(p, vs, box, i, m, r, a, b);
    }
  }

  lemma LeastStep(p: Problem, vs: seq<int>, box: Box, i: int, m: int, r: Box, a: seq<int>, b: seq<int>)
    requires Listed(|box|, vs, box) && FirstOpen(vs, box, i)
    requires NoneLower(p, box, vs[i], m) && TriedBox(p, box, vs[i], m, r) && LeastSolution(p, vs[i + 1..], r, a)
    requires a in Sols(p, box) && ValueAt(a, vs[i]) == m && b in Sols(p, box) && b != a
    ensures Precedes(vs, a, b)
  {
    var x, v := vs[i], ValueAt(b, vs[i]);
    SolsAre(p, box, b);
    hide Sols, Single, Narrows, Total;
    forall j | 0 <= j < i
      ensures ValueAt(a, vs[j]) == ValueAt(b, vs[j])
    {
      assert Dom1(box, vs[j]) == box[vs[j]];
      SameWhereSingle(p, box, a, b, vs[j]);
    }
    assert b[x] in box[x];
    OneValueSols(p, box, x, v, b);
    assert v >= m;
    if v > m {
      assert FirstDiffers(vs, a, b, i);
    } else {
      var rest := vs[i + 1..];
      assert Precedes(rest, a, b);
      var j :| FirstDiffers(rest, a, b, j) && ValueAt(a, rest[j]) < ValueAt(b, rest[j]);
      var h := i + 1 + j;
      assert vs[h] == rest[j];
      forall l | 0 <= l < h
        ensures ValueAt(a, vs[l]) == ValueAt(b, vs[l])
      {
        if l > i {
          assert vs[l] == rest[l - i - 1];
        }
      }
      assert FirstDiffers(vs, a, b, h);
    }
  }
}
