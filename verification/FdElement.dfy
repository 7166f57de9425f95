/** The two ranges of element(I, L, X): the values of a list at the positions in
    a domain, and the positions of the values in a domain. Positions count from
    one; the list is one of integers. */
module FdElement {
  import opened FdWords
  import opened FdExpr
  import opened FdVar

  // ------------------------------------------------ the constraint

  /** Both indexicals hold for a position and a value exactly when the list has
      the value there, so they stand for one constraint. */
  lemma BothHold(i: int, x: int, list: seq<int>)
    ensures x in ValuesAt({i}, list) <==> Position(list, i) && ListAt(list, i) == x
    ensures i in PositionsOf({x}, list) <==> Position(list, i) && ListAt(list, i) == x
  {
    if Position(list, i) && ListAt(list, i) == x {
      assert i in {i};
    }
  }

  /** As the domain shrinks both ranges shrink, as fd_element_mon has it; and they
      lose no pair of the constraint. */
  lemma BothShrink(s: set<int>, t: set<int>, list: seq<int>)
    requires t <= s
    ensures ValuesAt(t, list) <= ValuesAt(s, list) && PositionsOf(t, list) <= PositionsOf(s, list)
    ensures forall i :: Position(list, i) && i in t ==> ListAt(list, i) in ValuesAt(t, list)
    ensures forall i :: Position(list, i) && ListAt(list, i) in t ==> i in PositionsOf(t, list)
  {
  }

  // ------------------------------------------------ the two instructions

  /** No value of the list is read outside the list, and no value is written
      outside the block. */
  ghost predicate ValuesDefined(x: Fd, list: seq<int>) {
    if x.bound >= 0 then Position(list, x.bound) && ListAt(list, x.bound) <= 255
    else x.lo <= x.hi ==>
      x.lo >= 1 && x.hi <= |list| && forall i :: i in DomOf(x) ==> 0 <= ListAt(list, i) <= 255
  }

  /** The same, of the domain alone. */
  lemma DefinedOk(x: Fd, list: seq<int>)
    requires ValidFd(x)
    ensures ValuesDefined(x, list) <==> ElementOk(true, DomOf(x), list)
  {
    DomFacts(x);
    var s := DomOf(x);
    if x.bound >= 0 {
      assert x.bound in s && Single(s);
    } else if x.lo <= x.hi {
      assert IsMin(s, x.lo) && IsMax(s, x.hi) && !Single(s) by {
        if !x.interval {
          ShowsSetOf(x.words);
        }
      }
      assert x.lo in s && x.hi in s;
    } else {
      assert s == {};
    }
  }

  /** The values below position i. */
  ghost function Before(x: Fd, list: seq<int>, i: int): set<int> {
    ValuesAt((set v | v in DomOf(x) && v < i), list)
  }

  lemma BeforeNext(x: Fd, list: seq<int>, i: int)
    requires Position(list, i)
    ensures Before(x, list, i + 1) == if i in DomOf(x) then Before(x, list, i) + {ListAt(list, i)}
            else Before(x, list, i)
  {
    var p, q := (set v | v in DomOf(x) && v < i), (set v | v in DomOf(x) && v < i + 1);
    assert q == if i in DomOf(x) then p + {i} else p;
    if i in DomOf(x) {
      assert i in q && ListAt(list, i) in ValuesAt(q, list);
      forall v | v in ValuesAt(q, list)
        ensures v in ValuesAt(p, list) + {ListAt(list, i)}
      {
        var j :| j in q && Position(list, j) && ListAt(list, j) == v;
        if j != i {
          assert j in p;
        }
      }
      BothShrink(q, p, list);
    }
  }

  /** fd_element_x */
  method ElementX(x: Fd, list: seq<int>, m: array<Word>, o: int) returns (ok: bool)
    requires ValidFd(x) && 0 <= o <= m.Length - 8
    modifies m
    ensures ok <==> ValuesDefined(x, list)
    ensures ok ==> OnlyBlock(m, o) && SetOf(Block(m, o)) == ValuesAt(DomOf(x), list) * Universe()
  {
    hide SetOf, Shows, Or, Mask;
    if x.bound >= 0 {
      if !Position(list, x.bound) {
        return false;
      }
      var val := list[x.bound - 1];
      ok := FillRange(val, val, m, o);
      assert ValuesAt({x.bound}, list) == {val} by {
        assert x.bound in {x.bound};
      }
      assert Interval(val, val) == {val};
      return;
    }
    DomFacts(x);
    var filled := FillRange(1, 0, m, o);
    var i, max := x.lo, x.hi;
    if i <= max && (i < 1 || max > |list|) {
      return false;
    }
    EmptyBlock(x, list, i);
    while i <= max
      invariant x.lo <= i && (x.lo <= x.hi ==> 1 <= i <= max + 1 <= |list| + 1)
      invariant OnlyBlock(m, o) && SetOf(Block(m, o)) == Before(x, list, i)
      invariant forall j :: j in DomOf(x) && j < i ==> 0 <= ListAt(list, j) <= 255
    {
      BeforeNext(x, list, i);
      var here := InFd(x, i);
      if here {
        var val := list[i - 1];
        if !(0 <= val <= 255) {
          return false;
        }
        PutBit(m, o, val);
      }
      i := i + 1;
    }
    AllBefore(x, list, i);
    return true;
  }

  lemma EmptyBlock(x: Fd, list: seq<int>, i: int)
    requires ValidFd(x) && x.bound == -1 && i == x.lo
    ensures Interval(1, 0) * Universe() == Before(x, list, i) == {}
  {
    DomFacts(x);
    assert (set v | v in DomOf(x) && v < i) == {};
  }

  lemma AllBefore(x: Fd, list: seq<int>, i: int)
    requires ValidFd(x) && x.bound == -1 && i > x.hi && ValuesDefined(x, list)
    ensures Before(x, list, i) == ValuesAt(DomOf(x), list) * Universe()
  {
    DomFacts(x);
    assert (set v | v in DomOf(x) && v < i) == DomOf(x);
    forall v | v in ValuesAt(DomOf(x), list)
      ensures v in Universe()
    {
    }
  }

  /** Sets the bit of a value. */
  method PutBit(m: array<Word>, o: int, v: int)
    requires 0 <= o <= m.Length - 8 && 0 <= v <= 255
    modifies m
    ensures OnlyBlock(m, o) && SetOf(Block(m, o)) == old(SetOf(Block(m, o))) + {v}
  {
    ghost var w := Block(m, o);
    ShowsSetOf(w);
    PutShows(w, SetOf(w), v);
    m[o + v / 32] := Or(m[o + v / 32], Mask(v % 32));
    assert Block(m, o) == w[v / 32 := Or(w[v / 32], Mask(v % 32))];
    ShowsOne(Block(m, o), SetOf(w) + {v});
  }

  /** The positions found below i. */
  ghost function Found(x: Fd, list: seq<int>, i: int): set<int> {
    set j | 1 <= j <= |list| && j < i && ListAt(list, j) in DomOf(x)
  }

  /** fd_element_i */
  method ElementI(x: Fd, list: seq<int>, m: array<Word>, o: int) returns (ok: bool)
    requires ValidFd(x) && 0 <= o <= m.Length - 8
    modifies m
    ensures ok <==> forall i :: i in PositionsOf(DomOf(x), list) ==> i <= 255
    ensures ok ==> OnlyBlock(m, o) && SetOf(Block(m, o)) == PositionsOf(DomOf(x), list)
  {
    hide SetOf, Shows, Or, Mask;
    DomFacts(x);
    var filled := FillRange(1, 0, m, o);
    assert Interval(1, 0) * Universe() == {};
    var i := 1;
    while i <= |list|
      invariant 1 <= i <= |list| + 1
      invariant OnlyBlock(m, o) && SetOf(Block(m, o)) == Found(x, list, i)
      invariant forall j :: j in Found(x, list, i) ==> j <= 255
    {
      var val := list[i - 1];
      assert val == ListAt(list, i);
      assert Found(x, list, i + 1) == if val in DomOf(x) then Found(x, list, i) + {i} else Found(x, list, i);
      var here: bool;
      if x.bound >= 0 {
        here := x.bound == val;
      } else if x.lo <= val <= x.hi {
        here := InFd(x, val);
      } else {
        here := false;
        OutsideDom(x, val);
      }
      if here {
        assert i in PositionsOf(DomOf(x), list);
        if i > 255 {
          return false;
        }
        PutBit(m, o, i);
      }
      i := i + 1;
    }
    assert Found(x, list, i) == PositionsOf(DomOf(x), list);
    return true;
  }

  lemma OutsideDom(x: Fd, v: int)
    requires ValidFd(x) && x.bound == -1 && !(x.lo <= v <= x.hi)
    ensures v !in DomOf(x)
  {
    DomFacts(x);
  }
}
