/** One finite-domain variable as the evaluator sees it: a number once it is
    determined, an interval, or a row of domain words. */
module FdVar {
  import opened FdWords
  import opened FdExpr

  /** bound is the value of a determined variable and -1 otherwise. */
  datatype Fd = Fd(bound: int, interval: bool, lo: int, hi: int, words: seq<Word>)

  ghost function DomOf(x: Fd): set<int> {
    if x.bound >= 0 then {x.bound}
    else if x.interval then Interval(x.lo, x.hi)
    else SetOf(x.words)
  }

  /** An undetermined variable has at least two values, or none: an interval
      emptied without the propagator noticing is left as 1..0. */
  ghost predicate ValidFd(x: Fd) {
    && -1 <= x.bound <= 255
    && (x.bound == -1 ==>
          if x.interval then (0 <= x.lo < x.hi <= 255) || (x.lo == 1 && x.hi == 0)
          else 1 <= |x.words| <= 8 && x.lo < x.hi && IsMin(SetOf(x.words), x.lo) && IsMax(SetOf(x.words), x.hi))
  }

  predicate IsDetermined(x: Fd) {
    x.bound >= 0
  }

  function MinVal(x: Fd): int {
    if x.bound >= 0 then x.bound else x.lo
  }

  function MaxVal(x: Fd): int {
    if x.bound >= 0 then x.bound else x.hi
  }

  lemma DomFacts(x: Fd)
    requires ValidFd(x)
    ensures DomOf(x) <= Universe()
    ensures VarMin(DomOf(x)) == MinVal(x) && VarMax(DomOf(x)) == MaxVal(x)
    ensures Single(DomOf(x)) <==> IsDetermined(x)
    ensures DomOf(x) == {} <==> !IsDetermined(x) && x.lo > x.hi
  {
    if x.bound >= 0 {
      assert IsMin({x.bound}, x.bound) && IsMax({x.bound}, x.bound);
    } else {
      var s := DomOf(x);
      if x.lo <= x.hi {
        assert IsMin(s, x.lo) && IsMax(s, x.hi);
        assert x.lo in s && x.hi in s;
      } else {
        assert s == {};
      }
      if !x.interval {
        InUniverse(x.words);
      }
    }
    if DomOf(x) != {} {
      assert IsMin(DomOf(x), Least(DomOf(x))) && IsMax(DomOf(x), Greatest(DomOf(x)));
    }
  }

  lemma OneShows(ws: seq<Word>, v: int)
    requires |ws| == 8 && 0 <= v <= 255
    requires forall q :: 0 <= q < 8 ==> ws[q] == if q == v / 32 then Mask(v % 32) else Zero()
    ensures Shows(ws, {v})
  {
    forall a, b | 0 <= a < 8 && 0 <= b < 32
      ensures ws[a][b] == (32 * a + b in {v})
    {
      assert 32 * a + b == v <==> a == v / 32 && b == v % 32;
    }
  }

  lemma PaddedShows(ws: seq<Word>, us: seq<Word>)
    requires |ws| <= 8 == |us|
    requires forall q :: 0 <= q < 8 ==> us[q] == if q < |ws| then ws[q] else Zero()
    ensures Shows(us, SetOf(ws))
  {
    ShowsSetOf(ws);
    forall a, b | 0 <= a < 8 && 0 <= b < 32
      ensures us[a][b] == (32 * a + b in SetOf(ws))
    {
      if a < |ws| {
        assert ws[a][b] == (32 * a + b in SetOf(ws));
      } else {
        assert forall v :: v in SetOf(ws) ==> v < 32 * |ws|;
      }
    }
  }

  /** Writes the domain of x into a block. */
  method GetDom(x: Fd, m: array<Word>, o: int)
    requires ValidFd(x) && 0 <= o <= m.Length - 8
    modifies m
    ensures OnlyBlock(m, o)
    ensures SetOf(Block(m, o)) == DomOf(x)
  {
    if x.bound >= 0 {
      var lm := x.bound / 32;
      var k := 0;
      while k < lm
        invariant 0 <= k <= lm
        invariant OnlyBlock(m, o)
        invariant forall q :: o <= q < o + k ==> m[q] == Zero()
      {
        m[o + k] := Zero();
        k := k + 1;
      }
      m[o + k] := Mask(x.bound % 32);
      k := k + 1;
      while k < 8
        invariant lm < k <= 8
        invariant OnlyBlock(m, o)
        invariant forall q :: o <= q < o + k ==> m[q] == if q == o + lm then Mask(x.bound % 32) else Zero()
      {
        m[o + k] := Zero();
        k := k + 1;
      }
      OneShows(Block(m, o), x.bound);
      ShowsOne(Block(m, o), {x.bound});
    } else if x.interval {
      var ok := FillRange(x.lo, x.hi, m, o);
      assert Interval(x.lo, x.hi) * Universe() == Interval(x.lo, x.hi);
    } else {
      var k := 0;
      while k < |x.words|
        invariant 0 <= k <= |x.words|
        invariant OnlyBlock(m, o)
        invariant forall q :: o <= q < o + k ==> m[q] == x.words[q - o]
      {
        m[o + k] := x.words[k];
        k := k + 1;
      }
      while k < 8
        invariant |x.words| <= k <= 8
        invariant OnlyBlock(m, o)
        invariant forall q :: o <= q < o + k ==> m[q] == if q - o < |x.words| then x.words[q - o] else Zero()
      {
        m[o + k] := Zero();
        k := k + 1;
      }
      PaddedShows(x.words, Block(m, o));
      ShowsOne(Block(m, o), SetOf(x.words));
    }
  }

  /** in_dom: membership in the domain, for a value between the bounds. */
  method InFd(x: Fd, i: int) returns (b: bool)
    requires ValidFd(x) && x.bound == -1 && x.lo <= i <= x.hi
    ensures b <==> i in DomOf(x)
  {
    if x.interval {
      return true;
    }
    ShowsSetOf(x.words);
    ShowsBounds(x.words, SetOf(x.words));
    MaskTest(x.words, i);
    b := NonZero(And(x.words[i / 32], Mask(i % 32)));
  }
}
