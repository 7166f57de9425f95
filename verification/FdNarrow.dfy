/** Meeting a computed range with the domain of a variable. */
module FdNarrow {
  import opened FdWords
  import opened FdExpr
  import opened FdVar
  import opened FdVm

  /** The set a computed range stands for. */
  ghost function SetIn(t: DomStruct, m: array<Word>): set<int>
    reads m
  {
    match t
    case Aborted => {}
    case IntervalT(lo, hi) => Interval(lo, hi)
    case DomainT(d, lm) => if 0 <= d && 0 <= lm && d + lm + 1 <= m.Length then SetOf(m[d..d + lm + 1]) else {}
  }

  /** What the evaluator hands over: the empty interval is 1..0, and the words
      of a block after the last one used are zero. */
  ghost predicate Computed(t: DomStruct, m: array<Word>)
    reads m
  {
    match t
    case Aborted => false
    case IntervalT(lo, hi) => (lo == 1 && hi == 0) || 0 <= lo <= hi
    case DomainT(d, lm) =>
      && 0 <= d <= m.Length - 8 && 0 <= lm < 8
      && SetOf(Block(m, d)) == SetOf(m[d..d + lm + 1])
  }

  lemma TakeShows(ws: seq<Word>, n: int)
    requires 0 <= n <= |ws|
    ensures SetOf(ws[..n]) == Below(SetOf(ws), 32 * n)
  {
    ShowsSetOf(ws);
    var us, s := ws[..n], SetOf(ws);
    forall a, b | 0 <= a < n && 0 <= b < 32
      ensures us[a][b] == (32 * a + b in Below(s, 32 * n))
    {
      assert ws[a][b] == (32 * a + b in s);
    }
    ShowsBounds(ws, s);
    ShowsOne(us, Below(s, 32 * n));
  }

  /** Words beyond those of the domain do not matter. */
  lemma ClassifyBelow(t: set<int>, b: set<int>, n: int)
    requires forall v :: v in b ==> v < n
    ensures Below(t, n) * b == t * b
    ensures Classify(Below(t, n), b) == Classify(t, b)
  {
    assert b <= t <==> b <= Below(t, n);
  }

  function MinOf2(a: int, b: int): int {
    if a < b then a else b
  }

  /** Meets a block with a row of domain words. */
  method MeetWords(m: array<Word>, o: int, lm: int, bv: seq<Word>) returns (r: Intersect, u: DomStruct)
    requires 0 <= o <= m.Length - 8 && 0 <= lm < 8 && 1 <= |bv| <= 8
    modifies m
    ensures var s, d := old(SetOf(m[o..o + lm + 1])), SetOf(bv);
            r == Classify(s, d) && SetIn(u, m) == s * d
    ensures u.DomainT? && u.d == o && 0 <= u.lm < 8 && u.lm < |bv|
  {
    hide SetOf, Classify, Shows;
    var l := MinOf2(|bv| - 1, lm);
    ghost var ws := m[o..o + lm + 1];
    assert ws[..l + 1] == m[o..o + l + 1];
    assert bv[..|bv|] == bv;
    TakeShows(ws, l + 1);
    MeetBelow(ws, bv, l + 1);
    r := IntersectDom(m, o, bv, l, |bv| - 1);
    u := DomainT(o, l);
  }

  lemma MeetBelow(ws: seq<Word>, bv: seq<Word>, n: int)
    requires n == |ws| || n == |bv|
    ensures var s, d := SetOf(ws), SetOf(bv);
            Below(s, 32 * n) * d == s * d && Classify(Below(s, 32 * n), d) == Classify(s, d)
  {
    var s, d := SetOf(ws), SetOf(bv);
    ShowsSetOf(ws);
    ShowsSetOf(bv);
    hide SetOf;
    ShowsBounds(ws, s);
    ShowsBounds(bv, d);
    if n == |bv| {
      ClassifyBelow(s, d, 32 * n);
    } else {
      assert Below(s, 32 * n) == s;
    }
  }

  /** Where the classification slips: the empty interval 1..0 against an
      undetermined interval that starts at 0, and an emptied variable against
      an interval that has 0 and 1. */
  predicate Slips(x: Fd, t: DomStruct) {
    x.bound == -1 && x.interval && t.IntervalT? &&
    ((t.lo > t.hi && x.lo == 0) || (x.lo > x.hi && t.lo <= 0 && 1 <= t.hi))
  }

  /** The fatal overflow: an interval reaching beyond the universe has to be
      turned into a block. */
  predicate Overflows(x: Fd, t: DomStruct) {
    x.bound == -1 && !x.interval && t.IntervalT? && t.lo <= x.hi && x.lo <= t.hi && t.hi > 255
  }

  /** Meets the range t with the domain of x. Only the answer NONEMPTY, which
      calls for narrowing x, makes use of the range u returned. */
  method IntersectFd(x: Fd, t: DomStruct, m: array<Word>) returns (r: Intersect, u: DomStruct)
    requires ValidFd(x) && Computed(t, m) && m.Length >= 8
    modifies m
    ensures u == Aborted <==> Overflows(x, t)
    ensures u != Aborted ==>
              var s, d := old(SetIn(t, m)), DomOf(x);
              && (r == Classify(s, d) <==> !Slips(x, t))
              && (r == EMPTY ==> s * d == {}) && (r == SUBSET ==> d <= s)
              && (r == NONEMPTY ==> !(d <= s) && !IsDetermined(x) && SetIn(u, m) == s * d && CutOf(x, u, m))
              && (r == NONEMPTY && u.DomainT? ==> s * d != {})
  {
    hide SetOf, Shows;
    match t
    case IntervalT(mint, maxt) =>
      if x.bound >= 0 {
        ClassifyOne(Interval(mint, maxt), x.bound);
        return if mint <= x.bound <= maxt then SUBSET else EMPTY, t;
      }
      if mint > x.hi || x.lo > maxt {
        DisjointBounds(x, mint, maxt);
        return EMPTY, t;
      }
      if x.interval {
        r, u := MeetInterval(x, mint, maxt);
        return;
      }
      if maxt > 255 {
        return EMPTY, Aborted;
      }
      r, u := MeetSpan(x, mint, maxt, m);
    case DomainT(d, lm) =>
      if x.bound >= 0 {
        r := MeetValue(x.bound, m, d);
        return r, t;
      }
      if x.interval {
        var ws := new Word[8];
        var ok := FillRange(x.lo, x.hi, ws, 0);
        DomFacts(x);
        ghost var full := ws[0..8];
        assert SetOf(full) == DomOf(x) by {
          assert full == Block(ws, 0);
          assert Interval(x.lo, x.hi) * Universe() == DomOf(x);
        }
        var bv := ws[..x.hi / 32 + 1];
        TakeShows(full, x.hi / 32 + 1);
        assert full[..x.hi / 32 + 1] == bv;
        assert Below(SetOf(full), 32 * (x.hi / 32 + 1)) == SetOf(full);
        r, u := MeetWords(m, d, lm, bv);
      } else {
        r, u := MeetWords(m, d, lm, x.words);
      }
  }

  /** The range left over has the form the variable can take on: an interval
      within an interval, or the words of a block. */
  ghost predicate CutOf(x: Fd, u: DomStruct, m: array<Word>) {
    match u
    case Aborted => false
    case IntervalT(lo, hi) => x.interval && ((lo == 1 && hi == 0) || x.lo <= lo <= hi <= x.hi)
    case DomainT(d, lm) => 0 <= d <= m.Length - 8 && 0 <= lm < 8 && (!x.interval ==> lm < |x.words|)
  }

  lemma DisjointBounds(x: Fd, lo: int, hi: int)
    requires ValidFd(x) && x.bound == -1 && (lo > x.hi || x.lo > hi)
    requires (lo == 1 && hi == 0) || 0 <= lo <= hi
    ensures Interval(lo, hi) * DomOf(x) == {}
    ensures !Slips(x, IntervalT(lo, hi))
  {
  }

  method MeetInterval(x: Fd, mint: int, maxt: int) returns (r: Intersect, u: DomStruct)
    requires ValidFd(x) && x.bound == -1 && x.interval
    requires ((mint == 1 && maxt == 0) || 0 <= mint <= maxt) && mint <= x.hi && x.lo <= maxt
    ensures var s, d := Interval(mint, maxt), DomOf(x);
            && (r == Classify(s, d) <==> !Slips(x, IntervalT(mint, maxt)))
            && r != EMPTY && u.IntervalT? && (r == SUBSET ==> d <= s)
            && (r == NONEMPTY ==> !(d <= s) && Interval(u.lo, u.hi) == s * d)
            && (r == NONEMPTY ==> (u.lo == 1 && u.hi == 0) || x.lo <= u.lo <= u.hi <= x.hi)
  {
    assert x.lo <= x.hi ==> x.lo in DomOf(x) && x.hi in DomOf(x);
    if x.lo >= mint && x.hi <= maxt {
      assert x.lo <= x.hi ==> x.lo in Interval(mint, maxt) * DomOf(x);
      return SUBSET, IntervalT(mint, maxt);
    }
    var lo := if mint < x.lo then x.lo else mint;
    var hi := if x.hi < maxt then x.hi else maxt;
    assert lo <= hi ==> lo in Interval(mint, maxt) * DomOf(x);
    return NONEMPTY, IntervalT(lo, hi);
  }

  method MeetSpan(x: Fd, mint: int, maxt: int, m: array<Word>) returns (r: Intersect, u: DomStruct)
    requires ValidFd(x) && x.bound == -1 && !x.interval && m.Length >= 8
    requires ((mint == 1 && maxt == 0) || 0 <= mint <= maxt) && maxt <= 255
    modifies m
    ensures var s, d := Interval(mint, maxt), DomOf(x);
            r == Classify(s, d) && SetIn(u, m) == s * d && u.DomainT? && CutOf(x, u, m)
  {
    hide SetOf, Shows, Classify;
    var ok := FillRange(mint, maxt, m, 0);
    ghost var full := m[0..8];
    assert SetOf(full) == Interval(mint, maxt) by {
      assert full == Block(m, 0);
      assert Interval(mint, maxt) * Universe() == Interval(mint, maxt);
    }
    TakeShows(full, maxt / 32 + 1);
    assert full[..maxt / 32 + 1] == m[0..0 + maxt / 32 + 1];
    assert Below(SetOf(full), 32 * (maxt / 32 + 1)) == SetOf(full);
    r, u := MeetWords(m, 0, maxt / 32, x.words);
  }

  method MeetValue(k: int, m: array<Word>, d: int) returns (r: Intersect)
    requires 0 <= k <= 255 && 0 <= d <= m.Length - 8
    ensures r == Classify(SetOf(Block(m, d)), {k}) && r != NONEMPTY
  {
    ghost var ws := Block(m, d);
    MaskTest(ws, k);
    hide SetOf;
    r := if NonZero(And(m[d + k / 32], Mask(k % 32))) then SUBSET else EMPTY;
    assert ws[k / 32] == m[d + k / 32];
    ClassifyOne(SetOf(ws), k);
  }

  lemma ClassifyOne(s: set<int>, k: int)
    ensures Classify(s, {k}) == if k in s then SUBSET else EMPTY
  {
    if k in s {
      assert k in s * {k};
    } else {
      assert s * {k} == {};
    }
  }
}
