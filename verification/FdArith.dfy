/** What the arithmetic operators of a term stand for, by equations and not by
    the division that computes them. */
module FdArith {
  import opened FdExpr

  /** The rest of a division by y on the side of x, and smaller than y. */
  predicate Remainder(x: int, y: int, r: int) {
    (if x >= 0 then 0 <= r else r <= 0) && -Size(y) < r < Size(y)
  }

  function Size(y: int): int {
    if y < 0 then -y else y
  }

  /** v is the value of `x op y`. */
  ghost predicate Yields(op: BinOp, x: int, y: int, v: int) {
    match op
    case Add => v - x == y
    case Sub => v + y == x
    case Mul => v == x * y
    case DivD => Remainder(x, y, x - y * v)
    case DivU => Remainder(x + y - 1, y, x + y - 1 - y * v)
    case Mod => Remainder(x, y, v) && exists q :: Quotient(x, y, q, v)
  }

  predicate Quotient(x: int, y: int, q: int, r: int) {
    x == y * q + r
  }

  /** Multiples of a positive number grow. */
  lemma Grows(y: int, d: int, v: int)
    requires y > 0
    ensures d < v ==> y * d + y <= y * v
  {
    if d < v {
      Spread(y, d, v - d - 1);
      AtLeastZero(y, v - d - 1);
    }
  }

  lemma Spread(y: int, d: int, k: int)
    ensures y * (d + 1 + k) == y * d + y + y * k
  {
  }

  lemma AtLeastZero(y: int, k: int)
    requires y > 0 && k >= 0
    ensures y * k >= 0
  {
  }

  lemma ProductSize(y: int, d: int)
    requires y != 0 && d != 0
    ensures Size(y * d) >= Size(y)
  {
    Grows(Size(y), 0, Size(d));
    if y < 0 && d < 0 {
      assert y * d == (-y) * (-d);
    } else if y < 0 {
      assert y * d == -((-y) * d);
    } else if d < 0 {
      assert y * d == -(y * (-d));
    }
  }

  /** There is one quotient only. */
  lemma OneQuotient(x: int, y: int, q: int, r: int, u: int, v: int)
    requires y != 0 && x == y * q + r && x == y * u + v && Remainder(x, y, r) && Remainder(x, y, v)
    ensures q == u && r == v
  {
    assert y * (q - u) == v - r;
    if q != u {
      ProductSize(y, q - u);
    }
  }

  lemma TDivIs(x: int, y: int)
    requires y != 0
    ensures Remainder(x, y, x - y * TDiv(x, y))
  {
    var a, b := Size(x), Size(y);
    assert a == b * (a / b) + a % b;
    Signs(x, y, a / b);
    hide TDiv;
    assert TDiv(x, y) == (if (x >= 0) == (y > 0) then a / b else -(a / b)) by {
      TDivSigned(x, y);
    }
  }

  lemma TDivSigned(x: int, y: int)
    requires y != 0
    ensures TDiv(x, y) == if (x >= 0) == (y > 0) then Size(x) / Size(y) else -(Size(x) / Size(y))
  {
  }

  lemma Signs(x: int, y: int, q: int)
    ensures (x >= 0) == (y > 0) && y != 0 ==> y * q == if x >= 0 then Size(y) * q else -(Size(y) * q)
    ensures (x >= 0) != (y > 0) && y != 0 ==> y * (-q) == if x >= 0 then Size(y) * q else -(Size(y) * q)
  {
    assert y * (-q) == -(y * q) && (-y) * q == -(y * q);
  }

  lemma QuotientIs(x: int, y: int, v: int)
    requires y != 0
    ensures Remainder(x, y, x - y * v) <==> v == TDiv(x, y)
  {
    TDivIs(x, y);
    if Remainder(x, y, x - y * v) {
      OneQuotient(x, y, v, x - y * v, TDiv(x, y), x - y * TDiv(x, y));
    }
  }

  /** The evaluator's number is the value, and there is no other. */
  lemma ArithIs(op: BinOp, x: int, y: int, v: int)
    requires NeedsDivisor(op) ==> y != 0
    ensures v == Arith(op, x, y) <==> Yields(op, x, y, v)
  {
    match op
    case Add =>
    case Sub =>
    case Mul =>
    case DivD => QuotientIs(x, y, v);
    case DivU => QuotientIs(x + y - 1, y, v);
    case Mod =>
      TDivIs(x, y);
      assert Quotient(x, y, TDiv(x, y), TMod(x, y));
      if Yields(op, x, y, v) {
        var q :| Quotient(x, y, q, v);
        OneQuotient(x, y, q, v, TDiv(x, y), TMod(x, y));
      }
  }

  /** The number a compound term denotes, and the machine computes for it. */
  lemma BinValue(op: BinOp, p: Term, q: Term, b: Args)
    requires OkT(Bin(op, p, q), b)
    ensures Yields(op, EvalT(p, b), EvalT(q, b), EvalT(Bin(op, p, q), b))
    ensures forall v :: Yields(op, EvalT(p, b), EvalT(q, b), v) ==> v == EvalT(Bin(op, p, q), b)
  {
    var x, y, u := EvalT(p, b), EvalT(q, b), EvalT(Bin(op, p, q), b);
    ArithIs(op, x, y, u);
    hide Yields, Arith;
    forall v | Yields(op, x, y, v)
      ensures v == u
    {
      ArithIs(op, x, y, v);
    }
  }

  /** On numbers from 0 on division rounds down, and mod is the rest. */
  lemma RoundsDown(x: int, y: int, v: int)
    requires x >= 0 && y > 0
    ensures v == Arith(DivD, x, y) <==> y * v <= x < y * (v + 1)
    ensures v == Arith(Mod, x, y) <==> 0 <= v < y && exists q :: Quotient(x, y, q, v)
  {
    ArithIs(DivD, x, y, v);
    ArithIs(Mod, x, y, v);
    hide Arith;
  }

  /** The other division rounds up, but from -y downwards only where the number
      is one more than a multiple of y. */
  lemma RoundsUp(x: int, y: int, v: int)
    requires y > 0 && (x > -y || (x - 1) % y == 0)
    ensures v == Arith(DivU, x, y) <==> y * (v - 1) < x <= y * v
  {
    var n := x + y - 1;
    QuotientIs(n, y, v);
    Before(y, v);
    hide TDiv;
    if n < 0 {
      var d := (x - 1) / y;
      assert x - 1 == y * d + (x - 1) % y;
      Between(y, d, v);
    }
  }

  lemma Before(y: int, v: int)
    ensures y * (v - 1) == y * v - y
  {
  }

  /** Only one multiple of y is in either place. */
  lemma Between(y: int, d: int, v: int)
    requires y > 0
    ensures -y < y * d + y - y * v <= 0 <==> v == d + 1
    ensures y * v - y < y * d + 1 <= y * v <==> v == d + 1
  {
    Grows(y, v, d + 1);
    Grows(y, d + 1, v);
    Before(y, d + 1);
  }

  /** Exactly there. */
  lemma RoundsUpOnly(x: int, y: int)
    requires y > 0
    ensures (var v := Arith(DivU, x, y); y * (v - 1) < x <= y * v) <==> x > -y || (x - 1) % y == 0
  {
    var v := Arith(DivU, x, y);
    QuotientIs(x + y - 1, y, v);
    Before(y, v);
    if x > -y || (x - 1) % y == 0 {
      RoundsUp(x, y, v);
    } else {
      MultipleRest(y, v - 1);
    }
  }

  lemma MultipleRest(y: int, d: int)
    requires y > 0
    ensures (y * d) % y == 0
  {
    var q := (y * d) / y;
    assert y * d == y * q + (y * d) % y;
    Grows(y, q, d);
    Grows(y, d, q);
  }
}
