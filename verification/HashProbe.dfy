/** The probe sequence of a hash table: an odd stride in a table whose length is
    a power of two comes to every slot. */
module HashProbe {

  predicate IsPow2(n: int)
    decreases n
  {
    n == 1 || (n > 1 && n % 2 == 0 && IsPow2(n / 2))
  }

  /** The distance between two probes: the hash value without its last three
      bits, made odd. */
  function Stride(h: nat): nat {
    if h / 8 % 2 == 0 then h / 8 + 1 else h / 8
  }

  /** The slot of probe j in a table of n slots. */
  function Probe(h: nat, n: nat, j: nat): (s: nat)
    requires n > 0
    ensures s < n
  {
    (h + j * Stride(h)) % n
  }

  lemma Division(a: nat, n: nat) returns (q: nat)
    requires n > 0
    ensures a == n * q + a % n
  {
    q := a / n;
  }

  lemma RestOf(a: nat, n: nat, q: nat, x: nat)
    requires n > 0 && a == n * q + x && x < n
    ensures a % n == x
  {
    var p := Division(a, n);
    MulOrder(n, p, q);
    MulOrder(n, q, p);
  }

  lemma MulOrder(n: nat, p: nat, q: nat)
    ensures p < q ==> n * p + n <= n * q
  {
    if p < q {
      MulMono(n, p + 1, q);
      assert n * (p + 1) == n * p + n;
    }
  }

  lemma MulMono(n: nat, a: int, b: int)
    requires a <= b
    ensures n * a <= n * b
  {
  }

  /** The loop goes from one probe to the next. */
  lemma ProbeNext(h: nat, n: nat, j: nat)
    requires n > 0
    ensures Probe(h, n, 0) == h % n && Probe(h, n, j + 1) == (Probe(h, n, j) + Stride(h)) % n
  {
    var c := Stride(h);
    var a := h + j * c;
    assert (j + 1) * c == j * c + c;
    hide Stride;
    var p := Division(a, n);
    var r := Division(Probe(h, n, j) + c, n);
    assert n * (p + r) == n * p + n * r;
    RestOf(a + c, n, p + r, (Probe(h, n, j) + c) % n);
  }

  lemma Difference(h: int, c: int, i: int, j: int, n: int, p: int, q: int, x: int)
    requires h + i * c == n * p + x && h + j * c == n * q + x
    ensures c * (j - i) == n * (q - p)
  {
    assert c * (j - i) == j * c - i * c;
    assert n * (q - p) == n * q - n * p;
  }

  /** A power of two that divides the product of an odd number and a smaller one
      finds nothing in it. */
  lemma {:induction false} OddFactor(n: nat, c: nat, d: nat, m: int)
    requires IsPow2(n) && c % 2 == 1 && c * d == n * m && d < n
    ensures d == 0
    decreases n
  {
    if n > 1 {
      var a, k := c / 2, n / 2;
      assert c == 2 * a + 1 && n == 2 * k;
      assert c * d == 2 * (a * d) + d;
      assert n * m == 2 * (k * m);
      var e := d / 2;
      assert d == 2 * (k * m - a * d);
      assert d == 2 * e;
      assert c * d == 2 * (c * e);
      OddFactor(k, c, e, m);
    }
  }

  lemma RestsDiffer(n: nat, h: nat, c: nat, i: nat, j: nat, p: int, q: int, x: int, y: int)
    requires IsPow2(n) && c % 2 == 1 && i < j < i + n
    requires h + i * c == n * p + x && h + j * c == n * q + y
    ensures x != y
  {
    if x == y {
      Difference(h, c, i, j, n, p, q, x);
      hide *;
      OddFactor(n, c, j - i, q - p);
    }
  }

  lemma ProbeAt(h: nat, n: nat, j: nat) returns (q: nat)
    requires n > 0
    ensures h + j * Stride(h) == n * q + Probe(h, n, j)
  {
    q := Division(h + j * Stride(h), n);
  }

  /** Within one round no slot is probed twice. */
  lemma ProbesDiffer(h: nat, n: nat, i: nat, j: nat)
    requires IsPow2(n) && i < j < i + n
    ensures Probe(h, n, i) != Probe(h, n, j)
  {
    assert Stride(h) % 2 == 1;
    hide *;
    var p := ProbeAt(h, n, i);
    var q := ProbeAt(h, n, j);
    RestsDiffer(n, h, Stride(h), i, j, p, q, Probe(h, n, i), Probe(h, n, j));
  }

  ghost function Probed(h: nat, n: nat, j: nat): set<int>
    requires n > 0
  {
    if j == 0 then {} else Probed(h, n, j - 1) + {Probe(h, n, j - 1)}
  }

  lemma {:induction false} ProbedIs(h: nat, n: nat, j: nat, s: int)
    requires n > 0
    ensures s in Probed(h, n, j) <==> exists i: nat :: i < j && Probe(h, n, i) == s
    decreases j
  {
    hide Probe;
    if j > 0 {
      ProbedIs(h, n, j - 1, s);
      if s == Probe(h, n, j - 1) {
        assert s in Probed(h, n, j);
      }
    }
  }

  lemma TableLength(n: nat)
    requires IsPow2(n)
    ensures n > 0
  {
  }

  lemma ProbedNext(h: nat, n: nat, j: nat)
    requires n > 0
    ensures Probed(h, n, 0) == {} && Probed(h, n, j + 1) == Probed(h, n, j) + {Probe(h, n, j)}
  {
    hide Probe;
  }

  lemma {:induction false} ProbedSize(h: nat, n: nat, j: nat)
    requires IsPow2(n) && j <= n
    ensures |Probed(h, n, j)| == j
    decreases j
  {
    TableLength(n);
    hide *;
    ProbedNext(h, n, if j > 0 then j - 1 else 0);
    if j > 0 {
      ProbedSize(h, n, j - 1);
      ProbedIs(h, n, j - 1, Probe(h, n, j - 1));
      if i: nat :| i < j - 1 && Probe(h, n, i) == Probe(h, n, j - 1) {
        ProbesDiffer(h, n, i, j - 1);
      }
    }
  }

  ghost function Slots(n: nat): (s: set<int>)
    ensures |s| == n && forall i :: i in s <==> 0 <= i < n
  {
    if n == 0 then {} else Slots(n - 1) + {n - 1}
  }

  lemma SomeElement(a: set<int>)
    ensures a == {} || exists x :: x in a
  {
    if forall x :: x !in a {
      assert a == {};
    }
  }

  lemma {:induction false} SubsetSize(a: set<int>, b: set<int>)
    requires a <= b
    ensures |a| <= |b| && (|a| == |b| ==> a == b)
    decreases |a|
  {
    SomeElement(a);
    if a == {} {
      SomeElement(b);
    } else {
      var x :| x in a;
      SubsetSize(a - {x}, b - {x});
      assert a == (a - {x}) + {x} && b == (b - {x}) + {x};
    }
  }

  /** Every slot is probed in the first round. */
  lemma EverySlot(h: nat, n: nat, s: nat)
    requires IsPow2(n) && s < n
    ensures exists j: nat :: j < n && Probe(h, n, j) == s
  {
    ProbedSize(h, n, n);
    forall x | x in Probed(h, n, n)
      ensures x in Slots(n)
    {
      ProbedIs(h, n, n, x);
      var i: nat :| i < n && Probe(h, n, i) == x;
    }
    SubsetSize(Probed(h, n, n), Slots(n));
    ProbedIs(h, n, n, s);
  }
}
