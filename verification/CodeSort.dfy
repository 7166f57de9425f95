/** Sorting the table of a switch instruction: pairs of a key and a label, bubble
    sorted in the code area. */
module CodeSort {

  /** A word of code: a number (an offset, an address, an immediate term), or a
      pointer to a bignum constant. */
  datatype Word = Num(n: int) | Big(i: int)

  datatype Pair = Pair(key: Word, lab: Word)

  /** Bignums are higher than everything else. */
  function CompareConstants(x: Word, y: Word): int {
    if x.Big? then if y.Big? then ThreeWay(x.i, y.i) else 1
    else if y.Big? then -1 else ThreeWay(x.n, y.n)
  }

  function ThreeWay(x: int, y: int): int {
    if x < y then -1 else if x == y then 0 else 1
  }

  predicate AtMost(p: Pair, q: Pair) {
    CompareConstants(p.key, q.key) <= 0
  }

  predicate Sorted(ps: seq<Pair>) {
    forall i, j :: 0 <= i <= j < |ps| ==> AtMost(ps[i], ps[j])
  }

  /** The pairs at t in the code. */
  function Pairs(code: seq<Word>, t: nat, n: nat): (ps: seq<Pair>)
    requires t + 2 * n <= |code|
    ensures |ps| == n
  {
    seq(n, j requires 0 <= j < n => Pair(code[t + 2 * j], code[t + 2 * j + 1]))
  }

  function Swapped(ps: seq<Pair>, j: nat): seq<Pair>
    requires j + 1 < |ps|
  {
    ps[j := ps[j + 1]][j + 1 := ps[j]]
  }

  lemma SwapKeeps(ps: seq<Pair>, j: nat)
    requires j + 1 < |ps|
    ensures multiset(Swapped(ps, j)) == multiset(ps)
  {
    var a, b := ps[..j], ps[j + 2..];
    assert ps == a + [ps[j], ps[j + 1]] + b;
    assert Swapped(ps, j) == a + [ps[j + 1], ps[j]] + b;
  }

  /** Exchanging two neighbouring pairs of words. */
  function WordsSwapped(code: seq<Word>, k: nat): (w: seq<Word>)
    requires k + 3 < |code|
    ensures |w| == |code|
  {
    code[k := code[k + 2]][k + 1 := code[k + 3]][k + 2 := code[k]][k + 3 := code[k + 1]]
  }

  lemma PairsSwapped(code: seq<Word>, t: nat, n: nat, j: nat)
    requires t + 2 * n <= |code| && j + 1 < n
    ensures Pairs(WordsSwapped(code, t + 2 * j), t, n) == Swapped(Pairs(code, t, n), j)
    ensures WordsSwapped(code, t + 2 * j)[..t] == code[..t]
    ensures WordsSwapped(code, t + 2 * j)[t + 2 * n..] == code[t + 2 * n..]
  {
    var w, ps := WordsSwapped(code, t + 2 * j), Pairs(code, t, n);
    forall i | 0 <= i < n
      ensures Pairs(w, t, n)[i] == Swapped(ps, j)[i]
    {
      assert ps[i] == Pair(code[t + 2 * i], code[t + 2 * i + 1]);
      assert ps[j] == Pair(code[t + 2 * j], code[t + 2 * j + 1]);
    }
  }

  // ------------------------------------------------ a pass

  /** The last k pairs are in order, and no pair before them is greater. */
  predicate Settled(ps: seq<Pair>, k: nat) {
    k <= |ps| && forall i, j :: 0 <= i <= j < |ps| && |ps| - k <= j ==> AtMost(ps[i], ps[j])
  }

  /** Within a pass: the pair at i is the greatest so far. */
  predicate Bubbled(ps: seq<Pair>, i: int) {
    forall j :: 0 <= j < i && i < |ps| ==> AtMost(ps[j], ps[i])
  }

  predicate InOrder(ps: seq<Pair>, i: nat) {
    forall j {:trigger ps[j]} :: 0 <= j < i && j + 1 < |ps| ==> AtMost(ps[j], ps[j + 1])
  }

  lemma {:induction false} InOrderSorted(ps: seq<Pair>, i: nat, j: nat)
    requires InOrder(ps, |ps|) && i <= j < |ps|
    ensures AtMost(ps[i], ps[j])
    decreases j
  {
    if i < j {
      InOrderSorted(ps, i, j - 1);
      assert AtMost(ps[j - 1], ps[j - 1 + 1]);
    }
  }

  lemma AllInOrder(ps: seq<Pair>)
    requires InOrder(ps, |ps|)
    ensures Sorted(ps)
  {
    forall i, j | 0 <= i <= j < |ps|
      ensures AtMost(ps[i], ps[j])
    {
      InOrderSorted(ps, i, j);
    }
  }

  /** One step of a pass. */
  function Stepped(ps: seq<Pair>, i: nat): (r: seq<Pair>)
    requires i + 1 < |ps|
    ensures |r| == |ps|
  {
    if CompareConstants(ps[i].key, ps[i + 1].key) > 0 then Swapped(ps, i) else ps
  }

  lemma StepBubbles(ps: seq<Pair>, i: nat, k: nat)
    requires i + 1 < |ps| && Bubbled(ps, i) && Settled(ps, k)
    ensures Bubbled(Stepped(ps, i), i + 1) && Settled(Stepped(ps, i), k)
  {
    var r := Stepped(ps, i);
    if CompareConstants(ps[i].key, ps[i + 1].key) > 0 {
      assert !AtMost(ps[i], ps[i + 1]);
      assert i + 1 < |ps| - k;
      forall a, b | 0 <= a <= b < |r| && |r| - k <= b
        ensures AtMost(r[a], r[b])
      {
        assert r[b] == ps[b] && AtMost(ps[if a == i then i + 1 else if a == i + 1 then i else a], ps[b]);
      }
    } else {
      forall j | 0 <= j < i + 1
        ensures AtMost(r[j], r[i + 1])
      {
        assert j < i ==> AtMost(ps[j], ps[i]);
      }
    }
  }

  /** Pairs in their places are not moved. */
  lemma StepStays(ps: seq<Pair>, i: nat, k: nat)
    requires i + 1 < |ps| && Settled(ps, k) && |ps| - k <= i + 1
    ensures Stepped(ps, i) == ps
  {
    assert AtMost(ps[i], ps[i + 1]);
  }

  /** After a pass one more pair is in its place. */
  lemma PassSettles(ps: seq<Pair>, k: nat)
    requires k < |ps| && Bubbled(ps, |ps| - 1 - k) && Settled(ps, k)
    ensures Settled(ps, k + 1)
  {
    var m := |ps| - 1 - k;
    forall a, b | 0 <= a <= b < |ps| && m <= b
      ensures AtMost(ps[a], ps[b])
    {
      if b == m && a < m {
        assert AtMost(ps[a], ps[m]);
      }
    }
  }

  lemma StepInOrder(ps: seq<Pair>, i: nat)
    requires i + 1 < |ps| && InOrder(ps, i) && CompareConstants(ps[i].key, ps[i + 1].key) <= 0
    ensures InOrder(ps, i + 1)
  {
  }

  /** How far the greatest pair has come, i steps into the pass after k passes. */
  function Reach(n: nat, k: nat, i: nat): int {
    if i < n - 1 - k then i else n - 1 - k
  }

  lemma PassStep(ps: seq<Pair>, i: nat, k: nat)
    requires i + 1 < |ps| && k <= |ps| && Bubbled(ps, Reach(|ps|, k, i)) && Settled(ps, k)
    ensures Bubbled(Stepped(ps, i), Reach(|ps|, k, i + 1)) && Settled(Stepped(ps, i), k)
    ensures multiset(Stepped(ps, i)) == multiset(ps)
    ensures k == |ps| ==> CompareConstants(ps[i].key, ps[i + 1].key) <= 0
  {
    SwapKeeps(ps, i);
    if i < |ps| - 1 - k {
      hide *;
      ReachIs(|ps|, k, i);
      StepBubbles(ps, i, k);
    } else {
      StepStays(ps, i, k);
    }
  }

  lemma ReachIs(n: nat, k: nat, i: nat)
    ensures i < n - 1 - k ==> Reach(n, k, i) == i && Reach(n, k, i + 1) == i + 1
    ensures i >= n - 1 - k ==> Reach(n, k, i) == n - 1 - k
    ensures Reach(n, k, 0) <= 0
  {
  }

  lemma PassEnd(ps: seq<Pair>, i: nat, k: nat)
    requires |ps| <= i + 1 && k <= |ps| && Bubbled(ps, Reach(|ps|, k, i)) && Settled(ps, k)
    ensures Settled(ps, if k < |ps| then k + 1 else k)
  {
    if k < |ps| {
      PassSettles(ps, k);
    }
  }

  lemma PassStart(ps: seq<Pair>, k: nat)
    ensures Settled(ps, 0) && InOrder(ps, 0) && Bubbled(ps, Reach(|ps|, k, 0))
  {
  }

  lemma PairAt(code: seq<Word>, t: nat, n: nat, i: nat)
    requires t + 2 * n <= |code| && i < n
    ensures Pairs(code, t, n)[i] == Pair(code[t + 2 * i], code[t + 2 * i + 1])
  {
  }

  lemma SteppedIs(ps: seq<Pair>, i: nat)
    requires i + 1 < |ps|
    ensures Stepped(ps, i) == if CompareConstants(ps[i].key, ps[i + 1].key) > 0 then Swapped(ps, i) else ps
  {
  }

  lemma WordsSwappedIs(code: seq<Word>, k: nat)
    requires k + 3 < |code|
    ensures WordsSwapped(code, k) == code[k := code[k + 2]][k + 1 := code[k + 3]][k + 2 := code[k]][k + 3 :=
            code[k + 1]]
  {
  }

  lemma EndInOrder(ps: seq<Pair>, i: nat)
    requires InOrder(ps, i) && |ps| <= i + 1
    ensures InOrder(ps, |ps|)
  {
  }

  /** The sort, in place in the n pairs at t: passes until one finds nothing to
      exchange. */
  method SortPairs(code: seq<Word>, t: nat, n: nat) returns (w: seq<Word>)
    requires t + 2 * n <= |code|
    ensures |w| == |code| && w[..t] == code[..t] && w[t + 2 * n..] == code[t + 2 * n..]
    ensures Sorted(Pairs(w, t, n)) && multiset(Pairs(w, t, n)) == multiset(Pairs(code, t, n))
  {
    hide *;
    w := code;
    var done, passes := false, 0;
    ghost var k: nat := 0;
    PassStart(Pairs(w, t, n), 0);
    while !done
      invariant |w| == |code| && w[..t] == code[..t] && w[t + 2 * n..] == code[t + 2 * n..]
      invariant multiset(Pairs(w, t, n)) == multiset(Pairs(code, t, n))
      invariant 0 <= passes && k == (if passes <= n then passes else n) && Settled(Pairs(w, t, n), k)
      invariant done ==> InOrder(Pairs(w, t, n), n)
      invariant passes > n ==> done
      decreases n + 1 - passes
    {
      var i := 0;
      done := true;
      PassStart(Pairs(w, t, n), k);
      while i + 1 < n
        invariant 0 <= i && |w| == |code| && w[..t] == code[..t] && w[t + 2 * n..] == code[t + 2 * n..]
        invariant multiset(Pairs(w, t, n)) == multiset(Pairs(code, t, n))
        invariant Settled(Pairs(w, t, n), k) && Bubbled(Pairs(w, t, n), Reach(n, k, i))
        invariant done ==> InOrder(Pairs(w, t, n), i)
        invariant k == n ==> done
      {
        ghost var ps := Pairs(w, t, n);
        PairAt(w, t, n, i);
        PairAt(w, t, n, i + 1);
        PassStep(ps, i, k);
        SteppedIs(ps, i);
        var key1, key2 := w[t + 2 * i], w[t + 2 * i + 2];
        if CompareConstants(key1, key2) > 0 {
          PairsSwapped(w, t, n, i);
          WordsSwappedIs(w, t + 2 * i);
          var temp1, temp2 := w[t + 2 * i], w[t + 2 * i + 1];
          w := w[t + 2 * i := w[t + 2 * i + 2]][t + 2 * i + 1 := w[t + 2 * i + 3]]
                [t + 2 * i + 2 := temp1][t + 2 * i + 3 := temp2];
          done := false;
        } else if done {
          StepInOrder(ps, i);
        }
        i := i + 1;
      }
      PassEnd(Pairs(w, t, n), i, k);
      if done {
        EndInOrder(Pairs(w, t, n), i);
      }
      passes := passes + 1;
      k := if k < n then k + 1 else k;
    }
    AllInOrder(Pairs(w, t, n));
  }
}
