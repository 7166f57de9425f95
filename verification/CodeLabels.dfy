/** Label references: while code is emitted, the words that refer to a label form
    a chain through the code; at the end every word of every chain gets the
    address of its label. Offsets count words from the base of the definition. */
module CodeLabels {
  import opened CodeSort

  const MAXLABELS: nat := 1023
  const NOLABEL: int := -1

  /** What an emitted word is meant to be. */
  datatype Item = Plain(w: Word) | Refer(l: int)

  /** The words of the chain, newest first, each with the offset of the next. */
  predicate Chained(code: seq<Word>, base: nat, head: int, chain: seq<int>)
    decreases |chain|
  {
    if chain == [] then head == NOLABEL
    else
      && head == chain[0] && 0 <= base + head < |code| && code[base + head].Num?
      && Chained(code, base, code[base + head].n, chain[1..])
  }

  /** A chain depends on its own words only. */
  lemma {:induction false} ChainKeeps(code: seq<Word>, c: seq<Word>, base: nat, head: int, chain: seq<int>)
    requires Chained(code, base, head, chain)
    requires forall i :: i in chain ==> (0 <= base + i < |code| ==> base + i < |c| && c[base + i] == code[base + i])
    ensures Chained(c, base, head, chain)
    decreases |chain|
  {
    if chain != [] {
      assert chain[0] in chain;
      forall i | i in chain[1..]
        ensures i in chain
      {
      }
      ChainKeeps(code, c, base, code[base + head].n, chain[1..]);
    }
  }

  lemma NewHead(c: seq<Word>, base: nat, i: int, head: int, chain: seq<int>)
    requires Chained(c, base, head, chain) && 0 <= base + i < |c| && c[base + i] == Num(head)
    ensures Chained(c, base, i, [i] + chain)
  {
    assert ([i] + chain)[1..] == chain;
  }

  ghost predicate Distinct(chain: seq<int>) {
    forall i, j :: 0 <= i < j < |chain| ==> chain[i] != chain[j]
  }

  lemma DistinctMore(chain: seq<int>, i: int)
    requires Distinct(chain) && i !in chain
    ensures Distinct([i] + chain) && forall j :: j in [i] + chain <==> j == i || j in chain
  {
  }

  /** Item i and the word emitted for it. */
  predicate WordFor(code: seq<Word>, base: nat, items: seq<Item>, i: int) {
    0 <= i < |items| && base + i < |code| && (items[i].Plain? ==> code[base + i] == items[i].w)
  }

  /** The chain of l has exactly the words that refer to l. */
  ghost predicate Complete(items: seq<Item>, l: int, chain: seq<int>) {
    && Distinct(chain)
    && forall i :: i in chain <==> 0 <= i < |items| && items[i] == Refer(l)
  }

  ghost predicate LabelOk(code: seq<Word>, base: nat, items: seq<Item>, l: int, head: int, chain: seq<int>) {
    Chained(code, base, head, chain) && Complete(items, l, chain)
  }

  ghost predicate AllLabels(code: seq<Word>, base: nat, items: seq<Item>, heads: seq<int>, chains: seq<seq<int>>) {
    && |heads| == |chains| == MAXLABELS
    && forall l :: 0 <= l < MAXLABELS ==> LabelOk(code, base, items, l, heads[l], chains[l])
  }

  ghost predicate AllWords(code: seq<Word>, base: nat, items: seq<Item>) {
    && |code| == base + |items|
    && (forall i :: 0 <= i < |items| ==> WordFor(code, base, items, i))
    && (forall i :: 0 <= i < |items| && items[i].Refer? ==> 0 <= items[i].l < MAXLABELS)
  }

  // ------------------------------------------------ emitting

  lemma PlainChain(code: seq<Word>, base: nat, items: seq<Item>, l: int, head: int, chain: seq<int>, w: Word)
    requires LabelOk(code, base, items, l, head, chain) && |code| == base + |items|
    ensures LabelOk(code + [w], base, items + [Plain(w)], l, head, chain)
  {
    ChainKeeps(code, code + [w], base, head, chain);
    assert forall i :: 0 <= i < |items| ==> (items + [Plain(w)])[i] == items[i];
  }

  lemma PlainLabels(code: seq<Word>, base: nat, items: seq<Item>, heads: seq<int>, chains: seq<seq<int>>, w: Word)
    requires AllLabels(code, base, items, heads, chains) && AllWords(code, base, items)
    ensures AllLabels(code + [w], base, items + [Plain(w)], heads, chains)
    ensures AllWords(code + [w], base, items + [Plain(w)])
  {
    hide LabelOk;
    forall l | 0 <= l < MAXLABELS
      ensures LabelOk(code + [w], base, items + [Plain(w)], l, heads[l], chains[l])
    {
      PlainChain(code, base, items, l, heads[l], chains[l], w);
    }
    WordsMore(code, base, items, w, Plain(w));
  }

  lemma WordsMore(code: seq<Word>, base: nat, items: seq<Item>, w: Word, it: Item)
    requires AllWords(code, base, items) && (it.Plain? ==> it.w == w) && (it.Refer? ==> 0 <= it.l < MAXLABELS)
    ensures AllWords(code + [w], base, items + [it])
  {
    var more, c := items + [it], code + [w];
    forall i | 0 <= i < |more|
      ensures WordFor(c, base, more, i) && (more[i].Refer? ==> 0 <= more[i].l < MAXLABELS)
    {
      if i < |items| {
        assert WordFor(code, base, items, i);
      }
    }
  }

  /** A reference to another label leaves a chain as it is. */
  lemma OtherChain(code: seq<Word>, base: nat, items: seq<Item>, l: int, head: int, chain: seq<int>, w: Word, x: int)
    requires LabelOk(code, base, items, l, head, chain) && |code| == base + |items| && x != l
    ensures LabelOk(code + [w], base, items + [Refer(x)], l, head, chain)
  {
    ChainKeeps(code, code + [w], base, head, chain);
    assert forall i :: 0 <= i < |items| ==> (items + [Refer(x)])[i] == items[i];
  }

  /** A reference to the label becomes the head of its chain. */
  lemma OwnChain(code: seq<Word>, base: nat, items: seq<Item>, l: int, head: int, chain: seq<int>)
    requires LabelOk(code, base, items, l, head, chain) && |code| == base + |items|
    ensures LabelOk(code + [Num(head)], base, items + [Refer(l)], l, |items|, [|items|] + chain)
  {
    var c, more := code + [Num(head)], items + [Refer(l)];
    assert |items| !in chain;
    ChainKeeps(code, c, base, head, chain);
    NewHead(c, base, |items|, head, chain);
    DistinctMore(chain, |items|);
    CompleteMore(items, more, l, chain, |items|);
  }

  lemma CompleteMore(items: seq<Item>, more: seq<Item>, l: int, chain: seq<int>, i: nat)
    requires Complete(items, l, chain) && Distinct([i] + chain) && i < |more| && more[i] == Refer(l)
    requires forall j :: 0 <= j < |more| && j != i ==> j < |items| && more[j] == items[j]
    requires |items| <= |more|
    ensures Complete(more, l, [i] + chain)
  {
    var row := [i] + chain;
    forall j
      ensures j in row <==> 0 <= j < |more| && more[j] == Refer(l)
    {
      assert j in row <==> j == i || j in chain;
    }
  }

  lemma ReferLabels(code: seq<Word>, base: nat, items: seq<Item>, heads: seq<int>, chains: seq<seq<int>>, x: int)
    requires AllLabels(code, base, items, heads, chains) && AllWords(code, base, items) && 0 <= x < MAXLABELS
    ensures AllLabels(code + [Num(heads[x])], base, items + [Refer(x)],
                      heads[x := |items|], chains[x := [|items|] + chains[x]])
    ensures AllWords(code + [Num(heads[x])], base, items + [Refer(x)])
  {
    hide LabelOk;
    var w := Num(heads[x]);
    var c, more, h, n := code + [w], items + [Refer(x)], heads[x := |items|], chains[x := [|items|] + chains[x]];
    forall l | 0 <= l < MAXLABELS
      ensures LabelOk(c, base, more, l, h[l], n[l])
    {
      if l == x {
        OwnChain(code, base, items, l, heads[l], chains[l]);
      } else {
        OtherChain(code, base, items, l, heads[l], chains[l], w, x);
      }
    }
    WordsMore(code, base, items, w, Refer(x));
  }

  // ------------------------------------------------ a word that becomes a reference

  /** A plain word in the middle of the code is made a reference to x. */
  lemma LinkedLabels(code: seq<Word>, base: nat, items: seq<Item>, heads: seq<int>, chains: seq<seq<int>>, x: int,
    i: int)
    requires AllLabels(code, base, items, heads, chains) && AllWords(code, base, items)
    requires 0 <= x < MAXLABELS && 0 <= i < |items| && items[i].Plain?
    ensures AllLabels(code[base + i := Num(heads[x])], base, items[i := Refer(x)],
                      heads[x := i], chains[x := [i] + chains[x]])
    ensures AllWords(code[base + i := Num(heads[x])], base, items[i := Refer(x)])
  {
    var w, more := code[base + i := Num(heads[x])], items[i := Refer(x)];
    var h, n := heads[x := i], chains[x := [i] + chains[x]];
    hide LabelOk;
    forall l | 0 <= l < MAXLABELS
      ensures LabelOk(w, base, more, l, h[l], n[l])
    {
      if l == x {
        OwnLink(code, base, items, l, heads[l], chains[l], i);
      } else {
        OtherLink(code, base, items, l, heads[l], chains[l], i, x, Num(heads[x]));
      }
    }
    forall j | 0 <= j < |more|
      ensures WordFor(w, base, more, j)
    {
      assert WordFor(code, base, items, j);
    }
  }

  lemma OtherLink(code: seq<Word>, base: nat, items: seq<Item>, l: int, head: int, chain: seq<int>, i: int, x: int,
    w: Word)
    requires LabelOk(code, base, items, l, head, chain) && |code| == base + |items| && x != l
    requires 0 <= i < |items| && items[i].Plain?
    ensures LabelOk(code[base + i := w], base, items[i := Refer(x)], l, head, chain)
  {
    assert i !in chain;
    ChainKeeps(code, code[base + i := w], base, head, chain);
  }

  lemma OwnLink(code: seq<Word>, base: nat, items: seq<Item>, l: int, head: int, chain: seq<int>, i: int)
    requires LabelOk(code, base, items, l, head, chain) && |code| == base + |items|
    requires 0 <= i < |items| && items[i].Plain?
    ensures LabelOk(code[base + i := Num(head)], base, items[i := Refer(l)], l, i, [i] + chain)
  {
    var c, more := code[base + i := Num(head)], items[i := Refer(l)];
    assert i !in chain;
    ChainKeeps(code, c, base, head, chain);
    NewHead(c, base, i, head, chain);
    DistinctMore(chain, i);
    CompleteMore(items, more, l, chain, i);
  }

  // ------------------------------------------------ plain words rewritten

  /** Plain words have been exchanged for others; references are as before. */
  ghost predicate Rewritten(code: seq<Word>, c: seq<Word>, base: nat, items: seq<Item>, more: seq<Item>) {
    && |c| == |code| == base + |items| && |more| == |items|
    && (forall i :: 0 <= i < |items| && items[i].Refer? ==> more[i] == items[i] && c[base + i] == code[base + i])
    && (forall i :: 0 <= i < |items| && items[i].Plain? ==> more[i] == Plain(c[base + i]))
  }

  lemma RewriteLabels(code: seq<Word>, c: seq<Word>, base: nat, items: seq<Item>, more: seq<Item>, heads: seq<int>,
    chains: seq<seq<int>>)
    requires AllLabels(code, base, items, heads, chains) && AllWords(code, base, items)
    requires Rewritten(code, c, base, items, more)
    ensures AllLabels(c, base, more, heads, chains) && AllWords(c, base, more)
  {
    hide LabelOk;
    forall l | 0 <= l < MAXLABELS
      ensures LabelOk(c, base, more, l, heads[l], chains[l])
    {
      RewriteChain(code, c, base, items, more, l, heads[l], chains[l]);
    }
    forall i | 0 <= i < |more|
      ensures WordFor(c, base, more, i)
    {
      assert WordFor(code, base, items, i);
    }
  }

  lemma RewriteChain(code: seq<Word>, c: seq<Word>, base: nat, items: seq<Item>, more: seq<Item>, l: int, head: int,
    chain: seq<int>)
    requires LabelOk(code, base, items, l, head, chain) && Rewritten(code, c, base, items, more)
    ensures LabelOk(c, base, more, l, head, chain)
  {
    ChainKeeps(code, c, base, head, chain);
  }

  // ------------------------------------------------ the table of a switch

  /** The items of a table: keys, and behind each its label, which from pair i on
      has been made a reference. */
  function Mixed(ps: seq<Pair>, i: int): (r: seq<Item>)
    ensures |r| == 2 * |ps|
  {
    seq(2 * |ps|, j requires 0 <= j < 2 * |ps| => MixedAt(ps[j / 2], j % 2 == 0, j / 2 >= i))
  }

  function MixedAt(p: Pair, key: bool, linked: bool): Item {
    if key then Plain(p.key) else if linked && p.lab.Num? then Refer(p.lab.n) else Plain(p.lab)
  }

  predicate LabelNumbers(ps: seq<Pair>) {
    forall j :: 0 <= j < |ps| ==> ps[j].lab.Num? && ps[j].lab.n >= 0
  }

  lemma MixedStep(ps: seq<Pair>, i: nat)
    requires i < |ps| && LabelNumbers(ps)
    ensures Mixed(ps, i + 1)[2 * i + 1] == Plain(ps[i].lab)
    ensures Mixed(ps, i) == Mixed(ps, i + 1)[2 * i + 1 := Refer(ps[i].lab.n)]
  {
    var a, b := Mixed(ps, i), Mixed(ps, i + 1);
    assert (2 * i + 1) / 2 == i && (2 * i + 1) % 2 == 1;
    forall j | 0 <= j < 2 * |ps|
      ensures a[j] == b[2 * i + 1 := Refer(ps[i].lab.n)][j]
    {
      assert a[j] == MixedAt(ps[j / 2], j % 2 == 0, j / 2 >= i);
      assert b[j] == MixedAt(ps[j / 2], j % 2 == 0, j / 2 >= i + 1);
    }
  }

  lemma MixedWords(code: seq<Word>, t: nat, n: nat, i: int)
    requires t + 2 * n <= |code| && i >= n
    ensures forall j :: 0 <= j < 2 * n ==> Mixed(Pairs(code, t, n), i)[j] == Plain(code[t + j])
  {
    var ps := Pairs(code, t, n);
    forall j | 0 <= j < 2 * n
      ensures Mixed(ps, i)[j] == Plain(code[t + j])
    {
      PairAt(code, t, n, j / 2);
      assert j == 2 * (j / 2) + j % 2;
    }
  }

  /** The last 2 * |ps| items are the table ps. */
  predicate EndsInTable(items: seq<Item>, ps: seq<Pair>) {
    2 * |ps| <= |items| && items[|items| - 2 * |ps|..] == Mixed(ps, |ps|)
  }

  /** The words of a table still to be sorted are plain words. */
  lemma TableWords(code: seq<Word>, base: nat, items: seq<Item>, ps: seq<Pair>)
    requires AllWords(code, base, items) && EndsInTable(items, ps)
    ensures Pairs(code, |code| - 2 * |ps|, |ps|) == ps
    ensures forall i :: |items| - 2 * |ps| <= i < |items| ==> items[i].Plain?
  {
    var n := |ps|;
    var t, m := |code| - 2 * n, |items| - 2 * n;
    forall i | m <= i < |items|
      ensures items[i].Plain? && items[i].w == code[base + i]
      ensures items[i] == MixedAt(ps[(i - m) / 2], (i - m) % 2 == 0, false)
    {
      assert items[m..][i - m] == items[i];
      assert WordFor(code, base, items, i);
    }
    forall j | 0 <= j < n
      ensures Pairs(code, t, n)[j] == ps[j]
    {
      var a, b := m + 2 * j, m + 2 * j + 1;
      PairAt(code, t, n, j);
      assert (a - m) / 2 == j && (b - m) / 2 == j && (a - m) % 2 == 0 && (b - m) % 2 == 1;
      assert items[a].w == code[t + 2 * j] && items[b].w == code[t + 2 * j + 1];
    }
  }

  /** The items once the words of the table have been sorted. */
  lemma SortedItems(code: seq<Word>, c: seq<Word>, base: nat, items: seq<Item>, ps: seq<Pair>, qs: seq<Pair>)
    requires AllWords(code, base, items) && EndsInTable(items, ps) && |qs| == |ps| && |c| == |code|
    requires c[..|code| - 2 * |ps|] == code[..|code| - 2 * |ps|] && qs == Pairs(c, |code| - 2 * |ps|, |ps|)
    ensures Rewritten(code, c, base, items, items[..|items| - 2 * |ps|] + Mixed(qs, |ps|))
  {
    var n := |ps|;
    var m := |items| - 2 * n;
    var more := items[..m] + Mixed(qs, n);
    TableWords(code, base, items, ps);
    MixedWords(c, |code| - 2 * n, n, n);
    forall i | 0 <= i < |items|
      ensures items[i].Refer? ==> more[i] == items[i] && c[base + i] == code[base + i]
      ensures items[i].Plain? ==> more[i] == Plain(c[base + i])
    {
      assert WordFor(code, base, items, i);
      if i < m {
        assert c[base + i] == c[..|code| - 2 * n][base + i];
      } else {
        assert more[i] == Mixed(qs, n)[i - m];
      }
    }
  }
}
