/** The switch instruction at run time: binary search in the sorted table goes
    where a linear search of the table as it was written would go. */
module CodeSwitch {
  import opened CodeSort
  import opened CodeLabels
  import opened CodeAssembler

  predicate Hits(x: Word, p: Pair) {
    CompareConstants(x, p.key) == 0
  }

  /** The first pair whose key is x decides, otherwise the else label. */
  function LinearLabel(ps: seq<Pair>, x: Word, other: int): int
    requires LabelNumbers(ps)
  {
    if ps == [] then other else if Hits(x, ps[0]) then ps[0].lab.n else LinearLabel(ps[1..], x, other)
  }

  /** Pairs with equal keys have equal labels. */
  predicate Agreeing(ps: seq<Pair>) {
    forall i, j :: 0 <= i < j < |ps| && CompareConstants(ps[i].key, ps[j].key) == 0 ==> ps[i].lab == ps[j].lab
  }

  /** A label of some pair whose key is x, or the else label if there is none. */
  ghost predicate Branches(ps: seq<Pair>, x: Word, other: int, l: int)
    requires LabelNumbers(ps)
  {
    if exists i :: 0 <= i < |ps| && Hits(x, ps[i]) then exists i :: 0 <= i < |ps| && Hits(x, ps[i]) && ps[i].lab.n == l
    else l == other
  }

  /** Binary search: the offset of the word to branch through. An empty table has
      no first key; what is compared then is the word behind it. */
  method Search(code: seq<Word>, pc: nat, tablesize: nat, x: Word) returns (k: nat)
    requires pc + 2 * tablesize < |code| && Sorted(Pairs(code, pc, tablesize))
    ensures tablesize == 0 ==> k == if CompareConstants(x, code[pc]) == 0 then 1 else 0
    ensures tablesize > 0 ==>
              var ps := Pairs(code, pc, tablesize);
              || (k == 2 * tablesize && forall j :: 0 <= j < tablesize ==> !Hits(x, ps[j]))
              || (exists j :: 0 <= j < tablesize && k == 2 * j + 1 && Hits(x, ps[j]))
  {
    var low, high := 0, 2 * tablesize;
    ghost var a, b, ps := 0, tablesize, Pairs(code, pc, tablesize);
    while true
      invariant low == 2 * a && high == 2 * b && 0 <= a && (a < b || a == b == tablesize == 0) && b <= tablesize
      invariant forall j :: 0 <= j < tablesize && Hits(x, ps[j]) ==> a <= j < b
      decreases b - a
    {
      var pivot := (low + high) / 4 * 2;
      ghost var m := (a + b) / 2;
      assert pivot == 2 * m;
      var c := code[pc + pivot];
      var cond := CompareConstants(x, c);
      if cond == 0 {
        if tablesize > 0 {
          assert Hits(x, ps[m]);
        }
        return pivot + 1;
      } else if pivot == low {
        return 2 * tablesize;
      } else if cond < 0 {
        Above(ps, x, m);
        high, b := pivot, m;
      } else {
        Below(ps, x, m);
        low, a := pivot, m;
      }
    }
  }

  lemma Above(ps: seq<Pair>, x: Word, m: nat)
    requires Sorted(ps) && m < |ps| && CompareConstants(x, ps[m].key) < 0
    ensures forall j :: m <= j < |ps| ==> !Hits(x, ps[j])
  {
    forall j | m <= j < |ps|
      ensures !Hits(x, ps[j])
    {
      assert AtMost(ps[m], ps[j]);
    }
  }

  lemma Below(ps: seq<Pair>, x: Word, m: nat)
    requires Sorted(ps) && m < |ps| && CompareConstants(x, ps[m].key) > 0
    ensures forall j :: 0 <= j <= m ==> !Hits(x, ps[j])
  {
    forall j | 0 <= j <= m
      ensures !Hits(x, ps[j])
    {
      assert AtMost(ps[j], ps[m]);
    }
  }

  lemma {:induction false} LinearFinds(ps: seq<Pair>, x: Word, other: int, i: nat)
    requires LabelNumbers(ps) && Agreeing(ps) && i < |ps| && Hits(x, ps[i])
    ensures LinearLabel(ps, x, other) == ps[i].lab.n
    decreases i
  {
    if i > 0 {
      assert Hits(x, ps[0]) ==> CompareConstants(ps[0].key, ps[i].key) == 0;
      LinearFinds(ps[1..], x, other, i - 1);
    }
  }

  lemma {:induction false} LinearMisses(ps: seq<Pair>, x: Word, other: int)
    requires LabelNumbers(ps) && forall i :: 0 <= i < |ps| ==> !Hits(x, ps[i])
    ensures LinearLabel(ps, x, other) == other
    decreases |ps|
  {
    if ps != [] {
      LinearMisses(ps[1..], x, other);
    }
  }

  lemma Exchanged(ps: seq<Pair>, qs: seq<Pair>, j: nat) returns (i: nat)
    requires multiset(ps) == multiset(qs) && j < |qs|
    ensures i < |ps| && ps[i] == qs[j]
  {
    assert qs[j] in multiset(qs);
    assert qs[j] in ps;
    i :| 0 <= i < |ps| && ps[i] == qs[j];
  }

  // ------------------------------------------------ assembled code

  /** A sorted table and its else label, m items into the definition. */
  ghost predicate TableAt(items: seq<Item>, m: nat, qs: seq<Pair>, other: int) {
    m + 2 * |qs| < |items| && items[m..m + 2 * |qs|] == Mixed(qs, 0) && items[m + 2 * |qs|] == Refer(other)
  }

  lemma TableItem(items: seq<Item>, m: nat, qs: seq<Pair>, other: int, j: nat)
    requires TableAt(items, m, qs, other) && LabelNumbers(qs) && j < |qs|
    ensures items[m + 2 * j] == Plain(qs[j].key) && items[m + 2 * j + 1] == Refer(qs[j].lab.n)
  {
    var row := items[m..m + 2 * |qs|];
    assert row[2 * j] == items[m + 2 * j] && row[2 * j + 1] == items[m + 2 * j + 1];
    assert 2 * j / 2 == j && 2 * j % 2 == 0 && (2 * j + 1) / 2 == j && (2 * j + 1) % 2 == 1;
  }

  /** The words of a fixed table. */
  lemma FixedTable(was: seq<Word>, code: seq<Word>, base: nat, items: seq<Item>, defs: seq<int>, failDec: int, m: nat,
    qs: seq<Pair>, other: int)
    requires Fixed(was, code, base, items, defs, failDec) && TableAt(items, m, qs, other) && LabelNumbers(qs)
    ensures base + m + 2 * |qs| < |code|
    ensures forall j :: 0 <= j < |qs| ==> Pairs(code, base + m, |qs|)[j].key == qs[j].key
    ensures forall j :: 0 <= j < |qs| ==> qs[j].lab.n < MAXLABELS
    ensures forall j :: 0 <= j < |qs| ==>
              Pairs(code, base + m, |qs|)[j].lab == Num(Target(base, defs, failDec, qs[j].lab.n))
    ensures 0 <= other < MAXLABELS && code[base + m + 2 * |qs|] == Num(Target(base, defs, failDec, other))
  {
    var n := |qs|;
    assert FixedAt(code, base, items, defs, failDec, m + 2 * n);
    forall j | 0 <= j < n
      ensures Pairs(code, base + m, n)[j].key == qs[j].key && qs[j].lab.n < MAXLABELS
      ensures Pairs(code, base + m, n)[j].lab == Num(Target(base, defs, failDec, qs[j].lab.n))
    {
      TableItem(items, m, qs, other, j);
      PairAt(code, base + m, n, j);
      assert FixedAt(code, base, items, defs, failDec, m + 2 * j);
      assert FixedAt(code, base, items, defs, failDec, m + 2 * j + 1);
    }
  }

  /** Whatever pair with the right key is found, it is as good as the first one, if
      and only if pairs with equal keys have equal labels. */
  lemma AgreeingIff(ps: seq<Pair>, other: int)
    requires LabelNumbers(ps)
    ensures (forall x, l :: Branches(ps, x, other, l) ==> l == LinearLabel(ps, x, other)) <==> Agreeing(ps)
  {
    if Agreeing(ps) {
      forall x, l | Branches(ps, x, other, l)
        ensures l == LinearLabel(ps, x, other)
      {
        BranchLinear(ps, x, other, l);
      }
    } else {
      var i, j :| 0 <= i < j < |ps| && CompareConstants(ps[i].key, ps[j].key) == 0 && ps[i].lab != ps[j].lab;
      var x := ps[i].key;
      assert Hits(x, ps[i]) && Hits(x, ps[j]);
      assert Branches(ps, x, other, ps[i].lab.n) && Branches(ps, x, other, ps[j].lab.n);
      assert ps[i].lab.n != ps[j].lab.n;
    }
  }

  lemma BranchLinear(ps: seq<Pair>, x: Word, other: int, l: int)
    requires LabelNumbers(ps) && Agreeing(ps) && Branches(ps, x, other, l)
    ensures l == LinearLabel(ps, x, other)
  {
    if i :| 0 <= i < |ps| && Hits(x, ps[i]) {
      var j :| 0 <= j < |ps| && Hits(x, ps[j]) && ps[j].lab.n == l;
      LinearFinds(ps, x, other, j);
    } else {
      LinearMisses(ps, x, other);
    }
  }

  /** The instruction branches to the label of a pair with the key, or to the else
      label; where equal keys have equal labels, to the one that a linear search
      of the table as it was written finds. With an empty table the word behind
      it must not be taken for the key. */
  method Dispatch(code: seq<Word>, pc: nat, tablesize: nat, x: Word, ghost was: seq<Word>, ghost base: nat,
    ghost items: seq<Item>, ghost defs: seq<int>, ghost failDec: int, ghost m: nat, ghost ps: seq<Pair>,
    ghost qs: seq<Pair>, ghost other: int) returns (target: Word, ghost l: int)
    requires Fixed(was, code, base, items, defs, failDec) && TableAt(items, m, qs, other) && pc == base + m
    requires |qs| == tablesize && Sorted(qs) && multiset(qs) == multiset(ps) && LabelNumbers(ps)
    requires tablesize > 0 || !EmptyHit(code, pc, x)
    ensures Branches(ps, x, other, l) && (Agreeing(ps) ==> l == LinearLabel(ps, x, other))
    ensures 0 <= l < MAXLABELS && target == Num(Target(base, defs, failDec, l))
  {
    NumbersKept(ps, qs);
    SameCount(ps, qs);
    FixedTable(was, code, base, items, defs, failDec, m, qs, other);
    ghost var cs := Pairs(code, pc, tablesize);
    forall i, j | 0 <= i <= j < tablesize
      ensures AtMost(cs[i], cs[j])
    {
      assert AtMost(qs[i], qs[j]);
    }
    var k := Search(code, pc, tablesize, x);
    target, l := code[pc + k], other;
    if k == 2 * tablesize {
      forall i | 0 <= i < |ps|
        ensures !Hits(x, ps[i])
      {
        var j := Exchanged(qs, ps, i);
        assert !Hits(x, cs[j]);
      }
    } else {
      ghost var j :| 0 <= j < tablesize && k == 2 * j + 1 && Hits(x, cs[j]);
      PairAt(code, pc, tablesize, j);
      ghost var i := Exchanged(ps, qs, j);
      l := qs[j].lab.n;
      assert Hits(x, ps[i]) && ps[i].lab.n == l;
    }
    if Agreeing(ps) {
      BranchLinear(ps, x, other, l);
    }
  }

  /** The word at pc is taken for a key. */
  predicate EmptyHit(code: seq<Word>, pc: nat, x: Word) {
    pc < |code| && CompareConstants(x, code[pc]) == 0
  }

  lemma SameCount(ps: seq<Pair>, qs: seq<Pair>)
    requires multiset(ps) == multiset(qs)
    ensures |ps| == |qs|
  {
    assert |multiset(ps)| == |multiset(qs)|;
  }

  // ------------------------------------------------ assembling a switch

  lemma RowWords(ps: seq<Pair>, j: nat)
    requires j < |ps|
    ensures Mixed(ps, |ps|)[..2 * (j + 1)] ==
            Mixed(ps, |ps|)[..2 * j] + [Plain(ps[j].key)] + [Plain(ps[j].lab)]
  {
    var row := Mixed(ps, |ps|);
    assert 2 * j / 2 == j && 2 * j % 2 == 0 && (2 * j + 1) / 2 == j && (2 * j + 1) % 2 == 1;
    assert row[2 * j] == Plain(ps[j].key) && row[2 * j + 1] == Plain(ps[j].lab);
  }

  /** The parser's actions for a switch: the pairs as they are written, the sort,
      and the else label. */
  method EmitSwitch(a: Assembler, ps: seq<Pair>, other: nat) returns (ok: bool, ghost qs: seq<Pair>)
    requires a.Valid() && LabelNumbers(ps)
    modifies a, a.labelrefs
    ensures ok <==> other < MAXLABELS && forall j :: 0 <= j < |ps| ==> ps[j].lab.n < MAXLABELS
    ensures a.base == old(a.base)
    ensures ok ==> a.Valid() && a.items == old(a.items) + Mixed(qs, 0) + [Refer(other)]
    ensures ok ==> Sorted(qs) && multiset(qs) == multiset(ps) && TableAt(a.items, |old(a.items)|, qs, other)
  {
    hide AllLabels, AllWords, Sorted;
    ghost var items0, row := a.items, Mixed(ps, |ps|);
    var j := 0;
    while j < |ps|
      invariant 0 <= j <= |ps| && a.Valid() && a.items == items0 + row[..2 * j] && a.base == old(a.base)
    {
      RowWords(ps, j);
      a.PutWord(ps[j].key);
      a.PutWord(ps[j].lab);
      assert items0 + row[..2 * j] + [Plain(ps[j].key)] + [Plain(ps[j].lab)] == items0 + row[..2 * (j + 1)];
      j := j + 1;
    }
    assert row[..2 * |ps|] == row && a.items[|items0|..] == row;
    ok, qs := a.SortSwitchTable(|ps|, ps);
    LabelsKept(ps, qs);
    if !ok {
      return;
    }
    assert (items0 + row)[..|items0|] == items0;
    ok := a.PutLabel(other);
    ghost var m := |items0|;
    assert ok ==> a.items[m..m + 2 * |qs|] == Mixed(qs, 0);
  }

  lemma LabelsKept(ps: seq<Pair>, qs: seq<Pair>)
    requires multiset(ps) == multiset(qs) && LabelNumbers(ps) && LabelNumbers(qs)
    ensures |ps| == |qs|
    ensures (forall j :: 0 <= j < |ps| ==> ps[j].lab.n < MAXLABELS) <==>
            forall j :: 0 <= j < |qs| ==> qs[j].lab.n < MAXLABELS
  {
    assert |multiset(ps)| == |multiset(qs)|;
    forall j | 0 <= j < |qs|
      ensures exists i :: 0 <= i < |ps| && ps[i] == qs[j]
    {
      var i := Exchanged(ps, qs, j);
    }
    forall j | 0 <= j < |ps|
      ensures exists i :: 0 <= i < |qs| && qs[i] == ps[j]
    {
      var i := Exchanged(qs, ps, j);
    }
  }

  /** Emitting more leaves the table where it is. */
  lemma TableStays(items: seq<Item>, more: seq<Item>, m: nat, qs: seq<Pair>, other: int)
    requires TableAt(items, m, qs, other) && items <= more
    ensures TableAt(more, m, qs, other)
  {
    assert more[m..m + 2 * |qs|] == items[m..m + 2 * |qs|];
  }
}
