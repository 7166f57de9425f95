/** The assembler: emitting words and references, defining labels, sorting the
    tables of switches, and fixing all references at the end of a definition. */
module CodeAssembler {
  import opened CodeSort
  import opened CodeLabels

  /** What the words hold in the end: the address of the label, or for an
      undefined label what the code puts there. */
  function Target(base: nat, defs: seq<int>, failDec: int, l: int): int
    requires 0 <= l < |defs|
  {
    if defs[l] != NOLABEL then base + defs[l] else if l == 0 then failDec else NOLABEL
  }

  /** Every word as it was meant: plain words unchanged, references resolved. */
  ghost predicate Fixed(was: seq<Word>, code: seq<Word>, base: nat, items: seq<Item>, defs: seq<int>, failDec: int) {
    && |code| == |was| == base + |items| && |defs| == MAXLABELS && code[..base] == was[..base]
    && forall i :: 0 <= i < |items| ==> FixedAt(code, base, items, defs, failDec, i)
  }

  predicate FixedAt(code: seq<Word>, base: nat, items: seq<Item>, defs: seq<int>, failDec: int, i: int)
    requires 0 <= i < |items| && |defs| == MAXLABELS
  {
    && 0 <= base + i < |code|
    && match items[i]
       case Plain(w) => code[base + i] == w
       case Refer(l) => 0 <= l < MAXLABELS && code[base + i] == Num(Target(base, defs, failDec, l))
  }

  // ------------------------------------------------ fixing

  /** Part of the way: references to labels below l are resolved, those to l
      except the words of rest, and nothing else has changed. */
  ghost predicate Fixing(was: seq<Word>, code: seq<Word>, base: nat, items: seq<Item>, defs: seq<int>, failDec: int,
    l: int, rest: seq<int>)
  {
    && |code| == |was| == base + |items| && |defs| == MAXLABELS && code[..base] == was[..base]
    && forall i :: 0 <= i < |items| ==> FixingAt(was, code, base, items, defs, failDec, l, rest, i)
  }

  predicate FixingAt(was: seq<Word>, code: seq<Word>, base: nat, items: seq<Item>, defs: seq<int>, failDec: int,
    l: int, rest: seq<int>, i: int)
    requires 0 <= i < |items| && |defs| == MAXLABELS && |code| == |was| == base + |items|
  {
    if items[i].Refer? && 0 <= items[i].l < MAXLABELS && (items[i].l < l || (items[i].l == l && i !in rest))
    then code[base + i] == Num(Target(base, defs, failDec, items[i].l))
    else code[base + i] == was[base + i]
  }

  lemma FixWord(was: seq<Word>, code: seq<Word>, base: nat, items: seq<Item>, defs: seq<int>, failDec: int, l: int,
    rest: seq<int>)
    requires Fixing(was, code, base, items, defs, failDec, l, rest) && rest != [] && Distinct(rest)
    requires 0 <= l < MAXLABELS && 0 <= rest[0] < |items| && items[rest[0]] == Refer(l)
    ensures Fixing(was, code[base + rest[0] := Num(Target(base, defs, failDec, l))], base, items, defs, failDec, l,
                   rest[1..])
  {
    var c := code[base + rest[0] := Num(Target(base, defs, failDec, l))];
    assert rest[0] !in rest[1..];
    assert c[..base] == code[..base];
    forall i | 0 <= i < |items|
      ensures FixingAt(was, c, base, items, defs, failDec, l, rest[1..], i)
    {
      assert FixingAt(was, code, base, items, defs, failDec, l, rest, i);
      assert i in rest <==> i == rest[0] || i in rest[1..];
    }
  }

  /** The chain of a label not yet fixed is still there. */
  lemma ChainThere(was: seq<Word>, code: seq<Word>, base: nat, items: seq<Item>, defs: seq<int>, failDec: int, l: int,
    head: int, chain: seq<int>)
    requires Fixing(was, code, base, items, defs, failDec, l, chain) && LabelOk(was, base, items, l, head, chain)
    ensures Chained(code, base, head, chain)
  {
    forall i | i in chain
      ensures 0 <= i < |items| && code[base + i] == was[base + i]
    {
      assert FixingAt(was, code, base, items, defs, failDec, l, chain, i);
    }
    ChainKeeps(was, code, base, head, chain);
  }

  /** The rest of the chain after its first word has been fixed. */
  lemma ChainLeft(code: seq<Word>, base: nat, head: int, rest: seq<int>, w: Word)
    requires Chained(code, base, head, rest) && rest != [] && Distinct(rest) && forall i :: i in rest ==> i >= 0
    ensures 0 <= base + head < |code| && code[base + head].Num? && head == rest[0]
    ensures Chained(code[base + head := w], base, code[base + head].n, rest[1..]) && Distinct(rest[1..])
    ensures code[base + head].n == NOLABEL <==> rest[1..] == []
    decreases |rest|
  {
    assert head !in rest[1..];
    assert rest[1..] != [] ==> rest[1..][0] in rest;
    ChainKeeps(code, code[base + head := w], base, code[base + head].n, rest[1..]);
    ChainEnd(code, base, code[base + head].n, rest[1..]);
  }

  lemma ChainEnd(code: seq<Word>, base: nat, head: int, chain: seq<int>)
    requires Chained(code, base, head, chain)
    ensures chain == [] ==> head == NOLABEL
    ensures chain != [] && chain[0] >= 0 ==> head != NOLABEL
  {
  }

  /** With nothing left of the chain of l, the labels below l + 1 are fixed. */
  lemma FixedLabel(was: seq<Word>, code: seq<Word>, base: nat, items: seq<Item>, defs: seq<int>, failDec: int, l: int,
    next: seq<int>)
    requires Fixing(was, code, base, items, defs, failDec, l, []) && 0 <= l
    requires forall i :: 0 <= i < |items| && items[i] == Refer(l + 1) ==> i in next
    ensures Fixing(was, code, base, items, defs, failDec, l + 1, next)
  {
    var m := l + 1;
    forall i | 0 <= i < |items|
      ensures FixingAt(was, code, base, items, defs, failDec, m, next, i)
    {
      assert FixingAt(was, code, base, items, defs, failDec, l, [], i);
    }
  }

  lemma StartFixing(code: seq<Word>, base: nat, items: seq<Item>, defs: seq<int>, failDec: int, rest: seq<int>)
    requires |code| == base + |items| && |defs| == MAXLABELS
    requires forall i :: 0 <= i < |items| && items[i] == Refer(0) ==> i in rest
    ensures Fixing(code, code, base, items, defs, failDec, 0, rest)
  {
  }

  lemma EndFixing(was: seq<Word>, code: seq<Word>, base: nat, items: seq<Item>, defs: seq<int>, failDec: int)
    requires Fixing(was, code, base, items, defs, failDec, MAXLABELS, []) && AllWords(was, base, items)
    ensures Fixed(was, code, base, items, defs, failDec)
  {
    forall i | 0 <= i < |items|
      ensures FixedAt(code, base, items, defs, failDec, i)
    {
      assert FixingAt(was, code, base, items, defs, failDec, MAXLABELS, [], i) && WordFor(was, base, items, i);
    }
  }

  lemma OfLabel(code: seq<Word>, base: nat, items: seq<Item>, heads: seq<int>, chains: seq<seq<int>>, l: int)
    requires AllLabels(code, base, items, heads, chains) && 0 <= l < MAXLABELS
    ensures LabelOk(code, base, items, l, heads[l], chains[l]) && Distinct(chains[l])
    ensures forall i :: i in chains[l] <==> 0 <= i < |items| && items[i] == Refer(l)
    ensures heads[l] == NOLABEL <==> chains[l] == []
  {
    var chain := chains[l];
    assert LabelOk(code, base, items, l, heads[l], chain);
    assert chain != [] ==> chain[0] in chain;
  }

  // ------------------------------------------------ the assembler

  class Assembler {
    /** The code area up to the current word. */
    var code: seq<Word>
    var base: nat
    const labelt: array<int>
    const labelrefs: array<int>
    ghost var items: seq<Item>
    ghost var chains: seq<seq<int>>

    ghost predicate Valid()
      reads this, labelt, labelrefs
    {
      && labelt != labelrefs && labelt.Length == labelrefs.Length == MAXLABELS
      && AllLabels(code, base, items, labelrefs[..], chains) && AllWords(code, base, items)
    }

    constructor (code: seq<Word>)
      ensures Valid() && this.code == code && base == |code| && items == [] && labelt[..] == Undefined()
      ensures fresh(labelt) && fresh(labelrefs)
    {
      this.code := code;
      labelt := new int[MAXLABELS];
      labelrefs := new int[MAXLABELS];
      new;
      ResetLabel();
    }

    /** reset_label: a new definition begins here. */
    method ResetLabel()
      requires labelt != labelrefs && labelt.Length == labelrefs.Length == MAXLABELS
      modifies this, labelt, labelrefs
      ensures Valid() && code == old(code) && base == |code| && items == [] && labelt[..] == Undefined()
    {
      base := |code|;
      items, chains := [], seq(MAXLABELS, _ => []);
      var i := 0;
      while i < MAXLABELS
        invariant 0 <= i <= MAXLABELS && code == old(code) && base == |code| && items == []
        invariant chains == seq(MAXLABELS, _ => [])
        invariant forall l :: 0 <= l < i ==> labelt[l] == NOLABEL && labelrefs[l] == NOLABEL
      {
        labelt[i] := NOLABEL;
        labelrefs[i] := NOLABEL;
        i := i + 1;
      }
      EmptyLabels(code, labelrefs[..]);
      assert labelt[..] == Undefined();
    }

    method PutWord(w: Word)
      requires Valid()
      modifies this
      ensures Valid() && items == old(items) + [Plain(w)] && base == old(base) && code[..base] == old(code[..base])
    {
      PlainLabels(code, base, items, labelrefs[..], chains, w);
      code, items := code + [w], items + [Plain(w)];
    }

    /** LabelWord: too high a label is a fatal error. */
    method PutLabel(x: nat) returns (ok: bool)
      requires Valid()
      modifies this, labelrefs
      ensures Valid() && ok == (x < MAXLABELS) && base == old(base) && code[..base] == old(code[..base])
      ensures items == if ok then old(items) + [Refer(x)] else old(items)
    {
      if x >= MAXLABELS {
        return false;
      }
      ghost var heads := labelrefs[..];
      ReferLabels(code, base, items, heads, chains, x);
      var here := |code| - base;
      code := code + [Num(labelrefs[x])];
      labelrefs[x] := here;
      assert labelrefs[..] == heads[x := here];
      chains := chains[x := [|items|] + chains[x]];
      items := items + [Refer(x)];
      return true;
    }

    /** store_label: only the first definition of a label counts. */
    method StoreLabel(l: nat) returns (first: bool)
      requires Valid() && l < MAXLABELS
      modifies labelt
      ensures Valid() && first == (old(labelt[l]) == NOLABEL)
      ensures labelt[..] == if first then old(labelt[..])[l := |items|] else old(labelt[..])
    {
      if labelt[l] != NOLABEL {
        return false;
      }
      labelt[l] := |code| - base;
      return true;
    }

    /** A word that holds the number of a label becomes a reference to it. */
    method LinkWord(k: nat, ghost j: nat, ghost l: nat) returns (ok: bool)
      requires Valid() && j < |items| && k == base + j && items[j] == Plain(Num(l))
      modifies this`code, this`items, this`chains, labelrefs
      ensures ok == (l < MAXLABELS) && |code| == |old(code)| && code[..base] == old(code[..base])
      ensures ok ==> Valid() && items == old(items)[j := Refer(l)]
      ensures !ok ==> items == old(items) && code == old(code) && labelrefs[..] == old(labelrefs[..])
    {
      WordAt(code, base, items, j);
      var temp := code[k].n;
      if temp >= MAXLABELS {
        return false;
      }
      ghost var heads := labelrefs[..];
      LinkedLabels(code, base, items, heads, chains, temp, j);
      code := code[k := Num(labelrefs[temp])];
      labelrefs[temp] := k - base;
      assert labelrefs[..] == heads[temp := j];
      chains := chains[temp := [j as int] + chains[temp]];
      items := items[j := Refer(l)];
      return true;
    }

    /** The first half of sort_switch_table: the last n pairs are sorted. */
    method SortTable(n: nat, ghost ps: seq<Pair>) returns (t: nat, ghost qs: seq<Pair>)
      requires Valid() && |ps| == n && EndsInTable(items, ps) && LabelNumbers(ps)
      modifies this`code, this`items
      ensures 2 * n <= |old(items)| && t == base + (|old(items)| - 2 * n)
      ensures Valid() && |code| == |old(code)| && base <= |code| && code[..base] == old(code[..base])
      ensures |qs| == n && LabelNumbers(qs) && Sorted(qs) && multiset(qs) == multiset(ps)
      ensures items == old(items)[..|old(items)| - 2 * n] + Mixed(qs, n)
    {
      TableWords(code, base, items, ps);
      CodeLength(code, base, items);
      t := |code| - 2 * n;
      ghost var c0, items0, m := code, items, |items| - 2 * n;
      hide AllLabels, AllWords, Mixed, EndsInTable, Sorted, LabelNumbers, Pairs;
      code := SortPairs(code, t, n);
      qs := Pairs(code, t, n);
      assert code[..base] == code[..t][..base] == c0[..base];
      NumbersKept(ps, qs);
      SortedItems(c0, code, base, items0, ps, qs);
      items := items0[..m] + Mixed(qs, n);
      RewriteLabels(c0, code, base, items0, items, labelrefs[..], chains);
    }

    /** The second half: the labels of the table become references, the last one
        first. */
    method LinkTable(t: nat, n: nat, ghost front: seq<Item>, ghost qs: seq<Pair>) returns (ok: bool)
      requires Valid() && |qs| == n && LabelNumbers(qs) && items == front + Mixed(qs, n) && t == base + |front|
      modifies this`code, this`items, this`chains, labelrefs
      ensures |code| == |old(code)| && base <= |code| && code[..base] == old(code[..base])
      ensures ok <==> forall j :: 0 <= j < n ==> qs[j].lab.n < MAXLABELS
      ensures ok ==> Valid() && items == front + Mixed(qs, 0)
    {
      BaseWithin();
      hide *;
      ghost var c0 := code;
      var i := n;
      while i > 0
        invariant 0 <= i <= n && Valid() && |code| == |c0| && base <= |code| && code[..base] == c0[..base]
        invariant items == front + Mixed(qs, i)
        invariant forall j :: i <= j < n ==> qs[j].lab.n < MAXLABELS
      {
        i := i - 1;
        MixedLink(front, qs, i);
        ok := LinkWord(t + 2 * i + 1, |front| + 2 * i + 1, qs[i].lab.n);
        if !ok {
          return;
        }
      }
      ok := true;
    }

    lemma BaseWithin()
      requires Valid()
      ensures |code| == base + |items|
    {
    }

    /** sort_switch_table: the last n pairs are sorted, and their labels become
        references. */
    method SortSwitchTable(n: nat, ghost ps: seq<Pair>) returns (ok: bool, ghost qs: seq<Pair>)
      requires Valid() && |ps| == n && EndsInTable(items, ps) && LabelNumbers(ps)
      modifies this`code, this`items, this`chains, labelrefs
      ensures |code| == |old(code)| && base <= |code| && code[..base] == old(code[..base])
      ensures |qs| == n && LabelNumbers(qs) && Sorted(qs) && multiset(qs) == multiset(ps)
      ensures ok <==> forall j :: 0 <= j < n ==> qs[j].lab.n < MAXLABELS
      ensures ok ==> Valid() && items == old(items)[..|old(items)| - 2 * n] + Mixed(qs, 0)
    {
      hide *;
      ghost var items0 := items;
      var t: nat;
      t, qs := SortTable(n, ps);
      ok := LinkTable(t, n, items0[..|items0| - 2 * n], qs);
    }

    /** fix_labelrefs: every word of every chain is overwritten with what its
        label stands for. Undefined labels are reported. */
    method FixLabelrefs(failDec: int) returns (errors: nat)
      requires Valid()
      modifies this`code
      ensures Fixed(old(code), code, base, items, labelt[..], failDec)
      ensures errors == 0 <==> forall l :: 0 < l < MAXLABELS && chains[l] != [] ==> labelt[l] != NOLABEL
    {
      errors := 0;
      ghost var was, defs := code, labelt[..];
      hide *;
      Sizes();
      OfLabel(was, base, items, labelrefs[..], chains, 0);
      StartFixing(was, base, items, defs, failDec, chains[0]);
      RestIs(chains, 0);
      var i := 0;
      while i < MAXLABELS
        invariant 0 <= i <= MAXLABELS && Fixing(was, code, base, items, defs, failDec, i, RestAt(chains, i))
        invariant errors == 0 <==> forall l :: 0 < l < i && chains[l] != [] ==> labelt[l] != NOLABEL
      {
        var bad := FixLabel(was, i, failDec);
        if bad {
          errors := errors + 1;
        }
        i := i + 1;
      }
      RestIs(chains, MAXLABELS);
      EndFixing(was, code, base, items, defs, failDec);
    }

    lemma Sizes()
      requires Valid()
      ensures labelt.Length == labelrefs.Length == MAXLABELS == |chains| && MAXLABELS > 0
      ensures AllLabels(code, base, items, labelrefs[..], chains) && AllWords(code, base, items)
      ensures |code| == base + |items|
    {
    }

    /** What is done for one label; bad if it is referred to and not defined. */
    method FixLabel(ghost was: seq<Word>, i: nat, failDec: int) returns (bad: bool)
      requires labelt.Length == labelrefs.Length == MAXLABELS == |chains| && i < MAXLABELS && |was| == base + |items|
      requires AllLabels(was, base, items, labelrefs[..], chains) && AllWords(was, base, items)
      requires Fixing(was, code, base, items, labelt[..], failDec, i, RestAt(chains, i))
      modifies this`code
      ensures Fixing(was, code, base, items, labelt[..], failDec, i + 1, RestAt(chains, i + 1))
      ensures bad <==> i > 0 && chains[i] != [] && labelt[i] == NOLABEL
    {
      hide *;
      bad := false;
      RestIs(chains, i);
      OfLabel(was, base, items, labelrefs[..], chains, i);
      var ref := labelrefs[i];
      if ref != NOLABEL {
        var def := labelt[i];
        TargetIs(base, labelt[..], failDec, i);
        if def != NOLABEL {
          def := base + def;
        } else if i == 0 {
          def := failDec;
        } else {
          bad := true;
        }
        FixChain(was, i, ref, def, failDec);
      }
      if i + 1 < MAXLABELS {
        OfLabel(was, base, items, labelrefs[..], chains, i + 1);
      }
      NextLabel(was, code, base, items, labelt[..], failDec, i, chains);
    }

    /** The chain of label i, word by word. */
    method FixChain(ghost was: seq<Word>, i: nat, head: int, def: int, ghost failDec: int)
      requires labelt.Length == MAXLABELS && |chains| == MAXLABELS && i < MAXLABELS && |was| == base + |items|
      requires Fixing(was, code, base, items, labelt[..], failDec, i, chains[i])
      requires LabelOk(was, base, items, i, head, chains[i]) && def == Target(base, labelt[..], failDec, i)
      modifies this`code
      ensures Fixing(was, code, base, items, labelt[..], failDec, i, [])
    {
      ghost var rest, defs := chains[i], labelt[..];
      ChainThere(was, code, base, items, defs, failDec, i, head, rest);
      var ref := head;
      RestFacts(code, base, items, i, ref, rest);
      hide *;
      while ref != NOLABEL
        invariant Fixing(was, code, base, items, defs, failDec, i, rest) && Chained(code, base, ref, rest)
        invariant RestOf(items, i, rest) && (ref == NOLABEL <==> rest == [])
        decreases |rest|
      {
        RestStep(items, i, rest);
        ChainLeft(code, base, ref, rest, Num(def));
        FixWord(was, code, base, items, defs, failDec, i, rest);
        var p := base + ref;
        ref := code[p].n;
        code := code[p := Num(def)];
        rest := rest[1..];
      }
    }
  }

  /** Words of the chain of l that are still to be fixed. */
  ghost predicate RestOf(items: seq<Item>, l: int, rest: seq<int>) {
    Distinct(rest) && forall i :: i in rest ==> 0 <= i < |items| && items[i] == Refer(l)
  }

  lemma RestStep(items: seq<Item>, l: int, rest: seq<int>)
    requires RestOf(items, l, rest) && rest != []
    ensures RestOf(items, l, rest[1..]) && Distinct(rest) && forall i :: i in rest ==> i >= 0
    ensures 0 <= rest[0] < |items| && items[rest[0]] == Refer(l)
  {
    assert rest[0] in rest;
    assert forall i :: i in rest[1..] ==> i in rest;
  }

  lemma RestFacts(code: seq<Word>, base: nat, items: seq<Item>, l: int, head: int, chain: seq<int>)
    requires Complete(items, l, chain) && Chained(code, base, head, chain)
    ensures RestOf(items, l, chain) && (head == NOLABEL <==> chain == [])
  {
    assert chain != [] ==> chain[0] in chain;
  }

  lemma TargetIs(base: int, defs: seq<int>, failDec: int, l: nat)
    requires base >= 0 && l < |defs|
    ensures Target(base, defs, failDec, l) ==
            if defs[l] != NOLABEL then base + defs[l] else if l == 0 then failDec else NOLABEL
  {
  }

  lemma RestIs(chains: seq<seq<int>>, i: nat)
    requires |chains| == MAXLABELS && i <= MAXLABELS
    ensures RestAt(chains, i) == if i < MAXLABELS then chains[i] else []
  {
  }

  function RestAt(chains: seq<seq<int>>, i: int): seq<int> {
    if 0 <= i < |chains| then chains[i] else []
  }

  lemma NextLabel(was: seq<Word>, code: seq<Word>, base: nat, items: seq<Item>, defs: seq<int>, failDec: int, l: nat,
    chains: seq<seq<int>>)
    requires l < MAXLABELS == |chains| && AllWords(was, base, items)
    requires Fixing(was, code, base, items, defs, failDec, l, []) || (chains[l] == [] &&
               Fixing(was, code, base, items, defs, failDec, l, chains[l]))
    requires l + 1 < MAXLABELS ==> forall i :: i in chains[l + 1] <==> 0 <= i < |items| && items[i] == Refer(l + 1)
    ensures Fixing(was, code, base, items, defs, failDec, l + 1, RestAt(chains, l + 1))
  {
    FixedLabel(was, code, base, items, defs, failDec, l, RestAt(chains, l + 1));
  }

  lemma WordAt(code: seq<Word>, base: nat, items: seq<Item>, j: nat)
    requires AllWords(code, base, items) && j < |items| && items[j].Plain?
    ensures base + j < |code| && code[base + j] == items[j].w
  {
    assert WordFor(code, base, items, j);
  }

  lemma NumbersKept(ps: seq<Pair>, qs: seq<Pair>)
    requires LabelNumbers(ps) && multiset(qs) == multiset(ps)
    ensures LabelNumbers(qs)
  {
    forall j | 0 <= j < |qs|
      ensures qs[j].lab.Num? && qs[j].lab.n >= 0
    {
      assert qs[j] in multiset(qs);
      assert qs[j] in ps;
    }
  }

  /** Linking the label of pair i, among all the items. */
  lemma MixedLink(front: seq<Item>, ps: seq<Pair>, i: nat)
    requires i < |ps| && LabelNumbers(ps)
    ensures ps[i].lab.Num? && ps[i].lab.n >= 0
    ensures |front| + 2 * i + 1 < |front + Mixed(ps, i + 1)|
    ensures (front + Mixed(ps, i + 1))[|front| + 2 * i + 1] == Plain(Num(ps[i].lab.n))
    ensures (front + Mixed(ps, i + 1))[|front| + 2 * i + 1 := Refer(ps[i].lab.n)] == front + Mixed(ps, i)
  {
    NumberAt(ps, i);
    MixedStep(ps, i);
    hide *;
    var a, b, k := Mixed(ps, i + 1), Mixed(ps, i), 2 * i + 1;
    assert (front + a)[|front| + k := Refer(ps[i].lab.n)] == front + a[k := Refer(ps[i].lab.n)];
  }

  lemma CodeLength(code: seq<Word>, base: nat, items: seq<Item>)
    requires AllWords(code, base, items)
    ensures |code| == base + |items|
  {
  }

  lemma NumberAt(ps: seq<Pair>, j: nat)
    requires LabelNumbers(ps) && j < |ps|
    ensures ps[j].lab.Num? && ps[j].lab.n >= 0
  {
  }

  function Undefined(): seq<int> {
    seq(MAXLABELS, _ => NOLABEL)
  }

  lemma EmptyLabels(code: seq<Word>, heads: seq<int>)
    requires |heads| == MAXLABELS && forall l :: 0 <= l < MAXLABELS ==> heads[l] == NOLABEL
    ensures AllLabels(code, |code|, [], heads, seq(MAXLABELS, _ => [])) && AllWords(code, |code|, [])
  {
  }
}
