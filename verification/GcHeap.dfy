/** The heap the collector and the copier work on: terms, old objects and their
    layout, dereferencing, and what it means for a copied word to be right. */
module GcHeap {

  /** A term: an immediate, an unbound variable (the contents of its cell), a
      reference to a cell, a list cell, a structure. */
  datatype Term = Imm(n: int) | Unb | Ref(a: int) | Lst(a: int) | Str(a: int)

  datatype Tag = LST | STR

  /** A word: a term with the scavenger's mark, the header of a structure, a
      forwarding pointer, or a reversed pointer of the threaded stack, which
      keeps the tag of its block and the mark of the word it replaces. */
  datatype Word =
    | Cell(t: Term, mark: bool)
    | Functor(f: int, arity: int)
    | Fwd(a: int)
    | Rev(prev: int, tag: Tag, mark: bool)

  type Mem = seq<Word>

  const ROOT: int := -1

  /** Old space as it was before: its words, the object every word belongs to
      (home), the addresses that are list cells, a rank that falls along every
      chain of references, and the variables that are external to what is copied
      and stay shared. A collection has no external variables. */
  datatype Old = Old(h: Mem, home: seq<int>, pair: seq<bool>, rank: seq<int>, ext: seq<bool>)

  predicate IsCell(o: Old, c: int) {
    0 <= c < |o.h| && o.h[c].Cell?
  }

  /** The contents of a cell before the collection. */
  function Was(o: Old, c: int): Term {
    if IsCell(o, c) then o.h[c].t else Unb
  }

  predicate IsPair(o: Old, a: int) {
    0 <= a && a + 1 < |o.h| && a < |o.pair| && o.pair[a]
  }

  predicate IsStruct(o: Old, a: int) {
    0 <= a < |o.h| && o.h[a].Functor?
  }

  function Arity(o: Old, a: int): int {
    if IsStruct(o, a) then o.h[a].arity else 0
  }

  function Home(o: Old, c: int): int {
    if 0 <= c < |o.home| then o.home[c] else ROOT
  }

  function Rank(o: Old, c: int): int {
    if 0 <= c < |o.rank| then o.rank[c] else 0
  }

  /** How long a chain of references can be from a term on. */
  function TermRank(o: Old, t: Term): int {
    if t.Ref? then Rank(o, t.a) + 1 else 0
  }

  /** The cell of an unbound external variable. */
  predicate External(o: Old, c: int) {
    IsCell(o, c) && Was(o, c) == Unb && c < |o.ext| && o.ext[c]
  }

  predicate Local(o: Old, c: int) {
    IsCell(o, c) && Was(o, c) == Unb && !External(o, c)
  }

  /** The variables of an object are all external or all local. */
  ghost predicate OneSided(o: Old) {
    forall c, d :: External(o, c) && Local(o, d) ==> Home(o, c) != Home(o, d)
  }

  /** A term of old space points to what its tag says. */
  predicate WellTyped(o: Old, t: Term) {
    match t
    case Imm(_) => true
    case Unb => true
    case Ref(c) => IsCell(o, c)
    case Lst(a) => IsPair(o, a)
    case Str(a) => IsStruct(o, a)
  }

  ghost predicate WellFormed(o: Old) {
    && |o.home| == |o.pair| == |o.rank| == |o.ext| == |o.h| && OneSided(o)
    && (forall c :: 0 <= c < |o.h| ==> WordOk(o, c))
    && (forall a :: IsPair(o, a) ==> PairOk(o, a))
    && (forall a :: IsStruct(o, a) ==> StructOk(o, a))
  }

  /** No word is forwarded, reversed or marked yet, every term is well typed,
      and chains of references end. */
  predicate WordOk(o: Old, c: int)
    requires 0 <= c < |o.h|
  {
    && (o.h[c].Cell? || o.h[c].Functor?) && Rank(o, c) >= 0
    && (o.h[c].Cell? ==> !o.h[c].mark && WellTyped(o, o.h[c].t) && TermRank(o, o.h[c].t) <= Rank(o, c))
  }

  predicate PairOk(o: Old, a: int) {
    IsCell(o, a) && IsCell(o, a + 1) && Home(o, a) == a && Home(o, a + 1) == a
  }

  ghost predicate StructOk(o: Old, a: int) {
    Arity(o, a) >= 1 && Home(o, a) == a && forall c :: a < c <= a + Arity(o, a) ==> IsCell(o, c) && Home(o, c) == a
  }

  /** Follows references as far as they go: to a term that is none, or to a
      reference to an unbound cell. */
  function Deref(o: Old, t: Term): Term
    decreases if TermRank(o, t) > 0 then TermRank(o, t) else 0
  {
    if t.Ref? && IsCell(o, t.a) && Was(o, t.a) != Unb && TermRank(o, Was(o, t.a)) < TermRank(o, t) && TermRank(o, t) > 0
    then Deref(o, Was(o, t.a)) else t
  }

  lemma DerefStep(o: Old, c: int)
    requires WellFormed(o) && IsCell(o, c)
    ensures Was(o, c) != Unb ==> Deref(o, Ref(c)) == Deref(o, Was(o, c)) && TermRank(o, Was(o, c)) < TermRank(o, Ref(c))
    ensures Was(o, c) == Unb ==> Deref(o, Ref(c)) == Ref(c)
    ensures WellTyped(o, Was(o, c)) && TermRank(o, Ref(c)) > 0
  {
    assert WordOk(o, c);
  }

  // ------------------------------------------------ the copy

  /** What the collection has established: where every forwarded old word now
      is, which old word a new word stands for, the old term that a new location
      had or has to be the image of, and the objects that have been copied. */
  datatype Copy = Copy(fw: map<int, int>, inv: map<int, int>, raw: map<int, Term>, done: set<int>)

  function To(k: Copy, a: int): int {
    if a in k.fw then k.fw[a] else ROOT
  }

  function From(k: Copy, n: int): int {
    if n in k.inv then k.inv[n] else ROOT
  }

  /** n is the copy of the old word a it stands for. */
  predicate Stands(k: Copy, n: int, a: int) {
    n in k.inv && k.inv[n] == a && a in k.fw && k.fw[a] == n
  }

  /** u is the image of the old term t, as far as the copy has got: a local
      variable met as a bare reference is still the old one, and external
      variables and objects stay. */
  ghost predicate Image(o: Old, k: Copy, t: Term, u: Term) {
    match u
    case Imm(_) => Deref(o, t) == u
    case Unb => t == Unb
    case Lst(n) =>
      t != Unb && if n < |o.h| then Deref(o, t) == u && ExternalObject(o, n)
                  else Deref(o, t) == Lst(From(k, n)) && Stands(k, n, From(k, n)) && From(k, n) in k.done
    case Str(n) =>
      t != Unb && if n < |o.h| then Deref(o, t) == u && ExternalObject(o, n)
                  else Deref(o, t) == Str(From(k, n)) && Stands(k, n, From(k, n)) && From(k, n) in k.done
    case Ref(n) =>
      if n < |o.h| then Deref(o, t) == u && Was(o, n) == Unb && IsCell(o, n)
      else
        && Stands(k, n, From(k, n)) && IsCell(o, From(k, n))
        && Deref(o, t) == Deref(o, Ref(From(k, n))) && Rank(o, From(k, n)) < TermRank(o, t)
  }

  // ------------------------------------------------ objects and their copies

  /** The words of an old object: lo up to hi. */
  ghost predicate Object(o: Old, lo: int, hi: int) {
    (IsPair(o, lo) && hi == lo + 2) || (IsStruct(o, lo) && hi == lo + 1 + Arity(o, lo))
  }

  /** An object is external when one of its words is an external variable; such
      an object is not copied. */
  ghost predicate ExternalObject(o: Old, lo: int) {
    exists c, hi :: Object(o, lo, hi) && lo <= c < hi && External(o, c)
  }

  /** The words of an object that are forwarded when it is copied: the first,
      and every unbound variable. */
  predicate Forwarded(o: Old, lo: int, c: int) {
    c == lo || (IsCell(o, c) && Was(o, c) == Unb)
  }

  /** The copy of the word c of the object at lo. */
  ghost predicate WordCopied(o: Old, k: Copy, m: Mem, lo: int, c: int)
    requires 0 <= c < |o.h|
  {
    var n := To(k, lo) + (c - lo);
    && 0 <= n < |m|
    && (o.h[c].Functor? ==> m[n] == o.h[c])
    && (o.h[c].Cell? ==> n in k.raw && k.raw[n] == Was(o, c))
    && (Forwarded(o, lo, c) ==> Stands(k, n, c))
  }

  ghost predicate ObjectCopied(o: Old, k: Copy, m: Mem, lo: int) {
    forall c, hi :: Object(o, lo, hi) && lo <= c < hi && 0 <= c < |o.h| ==> WordCopied(o, k, m, lo, c)
  }

  /** Old space: words are forwarded or as they were. */
  predicate OldWord(o: Old, k: Copy, m: Mem, a: int)
    requires 0 <= a < |o.h| <= |m|
  {
    m[a] == if a in k.fw then Fwd(k.fw[a]) else o.h[a]
  }

  /** The place of a forwarded word. */
  predicate Placed(o: Old, k: Copy, m: Mem, a: int)
    requires a in k.fw
  {
    && 0 <= a < |o.h| <= k.fw[a] < |m| && Stands(k, k.fw[a], a) && !External(o, a)
    && (if IsCell(o, a) then k.fw[a] in k.raw && k.raw[k.fw[a]] == Was(o, a) else k.fw[a] !in k.raw)
  }

  /** A term that leads to the object at a. */
  predicate LeadsTo(o: Old, t: Term, a: int) {
    Deref(o, t) == Lst(a) || Deref(o, t) == Str(a)
  }

  /** A copied object is not external, and was reached from a location that was
      there before. */
  ghost predicate Justified(o: Old, k: Copy, a: int)
    requires a in k.fw
  {
    !ExternalObject(o, a) &&
    exists n :: n in k.raw && n < k.fw[a] && LeadsTo(o, k.raw[n], a)
  }

  /** A new location that is no root stands for a cell of a copied object, or
      for a variable. */
  predicate Located(o: Old, k: Copy, n: int)
    requires n in k.raw && n in k.inv
  {
    var c := k.inv[n];
    && k.raw[n] == Was(o, c) && IsCell(o, c)
    && (k.raw[n] == Unb || (Home(o, c) in k.done && Home(o, c) in k.fw && n == k.fw[Home(o, c)] + (c - Home(o, c))
       && Home(o, c) <= c))
  }

  ghost predicate Consistent(o: Old, k: Copy, m: Mem) {
    && |o.h| <= |m|
    && (forall n :: n in k.raw && n in k.inv ==> Located(o, k, n))
    && (forall a :: a in k.done ==> a in k.fw && Justified(o, k, a))
    && (forall a :: 0 <= a < |o.h| ==> OldWord(o, k, m, a))
    && (forall a :: a in k.fw ==> Placed(o, k, m, a))
    && (forall a :: a in k.done ==> a in k.fw && ObjectCopied(o, k, m, a))
    && (forall n :: n in k.raw ==> |o.h| <= n < |m| && WellTyped(o, k.raw[n]))
    && (forall n :: n in k.inv ==> |o.h| <= n < |m|)
  }

  /** Objects are copied as a whole. */
  ghost predicate Whole(o: Old, k: Copy) {
    forall a :: a in k.fw ==> Home(o, a) in k.done && Home(o, a) in k.fw
  }

  ghost predicate Grows(k: Copy, j: Copy) {
    && (forall a :: a in k.fw ==> a in j.fw && j.fw[a] == k.fw[a])
    && (forall n :: n in k.inv ==> n in j.inv && j.inv[n] == k.inv[n])
    && (forall n :: n in k.raw ==> n in j.raw && j.raw[n] == k.raw[n])
    && k.done <= j.done
    && (forall n :: n in j.raw && n !in j.inv ==> n in k.raw)
  }

  lemma ImageGrows(o: Old, k: Copy, j: Copy, t: Term, u: Term)
    requires Image(o, k, t, u) && Grows(k, j)
    ensures Image(o, j, t, u)
  {
    hide Deref;
  }

  // ------------------------------------------------ copying an object

  /** The old word that location q of a block placed at n stands for. */
  function Source(n: int, lo: int, q: int): int {
    lo + (q - n)
  }

  predicate InCopy(n: int, lo: int, hi: int, q: int) {
    lo <= Source(n, lo, q) < hi
  }

  predicate NewCell(o: Old, n: int, lo: int, hi: int, q: int) {
    lo <= Source(n, lo, q) < hi && IsCell(o, Source(n, lo, q))
  }

  predicate OldForwarded(o: Old, lo: int, hi: int, c: int) {
    lo <= c < hi && Forwarded(o, lo, c)
  }

  ghost function MoreFw(o: Old, fw: map<int, int>, n: int, lo: int, hi: int): (r: map<int, int>)
    ensures forall c :: c in r <==> c in fw || OldForwarded(o, lo, hi, c)
    ensures forall c :: c in r ==> r[c] == if OldForwarded(o, lo, hi, c) then n + (c - lo) else fw[c]
  {
    var s := set c | lo <= c < hi && OldForwarded(o, lo, hi, c);
    map c | c in fw.Keys + s :: if c in s then n + (c - lo) else fw[c]
  }

  ghost function MoreInv(inv: map<int, int>, n: int, lo: int, hi: int): (r: map<int, int>)
    ensures forall q :: q in r <==> q in inv || InCopy(n, lo, hi, q)
    ensures forall q :: q in r ==> r[q] == if InCopy(n, lo, hi, q) then Source(n, lo, q) else inv[q]
  {
    var s := set q | n <= q < n + (hi - lo) && InCopy(n, lo, hi, q);
    map q | q in inv.Keys + s :: if q in s then Source(n, lo, q) else inv[q]
  }

  ghost function MoreRaw(o: Old, raw: map<int, Term>, n: int, lo: int, hi: int): (r: map<int, Term>)
    ensures forall q :: q in r <==> q in raw || NewCell(o, n, lo, hi, q)
    ensures forall q :: q in r ==> r[q] == if NewCell(o, n, lo, hi, q) then Was(o, Source(n, lo, q)) else raw[q]
  {
    var s := set q | n <= q < n + (hi - lo) && NewCell(o, n, lo, hi, q);
    map q | q in raw.Keys + s :: if q in s then Was(o, Source(n, lo, q)) else raw[q]
  }

  /** The copy with the object lo..hi placed at n. */
  ghost function Extended(o: Old, k: Copy, n: int, lo: int, hi: int): Copy {
    Copy(MoreFw(o, k.fw, n, lo, hi), MoreInv(k.inv, n, lo, hi), MoreRaw(o, k.raw, n, lo, hi), k.done + {lo})
  }

  /** Memory t is m with the object lo..hi copied to the end; the first cell of
      the copy is marked. */
  ghost predicate Appended(o: Old, m: Mem, t: Mem, lo: int, hi: int, first: int) {
    && 0 <= lo < hi <= |o.h| <= |m| && |t| == |m| + (hi - lo)
    && (forall c :: 0 <= c < |o.h| ==> t[c] == if OldForwarded(o, lo, hi, c) then Fwd(|m| + (c - lo)) else m[c])
    && (forall q :: |o.h| <= q < |m| ==> t[q] == m[q])
    && (forall q :: |m| <= q < |t| ==> t[q] == NewWord(o, |m|, lo, q, first))
  }

  function NewWord(o: Old, n: int, lo: int, q: int, first: int): Word {
    var c := Source(n, lo, q);
    if IsCell(o, c) then Cell(o.h[c].t, q == first)
    else if 0 <= c < |o.h| then o.h[c] else Fwd(0)
  }

  /** No word of an object that has not been copied is forwarded. */
  lemma ObjectFresh(o: Old, k: Copy, lo: int, hi: int, c: int)
    requires WellFormed(o) && Whole(o, k) && Object(o, lo, hi) && lo !in k.fw && lo <= c < hi
    ensures c !in k.fw && 0 <= c < |o.h| && Home(o, c) == lo
  {
    if IsPair(o, lo) {
      assert PairOk(o, lo);
    } else {
      assert StructOk(o, lo);
      assert c > lo ==> IsCell(o, c);
    }
  }

  lemma ExtendedGrows(o: Old, k: Copy, m: Mem, lo: int, hi: int)
    requires WellFormed(o) && Whole(o, k) && Object(o, lo, hi) && lo !in k.fw && Consistent(o, k, m)
    ensures Grows(k, Extended(o, k, |m|, lo, hi))
  {
    var j := Extended(o, k, |m|, lo, hi);
    forall a | a in k.fw
      ensures a in j.fw && j.fw[a] == k.fw[a]
    {
      if OldForwarded(o, lo, hi, a) {
        ObjectFresh(o, k, lo, hi, a);
      }
    }
    assert forall n :: n in k.inv ==> !InCopy(|m|, lo, hi, n);
    assert forall n :: n in k.raw ==> !NewCell(o, |m|, lo, hi, n);
    assert forall n :: NewCell(o, |m|, lo, hi, n) ==> InCopy(|m|, lo, hi, n);
  }

  lemma ExtendedWhole(o: Old, k: Copy, n: int, lo: int, hi: int)
    requires WellFormed(o) && Whole(o, k) && Object(o, lo, hi) && lo !in k.fw
    ensures Whole(o, Extended(o, k, n, lo, hi))
  {
    var j := Extended(o, k, n, lo, hi);
    forall a | a in j.fw
      ensures Home(o, a) in j.done && Home(o, a) in j.fw
    {
      if OldForwarded(o, lo, hi, a) {
        ObjectFresh(o, k, lo, hi, a);
        assert OldForwarded(o, lo, hi, lo);
      }
    }
  }

  lemma AppendedConsistent(o: Old, k: Copy, m: Mem, t: Mem, lo: int, hi: int, first: int, loc: int)
    requires WellFormed(o) && Whole(o, k) && Object(o, lo, hi) && lo !in k.fw && Consistent(o, k, m)
    requires Appended(o, m, t, lo, hi, first) && loc in k.raw && LeadsTo(o, k.raw[loc], lo) && !ExternalObject(o, lo)
    ensures Consistent(o, Extended(o, k, |m|, lo, hi), t)
  {
    hide *;
    var j := Extended(o, k, |m|, lo, hi);
    AppendedBounds(o, k, m, t, lo, hi, first);
    forall n | n in j.raw && n in j.inv
      ensures Located(o, j, n)
    {
      AppendedLocated(o, k, m, t, lo, hi, first, n);
    }
    forall a | a in j.done
      ensures a in j.fw && Justified(o, j, a) && ObjectCopied(o, j, t, a)
    {
      AppendedJustified(o, k, m, lo, hi, loc, a);
      AppendedDone(o, k, m, t, lo, hi, first, a);
    }
    forall a | 0 <= a < |o.h|
      ensures OldWord(o, j, t, a)
    {
      AppendedOld(o, k, m, t, lo, hi, first, a);
    }
    forall a | a in j.fw
      ensures Placed(o, j, t, a)
    {
      AppendedPlaced(o, k, m, t, lo, hi, first, a);
    }
    forall n | n in j.raw
      ensures |o.h| <= n < |t| && WellTyped(o, j.raw[n])
    {
      AppendedRaw(o, k, m, t, lo, hi, first, n);
    }
    forall n | n in j.inv
      ensures |o.h| <= n < |t|
    {
      AppendedInv(o, k, m, t, lo, hi, first, n);
    }
    MakeConsistent(o, j, t);
  }

  lemma AppendedBounds(o: Old, k: Copy, m: Mem, t: Mem, lo: int, hi: int, first: int)
    requires Consistent(o, k, m) && Appended(o, m, t, lo, hi, first)
    ensures |o.h| <= |m| <= |t| && lo < hi
    ensures forall a :: 0 <= a < |o.h| ==> OldWord(o, k, m, a)
    ensures forall a :: a in Extended(o, k, |m|, lo, hi).done <==> a in k.done || a == lo
  {
  }

  lemma MakeConsistent(o: Old, k: Copy, m: Mem)
    requires |o.h| <= |m|
    requires forall n :: n in k.raw && n in k.inv ==> Located(o, k, n)
    requires forall a :: a in k.done ==> a in k.fw && Justified(o, k, a) && ObjectCopied(o, k, m, a)
    requires forall a :: 0 <= a < |o.h| ==> OldWord(o, k, m, a)
    requires forall a :: a in k.fw ==> Placed(o, k, m, a)
    requires forall n :: n in k.raw ==> |o.h| <= n < |m| && WellTyped(o, k.raw[n])
    requires forall n :: n in k.inv ==> |o.h| <= n < |m|
    ensures Consistent(o, k, m)
  {
  }

  lemma AppendedLocated(o: Old, k: Copy, m: Mem, t: Mem, lo: int, hi: int, first: int, n: int)
    requires WellFormed(o) && Whole(o, k) && Object(o, lo, hi) && lo !in k.fw && Consistent(o, k, m)
    requires Appended(o, m, t, lo, hi, first)
    requires n in Extended(o, k, |m|, lo, hi).raw && n in Extended(o, k, |m|, lo, hi).inv
    ensures Located(o, Extended(o, k, |m|, lo, hi), n)
  {
    var j := Extended(o, k, |m|, lo, hi);
    ExtendedGrows(o, k, m, lo, hi);
    assert OldForwarded(o, lo, hi, lo);
    if InCopy(|m|, lo, hi, n) {
      var c := Source(|m|, lo, n);
      ObjectFresh(o, k, lo, hi, c);
      assert NewCell(o, |m|, lo, hi, n);
    } else {
      assert !NewCell(o, |m|, lo, hi, n);
      assert Located(o, k, n);
    }
  }

  lemma AppendedJustified(o: Old, k: Copy, m: Mem, lo: int, hi: int, loc: int, a: int)
    requires WellFormed(o) && Whole(o, k) && Object(o, lo, hi) && lo !in k.fw && Consistent(o, k, m) && lo < hi
    requires loc in k.raw && LeadsTo(o, k.raw[loc], lo) && (a in k.done || a == lo) && !ExternalObject(o, lo)
    ensures a in Extended(o, k, |m|, lo, hi).fw && Justified(o, Extended(o, k, |m|, lo, hi), a)
  {
    var j := Extended(o, k, |m|, lo, hi);
    ExtendedGrows(o, k, m, lo, hi);
    assert OldForwarded(o, lo, hi, lo);
    hide LeadsTo, ExternalObject;
    if a == lo {
      assert loc in j.raw && loc < j.fw[lo] && LeadsTo(o, j.raw[loc], lo);
    } else {
      assert Justified(o, k, a);
      var n :| n in k.raw && n < k.fw[a] && LeadsTo(o, k.raw[n], a);
      assert n in j.raw && n < j.fw[a] && LeadsTo(o, j.raw[n], a);
    }
  }

  lemma AppendedOld(o: Old, k: Copy, m: Mem, t: Mem, lo: int, hi: int, first: int, a: int)
    requires WellFormed(o) && Whole(o, k) && Object(o, lo, hi) && lo !in k.fw && Appended(o, m, t, lo, hi, first)
    requires 0 <= a < |o.h| && OldWord(o, k, m, a)
    ensures OldWord(o, Extended(o, k, |m|, lo, hi), t, a)
  {
    if OldForwarded(o, lo, hi, a) {
      ObjectFresh(o, k, lo, hi, a);
    }
  }

  lemma AppendedRaw(o: Old, k: Copy, m: Mem, t: Mem, lo: int, hi: int, first: int, n: int)
    requires WellFormed(o) && Consistent(o, k, m) && Appended(o, m, t, lo, hi, first)
             && n in Extended(o, k, |m|, lo, hi).raw
    ensures |o.h| <= n < |t| && WellTyped(o, Extended(o, k, |m|, lo, hi).raw[n])
  {
    if NewCell(o, |m|, lo, hi, n) {
      assert WordOk(o, Source(|m|, lo, n));
    }
  }

  lemma AppendedInv(o: Old, k: Copy, m: Mem, t: Mem, lo: int, hi: int, first: int, n: int)
    requires Consistent(o, k, m) && Appended(o, m, t, lo, hi, first) && n in Extended(o, k, |m|, lo, hi).inv
    ensures |o.h| <= n < |t|
  {
    assert InCopy(|m|, lo, hi, n) ==> |m| <= n < |t|;
  }

  lemma AppendedPlaced(o: Old, k: Copy, m: Mem, t: Mem, lo: int, hi: int, first: int, a: int)
    requires WellFormed(o) && Whole(o, k) && Object(o, lo, hi) && lo !in k.fw && Consistent(o, k, m)
    requires Appended(o, m, t, lo, hi, first) && a in Extended(o, k, |m|, lo, hi).fw && !ExternalObject(o, lo)
    ensures Placed(o, Extended(o, k, |m|, lo, hi), t, a)
  {
    var j := Extended(o, k, |m|, lo, hi);
    ExtendedGrows(o, k, m, lo, hi);
    if OldForwarded(o, lo, hi, a) {
      NewPlaced(o, k, m, t, lo, hi, first, a);
    } else {
      assert Placed(o, k, m, a);
      assert forall q :: q in j.raw && q < |m| ==> !NewCell(o, |m|, lo, hi, q);
      OldPlaced(o, k, j, m, t, a);
    }
  }

  lemma AppendedDone(o: Old, k: Copy, m: Mem, t: Mem, lo: int, hi: int, first: int, a: int)
    requires WellFormed(o) && Whole(o, k) && Object(o, lo, hi) && lo !in k.fw && Consistent(o, k, m)
    requires Appended(o, m, t, lo, hi, first) && (a in k.done || a == lo)
    ensures a in Extended(o, k, |m|, lo, hi).fw && ObjectCopied(o, Extended(o, k, |m|, lo, hi), t, a)
  {
    var j := Extended(o, k, |m|, lo, hi);
    ExtendedGrows(o, k, m, lo, hi);
    if a == lo {
      assert OldForwarded(o, lo, hi, lo);
      forall c, e | Object(o, a, e) && a <= c < e && 0 <= c < |o.h|
        ensures WordCopied(o, j, t, a, c)
      {
        ObjectUnique(o, lo, hi, e);
        NewWordCopied(o, k, m, t, lo, hi, first, c);
      }
    } else {
      assert Placed(o, k, m, a) && ObjectCopied(o, k, m, a);
      forall c, e | Object(o, a, e) && a <= c < e && 0 <= c < |o.h|
        ensures WordCopied(o, j, t, a, c)
      {
        assert WordCopied(o, k, m, a, c);
        OldWordCopied(o, k, j, m, t, a, c);
      }
    }
  }

  lemma ObjectUnique(o: Old, lo: int, hi: int, e: int)
    requires WellFormed(o) && Object(o, lo, hi) && Object(o, lo, e)
    ensures e == hi
  {
    if IsPair(o, lo) {
      assert PairOk(o, lo);
    }
  }

  lemma NewPlaced(o: Old, k: Copy, m: Mem, t: Mem, lo: int, hi: int, first: int, a: int)
    requires Consistent(o, k, m) && Appended(o, m, t, lo, hi, first) && OldForwarded(o, lo, hi, a)
    requires Object(o, lo, hi) && !ExternalObject(o, lo)
    ensures a in Extended(o, k, |m|, lo, hi).fw && Placed(o, Extended(o, k, |m|, lo, hi), t, a)
  {
    var j, q := Extended(o, k, |m|, lo, hi), |m| + (a - lo);
    assert Source(|m|, lo, q) == a;
    assert InCopy(|m|, lo, hi, q);
    if IsCell(o, a) {
      assert NewCell(o, |m|, lo, hi, q);
    } else {
      assert !NewCell(o, |m|, lo, hi, q);
    }
  }

  lemma NewWordCopied(o: Old, k: Copy, m: Mem, t: Mem, lo: int, hi: int, first: int, c: int)
    requires WellFormed(o) && Appended(o, m, t, lo, hi, first) && lo <= c < hi && 0 <= c < |o.h|
    ensures WordCopied(o, Extended(o, k, |m|, lo, hi), t, lo, c)
  {
    var j, q := Extended(o, k, |m|, lo, hi), |m| + (c - lo);
    assert WordOk(o, c);
    assert OldForwarded(o, lo, hi, lo) && To(j, lo) == |m|;
    assert Source(|m|, lo, q) == c;
    assert t[q] == NewWord(o, |m|, lo, q, first);
    assert InCopy(|m|, lo, hi, q);
    if o.h[c].Cell? {
      assert NewCell(o, |m|, lo, hi, q);
    }
    if Forwarded(o, lo, c) {
      assert OldForwarded(o, lo, hi, c);
    }
  }

  lemma OldPlaced(o: Old, k: Copy, j: Copy, m: Mem, t: Mem, a: int)
    requires a in k.fw && Placed(o, k, m, a) && Grows(k, j) && |m| <= |t|
    requires forall q :: q in j.raw && q < |m| ==> q in k.raw
    ensures a in j.fw && Placed(o, j, t, a)
  {
  }

  lemma OldWordCopied(o: Old, k: Copy, j: Copy, m: Mem, t: Mem, a: int, c: int)
    requires a in k.fw && |o.h| <= k.fw[a] && 0 <= c < |o.h| && a <= c && WordCopied(o, k, m, a, c) && Grows(k, j)
    requires |m| <= |t| && forall q :: |o.h| <= q < |m| ==> t[q] == m[q]
    ensures WordCopied(o, j, t, a, c)
  {
  }

  // ------------------------------------------------ copying a variable

  /** The copy with the unbound variable c placed at n. */
  function WithVar(k: Copy, c: int, n: int): Copy {
    Copy(k.fw[c := n], k.inv[n := c], k.raw[n := Unb], k.done)
  }

  lemma VarGrows(o: Old, k: Copy, m: Mem, c: int)
    requires Consistent(o, k, m) && c !in k.fw
    ensures Grows(k, WithVar(k, c, |m|))
  {
  }

  /** A variable of its own at the end of memory, the old one forwarded to it. */
  lemma VarConsistent(o: Old, k: Copy, m: Mem, c: int)
    requires WellFormed(o) && Consistent(o, k, m) && c !in k.fw && Local(o, c)
    ensures Consistent(o, WithVar(k, c, |m|), (m + [Cell(Unb, false)])[c := Fwd(|m|)])
  {
    var j, t := WithVar(k, c, |m|), (m + [Cell(Unb, false)])[c := Fwd(|m|)];
    VarGrows(o, k, m, c);
    hide LeadsTo;
    forall n | n in j.raw && n in j.inv
      ensures Located(o, j, n)
    {
      if n != |m| {
        assert Located(o, k, n);
      }
    }
    forall a | a in j.done
      ensures a in j.fw && Justified(o, j, a)
    {
      assert Justified(o, k, a);
      var n :| n in k.raw && n < k.fw[a] && LeadsTo(o, k.raw[n], a);
      assert n in j.raw && n < j.fw[a] && LeadsTo(o, j.raw[n], a);
    }
    forall a | 0 <= a < |o.h|
      ensures OldWord(o, j, t, a)
    {
      assert OldWord(o, k, m, a);
    }
    forall a | a in j.fw
      ensures Placed(o, j, t, a)
    {
      if a != c {
        assert Placed(o, k, m, a);
        OldPlaced(o, k, j, m, t, a);
      }
    }
    forall a | a in j.done
      ensures a in j.fw && ObjectCopied(o, j, t, a)
    {
      assert Placed(o, k, m, a) && ObjectCopied(o, k, m, a);
      forall d, e | Object(o, a, e) && a <= d < e && 0 <= d < |o.h|
        ensures WordCopied(o, j, t, a, d)
      {
        assert WordCopied(o, k, m, a, d);
        OldWordCopied(o, k, j, m, t, a, d);
      }
    }
  }

  lemma {:induction false} DerefRank(o: Old, t: Term)
    requires WellFormed(o) && WellTyped(o, t)
    ensures TermRank(o, Deref(o, t)) <= TermRank(o, t)
    decreases if TermRank(o, t) > 0 then TermRank(o, t) else 0
  {
    if t.Ref? {
      DerefStep(o, t.a);
      if Was(o, t.a) != Unb {
        DerefRank(o, Was(o, t.a));
      }
    }
  }

  // ------------------------------------------------ the saved words

  /** An entry of the stack of words overwritten by forwarding pointers. */
  datatype Zapped = Zapped(loc: int, word: Word)

  ghost function Locs(trm: seq<Zapped>): set<int> {
    if trm == [] then {} else Locs(trm[..|trm| - 1]) + {trm[|trm| - 1].loc}
  }

  /** Every entry holds the old word. */
  ghost predicate Intact(o: Old, trm: seq<Zapped>) {
    forall i :: 0 <= i < |trm| ==> 0 <= trm[i].loc < |o.h| && trm[i].word == o.h[trm[i].loc]
  }

  lemma LocsPush(trm: seq<Zapped>, e: Zapped)
    ensures Locs(trm + [e]) == Locs(trm) + {e.loc}
  {
    assert (trm + [e])[..|trm + [e]| - 1] == trm;
  }

  /** Exactly the forwarded words are saved. */
  ghost predicate Kept(o: Old, k: Copy, trm: seq<Zapped>) {
    Locs(trm) == k.fw.Keys && Intact(o, trm)
  }

  lemma ExtendedKeys(o: Old, k: Copy, n: int, lo: int, hi: int)
    ensures Extended(o, k, n, lo, hi).fw.Keys == k.fw.Keys + Keys(o, lo, hi)
  {
  }

  ghost function Keys(o: Old, lo: int, hi: int): (s: set<int>)
    ensures forall c :: c in s <==> OldForwarded(o, lo, hi, c)
  {
    set c | lo <= c < hi && OldForwarded(o, lo, hi, c)
  }
}
