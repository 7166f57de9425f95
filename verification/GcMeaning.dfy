/** What a finished collection means: the copy is the old graph under another
    name for every address. */
module GcMeaning {
  import opened GcHeap
  import opened GcScan
  import opened GcCollect

  /** The contents of a cell in new space. */
  function Now(o: Old, m: Mem, n: int): Term {
    if |o.h| <= n < |m| && m[n].Cell? then m[n].t else Unb
  }

  function NewRank(o: Old, k: Copy, t: Term): int {
    if t.Ref? then Rank(o, From(k, t.a)) + 1 else 0
  }

  /** Follows references in new space. */
  function NewDeref(o: Old, k: Copy, m: Mem, t: Term): Term
    decreases if NewRank(o, k, t) > 0 then NewRank(o, k, t) else 0
  {
    if t.Ref? && Now(o, m, t.a) != Unb && NewRank(o, k, Now(o, m, t.a)) < NewRank(o, k, t) && NewRank(o, k, t) > 0
    then NewDeref(o, k, m, Now(o, m, t.a)) else t
  }

  /** A dereferenced old term under its new name; what is external keeps its
      own. */
  ghost function Renamed(o: Old, k: Copy, t: Term): Term {
    match t
    case Imm(_) => t
    case Unb => t
    case Ref(c) => if External(o, c) then t else Ref(To(k, c))
    case Lst(a) => if ExternalObject(o, a) then t else Lst(To(k, a))
    case Str(a) => if ExternalObject(o, a) then t else Str(To(k, a))
  }

  /** A reference to a copied cell leads where the old cell leads. */
  lemma {:induction false} CellMeaning(o: Old, k: Copy, m: Mem, c: int)
    requires WellFormed(o) && Consistent(o, k, m) && Settled(o, k, m) && c in k.fw && IsCell(o, c)
    ensures NewDeref(o, k, m, Ref(k.fw[c])) == Renamed(o, k, Deref(o, Ref(c)))
    decreases Rank(o, c), 1
  {
    var n := k.fw[c];
    assert Placed(o, k, m, c) && WordOk(o, c);
    assert SettledAt(o, k, m, n);
    DerefStep(o, c);
    hide Deref, WellFormed, Consistent, Settled;
    if Was(o, c) == Unb {
      UnbSettled(o, k, m, n);
      NewStop(o, k, m, Ref(n));
    } else {
      BoundSettled(o, k, m, n);
      LinkMeaning(o, k, m, n);
      NewStep(o, k, m, n);
    }
  }

  /** What a settled location leads to. */
  lemma {:induction false} LinkMeaning(o: Old, k: Copy, m: Mem, n: int)
    requires WellFormed(o) && Consistent(o, k, m) && Settled(o, k, m) && n in k.raw && k.raw[n] != Unb
    ensures NewDeref(o, k, m, m[n].t) == Renamed(o, k, Deref(o, k.raw[n])) && m[n].t != Unb
    ensures NewRank(o, k, m[n].t) <= TermRank(o, k.raw[n])
    decreases TermRank(o, k.raw[n]), 0
  {
    assert SettledAt(o, k, m, n);
    assert WellTyped(o, k.raw[n]);
    var u := m[n].t;
    hide Deref, WellFormed, Consistent, Settled;
    match u
    case Ref(x) =>
      if x < |o.h| {
        NewStop(o, k, m, u);
        StillRef(o, k, m, k.raw[n], x);
      } else {
        RankNonNeg(o, From(k, x));
        CellMeaning(o, k, m, From(k, x));
      }
    case Imm(_) => NewStop(o, k, m, u);
    case Lst(x) =>
      NewStop(o, k, m, u);
      InDone(o, k, m, From(k, x));
    case Str(x) =>
      NewStop(o, k, m, u);
      InDone(o, k, m, From(k, x));
  }

  /** A copied object is not external, and neither is a copied variable. */
  lemma InDone(o: Old, k: Copy, m: Mem, a: int)
    requires Consistent(o, k, m)
    ensures a in k.done ==> !ExternalObject(o, a) && a in k.fw
    ensures a in k.fw ==> !External(o, a)
  {
    assert a in k.done ==> Justified(o, k, a);
    assert a in k.fw ==> Placed(o, k, m, a);
  }

  /** A reference left to an external variable. */
  lemma StillRef(o: Old, k: Copy, m: Mem, t: Term, x: int)
    requires WellFormed(o) && Consistent(o, k, m) && Image(o, k, t, Ref(x)) && x < |o.h| && WellTyped(o, t)
    ensures From(k, x) == ROOT && TermRank(o, t) >= 1
  {
    DerefRank(o, t);
    assert WordOk(o, x);
  }

  lemma RankNonNeg(o: Old, c: int)
    requires WellFormed(o) && IsCell(o, c)
    ensures Rank(o, c) >= 0
  {
    assert WordOk(o, c);
  }

  lemma UnbSettled(o: Old, k: Copy, m: Mem, n: int)
    requires n in k.raw && k.raw[n] == Unb && SettledAt(o, k, m, n)
    ensures m[n].t == Unb
  {
    assert Deref(o, Unb) == Unb;
  }

  lemma BoundSettled(o: Old, k: Copy, m: Mem, n: int)
    requires n in k.raw && k.raw[n] != Unb && SettledAt(o, k, m, n)
    ensures m[n].t != Unb
  {
    hide Deref;
  }

  lemma NewStop(o: Old, k: Copy, m: Mem, t: Term)
    requires t.Ref? ==> Now(o, m, t.a) == Unb
    ensures NewDeref(o, k, m, t) == t
  {
  }

  lemma NewStep(o: Old, k: Copy, m: Mem, n: int)
    requires Now(o, m, n) != Unb && NewRank(o, k, Now(o, m, n)) < NewRank(o, k, Ref(n)) && NewRank(o, k, Ref(n)) > 0
    ensures NewDeref(o, k, m, Ref(n)) == NewDeref(o, k, m, Now(o, m, n))
  {
  }

  // ------------------------------------------------ the copied graph

  /** What the location q holds for the old term t: an unbound variable for one,
      otherwise something that leads where t led, under the new name; and what
      it leads to has been copied. */
  ghost predicate Means(o: Old, k: Copy, m: Mem, q: int, t: Term) {
    && |o.h| <= q < |m| && m[q].Cell? && !m[q].mark
    && (t == Unb ==> m[q].t == Unb)
    && (t != Unb ==> NewDeref(o, k, m, m[q].t) == Renamed(o, k, Deref(o, t)) && Covered(o, k, Deref(o, t)))
  }

  ghost predicate Covered(o: Old, k: Copy, t: Term) {
    match t
    case Imm(_) => true
    case Unb => true
    case Ref(c) => External(o, c) != (c in k.fw) && Was(o, c) == Unb
    case Lst(a) => ExternalObject(o, a) != (a in k.fw && a in k.done)
    case Str(a) => ExternalObject(o, a) != (a in k.fw && a in k.done)
  }

  lemma {:induction false} SettledCovered(o: Old, k: Copy, m: Mem, n: int)
    requires WellFormed(o) && Consistent(o, k, m) && Settled(o, k, m) && n in k.raw && k.raw[n] != Unb
    ensures Covered(o, k, Deref(o, k.raw[n]))
    decreases TermRank(o, k.raw[n])
  {
    assert SettledAt(o, k, m, n);
    var u := m[n].t;
    hide Deref, WellFormed, Consistent, Settled;
    match u
    case Ref(x) =>
      if x < |o.h| {
        InDone(o, k, m, x);
      } else {
        var c := From(k, x);
        RankNonNeg(o, c);
        CellCovered(o, k, m, c);
        if Was(o, c) != Unb {
          SettledCovered(o, k, m, k.fw[c]);
        }
        InDone(o, k, m, c);
        DerefStep(o, c);
      }
    case Imm(_) =>
    case Lst(x) =>
      InDone(o, k, m, if x < |o.h| then x else From(k, x));
    case Str(x) =>
      InDone(o, k, m, if x < |o.h| then x else From(k, x));
    case Unb =>
  }

  lemma CellCovered(o: Old, k: Copy, m: Mem, c: int)
    requires WellFormed(o) && Consistent(o, k, m) && c in k.fw && IsCell(o, c)
    ensures k.fw[c] in k.raw && k.raw[k.fw[c]] == Was(o, c) && TermRank(o, Was(o, c)) <= Rank(o, c)
  {
    assert Placed(o, k, m, c) && WordOk(o, c);
  }

  lemma SettledMeans(o: Old, k: Copy, m: Mem, n: int)
    requires WellFormed(o) && Consistent(o, k, m) && Settled(o, k, m) && n in k.raw
    ensures Means(o, k, m, n, k.raw[n])
  {
    assert SettledAt(o, k, m, n);
    assert |o.h| <= n < |m|;
    hide WellFormed, Consistent, Settled, Deref, Covered, NewDeref;
    if k.raw[n] == Unb {
      UnbSettled(o, k, m, n);
    } else {
      LinkMeaning(o, k, m, n);
      SettledCovered(o, k, m, n);
    }
  }

  /** The object at lo has a copy of the same shape whose words mean what the
      old ones did; its unbound variables are the copies of the old ones. */
  ghost predicate SameObject(o: Old, k: Copy, m: Mem, lo: int, hi: int) {
    && lo in k.fw
    && (IsStruct(o, lo) ==> |o.h| <= k.fw[lo] < |m| && m[k.fw[lo]] == o.h[lo])
    && (forall c :: lo <= c < hi && IsCell(o, c) ==>
          Means(o, k, m, k.fw[lo] + (c - lo), Was(o, c)) &&
          (Was(o, c) == Unb ==> c in k.fw && k.fw[c] == k.fw[lo] + (c - lo)))
  }

  lemma DoneSame(o: Old, k: Copy, m: Mem, lo: int, hi: int)
    requires WellFormed(o) && Consistent(o, k, m) && Settled(o, k, m) && lo in k.done && Object(o, lo, hi)
    ensures SameObject(o, k, m, lo, hi)
  {
    hide *;
    CopiedFacts(o, k, m, lo, hi);
    forall c | lo <= c < hi && IsCell(o, c)
      ensures SameCell(o, k, m, lo, c)
    {
      CellSame(o, k, m, lo, c);
    }
    MakeSame(o, k, m, lo, hi);
  }

  /** The copy of one cell of an object. */
  ghost predicate SameCell(o: Old, k: Copy, m: Mem, lo: int, c: int) {
    lo in k.fw && Means(o, k, m, k.fw[lo] + (c - lo), Was(o, c)) &&
    (Was(o, c) == Unb ==> c in k.fw && k.fw[c] == k.fw[lo] + (c - lo))
  }

  lemma CopiedFacts(o: Old, k: Copy, m: Mem, lo: int, hi: int)
    requires WellFormed(o) && Consistent(o, k, m) && lo in k.done && Object(o, lo, hi)
    ensures lo in k.fw && (IsStruct(o, lo) ==> |o.h| <= k.fw[lo] < |m| && m[k.fw[lo]] == o.h[lo])
    ensures forall c :: lo <= c < hi && IsCell(o, c) ==> CellCopied(o, k, m, lo, c)
  {
    assert ObjectCopied(o, k, m, lo) && Placed(o, k, m, lo);
    hide Consistent, WordCopied, Placed;
    forall c | lo <= c < hi && IsCell(o, c)
      ensures CellCopied(o, k, m, lo, c)
    {
      assert WordCopied(o, k, m, lo, c);
      OneCopied(o, k, m, lo, c);
    }
    if IsStruct(o, lo) {
      assert StructOk(o, lo);
      assert WordCopied(o, k, m, lo, lo);
      HeadCopied(o, k, m, lo);
    }
  }

  ghost predicate CellCopied(o: Old, k: Copy, m: Mem, lo: int, c: int) {
    && lo in k.fw && k.fw[lo] + (c - lo) in k.raw && k.raw[k.fw[lo] + (c - lo)] == Was(o, c)
    && (Was(o, c) == Unb ==> c in k.fw && k.fw[c] == k.fw[lo] + (c - lo))
  }

  lemma OneCopied(o: Old, k: Copy, m: Mem, lo: int, c: int)
    requires IsCell(o, c) && lo in k.fw && WordCopied(o, k, m, lo, c)
    ensures CellCopied(o, k, m, lo, c)
  {
  }

  lemma HeadCopied(o: Old, k: Copy, m: Mem, lo: int)
    requires IsStruct(o, lo) && lo in k.fw && Placed(o, k, m, lo) && WordCopied(o, k, m, lo, lo)
    ensures |o.h| <= k.fw[lo] < |m| && m[k.fw[lo]] == o.h[lo]
  {
  }

  lemma CellSame(o: Old, k: Copy, m: Mem, lo: int, c: int)
    requires WellFormed(o) && Consistent(o, k, m) && Settled(o, k, m) && CellCopied(o, k, m, lo, c)
    ensures SameCell(o, k, m, lo, c)
  {
    hide WellFormed, Consistent, Settled, Means;
    SettledMeans(o, k, m, k.fw[lo] + (c - lo));
  }

  lemma MakeSame(o: Old, k: Copy, m: Mem, lo: int, hi: int)
    requires lo in k.fw && (IsStruct(o, lo) ==> |o.h| <= k.fw[lo] < |m| && m[k.fw[lo]] == o.h[lo])
    requires forall c :: lo <= c < hi && IsCell(o, c) ==> SameCell(o, k, m, lo, c)
    ensures SameObject(o, k, m, lo, hi)
  {
    hide Means;
    assert forall c :: lo <= c < hi && IsCell(o, c) ==> SameCell(o, k, m, lo, c);
  }

  /** The object at a can be reached from the roots in d steps. */
  ghost predicate Reached(o: Old, roots: seq<Term>, a: int, d: nat)
    decreases d
  {
    if d == 0 then exists i :: 0 <= i < |roots| && LeadsTo(o, roots[i], a)
    else exists c :: IsCell(o, c) && LeadsTo(o, Was(o, c), a) && Reached(o, roots, Home(o, c), d - 1)
  }

  /** The locations that are no copies are the roots. */
  ghost predicate RootsOnly(k: Copy, loc: int, roots: seq<Term>) {
    && (forall n :: n in k.raw && n !in k.inv ==> loc <= n < loc + |roots|)
    && (forall n :: loc <= n < loc + |roots| ==> n in k.raw && k.raw[n] == roots[n - loc])
  }

  /** Nothing but what can be reached is copied. */
  lemma {:induction false} OnlyReached(o: Old, k: Copy, m: Mem, loc: int, roots: seq<Term>, a: int)
    requires WellFormed(o) && Consistent(o, k, m) && RootsOnly(k, loc, roots) && a in k.done
    ensures exists d: nat :: Reached(o, roots, a, d)
    decreases k.fw[a]
  {
    assert Justified(o, k, a) && Placed(o, k, m, a);
    hide WellFormed, Consistent, LeadsTo, Deref;
    var n :| n in k.raw && n < k.fw[a] && LeadsTo(o, k.raw[n], a);
    if n in k.inv {
      LocatedAt(o, k, m, n);
      var c := k.inv[n];
      UnbLeads(o, a);
      var b := Home(o, c);
      OnlyReached(o, k, m, loc, roots, b);
      var d: nat :| Reached(o, roots, b, d);
      assert Reached(o, roots, a, d + 1);
    } else {
      assert roots[n - loc] == k.raw[n];
      assert Reached(o, roots, a, 0);
    }
  }

  lemma LocatedAt(o: Old, k: Copy, m: Mem, n: int)
    requires Consistent(o, k, m) && n in k.raw && n in k.inv
    ensures Located(o, k, n)
    ensures k.raw[n] != Unb ==> Home(o, k.inv[n]) in k.fw && 0 <= k.fw[Home(o, k.inv[n])] <= n
  {
    assert Located(o, k, n);
    if k.raw[n] != Unb {
      assert Placed(o, k, m, Home(o, k.inv[n]));
    }
  }

  lemma UnbLeads(o: Old, a: int)
    ensures !LeadsTo(o, Unb, a)
  {
  }

  /** The copy is an isomorphism: the roots mean what they meant, every object
      is copied once with the same shape, constants and sharing, only reachable
      objects are copied and nothing external is, and distinct words have
      distinct copies. */
  ghost predicate Isomorphic(o: Old, k: Copy, m: Mem, loc: int, roots: seq<Term>) {
    && (forall i :: 0 <= i < |roots| ==> Means(o, k, m, loc + i, roots[i]))
    && (forall lo, hi :: lo in k.done && Object(o, lo, hi) ==> SameObject(o, k, m, lo, hi))
    && (forall a :: a in k.done ==> !ExternalObject(o, a) && exists d: nat :: Reached(o, roots, a, d))
    && (forall c :: c in k.fw ==> !External(o, c))
    && (forall a, b :: a in k.fw && b in k.fw && k.fw[a] == k.fw[b] ==> a == b)
  }

  lemma CollectedIsomorphic(o: Old, k: Copy, m: Mem, loc: int, roots: seq<Term>)
    requires WellFormed(o) && Consistent(o, k, m) && Settled(o, k, m) && RootsOnly(k, loc, roots)
    ensures Isomorphic(o, k, m, loc, roots)
  {
    forall a, b | a in k.fw && b in k.fw && k.fw[a] == k.fw[b]
      ensures a == b
    {
      assert Placed(o, k, m, a) && Placed(o, k, m, b);
    }
    hide WellFormed, Consistent, Settled, Means, Object, SameObject, Reached, External, ExternalObject;
    forall c | c in k.fw
      ensures !External(o, c)
    {
      InDone(o, k, m, c);
    }
    forall i | 0 <= i < |roots|
      ensures Means(o, k, m, loc + i, roots[i])
    {
      SettledMeans(o, k, m, loc + i);
    }
    forall lo, hi | lo in k.done && Object(o, lo, hi)
      ensures SameObject(o, k, m, lo, hi)
    {
      DoneSame(o, k, m, lo, hi);
    }
    forall a | a in k.done
      ensures !ExternalObject(o, a) && exists d: nat :: Reached(o, roots, a, d)
    {
      InDone(o, k, m, a);
      OnlyReached(o, k, m, loc, roots, a);
    }
  }

  // ------------------------------------------------ a whole collection

  /** A block of roots behind old space, holding well-typed old terms. */
  ghost predicate Fresh(o: Old, m: Mem, roots: seq<Term>) {
    && WellFormed(o) && |m| == |o.h| + |roots|
    && (forall a :: 0 <= a < |o.h| ==> m[a] == o.h[a])
    && (forall n :: |o.h| <= n < |m| ==> m[n] == Cell(roots[n - |o.h|], false))
    && (forall i :: 0 <= i < |roots| ==> WellTyped(o, roots[i]))
  }

  predicate IsRoot(o: Old, roots: seq<Term>, n: int) {
    |o.h| <= n < |o.h| + |roots|
  }

  /** Nothing is copied yet; the roots are to be. */
  ghost function Begin(o: Old, roots: seq<Term>): (k: Copy)
    ensures k.fw == map[] && k.inv == map[] && k.done == {}
    ensures forall n :: n in k.raw <==> |o.h| <= n < |o.h| + |roots|
    ensures forall n :: n in k.raw ==> k.raw[n] == roots[n - |o.h|]
  {
    Copy(map[], map[], map n | |o.h| <= n < |o.h| + |roots| && IsRoot(o, roots, n) :: roots[n - |o.h|], {})
  }

  lemma BeginReady(v: Scavenger, roots: seq<Term>)
    requires Fresh(v.o, v.mem, roots) && v.saved == [] && v.trm == [] && v.k == Begin(v.o, roots) && v.Mode()
    ensures v.Ready(|v.o.h|, |roots|) && v.Zapping()
  {
  }

  /** A run of the scavenger: the roots are scanned, then the reference stack. */
  method Scavenge(v: Scavenger, loc: int, count: int, ghost roots: seq<Term>)
    requires Fresh(v.o, v.mem, roots) && v.saved == [] && v.trm == [] && v.k == Begin(v.o, roots) && v.Mode()
    requires loc == |v.o.h| && count == |roots|
    modifies v
    ensures Isomorphic(v.o, v.k, v.mem, loc, roots) && v.Heap() && v.Zapping()
  {
    hide *;
    BeginReady(v, roots);
    v.GcLocations(loc, count);
    ghost var k1 := v.k;
    v.GcSavedRefs();
    GrowsTwice(Begin(v.o, roots), k1, v.k);
    BeginRoots(v.o, v.k, roots);
    HeapIs(v);
    CollectedIsomorphic(v.o, v.k, v.mem, loc, roots);
  }

  /** One collection: nothing is external, and old space is given up. */
  method Collect(ghost o: Old, mem: Mem, loc: int, count: int, ghost roots: seq<Term>) returns (m: Mem, ghost k: Copy)
    requires Fresh(o, mem, roots) && loc == |o.h| && count == |roots| && o.ext == seq(loc, i => false)
    ensures Isomorphic(o, k, m, loc, roots)
  {
    hide Fresh, Isomorphic, Begin;
    var v := new Scavenger(o, false, seq(loc, i => false), mem, Begin(o, roots));
    Scavenge(v, loc, count, roots);
    m, k := v.mem, v.k;
  }

  /** One copy: the copied terms mean what the old ones do, external variables
      are shared, and afterwards every old word is again what it was. */
  method CopyTerms(ghost o: Old, ext: seq<bool>, mem: Mem, loc: int, count: int, ghost roots: seq<Term>)
    returns (m: Mem, ghost k: Copy)
    requires Fresh(o, mem, roots) && loc == |o.h| && count == |roots| && ext == o.ext
    ensures Isomorphic(o, k, m, loc, roots)
    ensures |o.h| <= |m| && m[..|o.h|] == o.h
  {
    hide *;
    var v := new Scavenger(o, true, ext, mem, Begin(o, roots));
    CopyMode(v);
    Scavenge(v, loc, count, roots);
    ghost var m1 := v.mem;
    HeapIs(v);
    v.ResetTrm();
    m, k := v.mem, v.k;
    SpaceBack(o, k, m1, m, loc, roots);
  }

  /** What new space means does not depend on old space. */
  ghost predicate SameNew(o: Old, m: Mem, t: Mem) {
    |o.h| <= |m| == |t| && forall n :: |o.h| <= n < |m| ==> t[n] == m[n]
  }

  lemma {:induction false} DerefSame(o: Old, k: Copy, m: Mem, w: Mem, t: Term)
    requires SameNew(o, m, w)
    ensures NewDeref(o, k, m, t) == NewDeref(o, k, w, t)
    decreases if NewRank(o, k, t) > 0 then NewRank(o, k, t) else 0
  {
    if t.Ref? {
      assert Now(o, m, t.a) == Now(o, w, t.a);
      if Now(o, m, t.a) != Unb && NewRank(o, k, Now(o, m, t.a)) < NewRank(o, k, t) && NewRank(o, k, t) > 0 {
        DerefSame(o, k, m, w, Now(o, m, t.a));
      }
    }
  }

  lemma MeansSame(o: Old, k: Copy, m: Mem, w: Mem, q: int, t: Term)
    requires SameNew(o, m, w) && Means(o, k, m, q, t)
    ensures Means(o, k, w, q, t)
  {
    DerefSame(o, k, m, w, m[q].t);
    hide Deref, NewDeref, Covered, Renamed;
  }

  lemma SpaceBack(o: Old, k: Copy, m: Mem, w: Mem, loc: int, roots: seq<Term>)
    requires Isomorphic(o, k, m, loc, roots) && |o.h| <= |m| == |w|
    requires forall n :: |o.h| <= n < |w| ==> w[n] == m[n]
    requires forall a :: 0 <= a < |o.h| ==> w[a] == o.h[a]
    ensures Isomorphic(o, k, w, loc, roots) && w[..|o.h|] == o.h
  {
    hide Means, Object, Reached, External, ExternalObject;
    forall i | 0 <= i < |roots|
      ensures Means(o, k, w, loc + i, roots[i])
    {
      MeansSame(o, k, m, w, loc + i, roots[i]);
    }
    forall lo, hi | lo in k.done && Object(o, lo, hi)
      ensures SameObject(o, k, w, lo, hi)
    {
      assert SameObject(o, k, m, lo, hi);
      forall c | lo <= c < hi && IsCell(o, c)
        ensures Means(o, k, w, k.fw[lo] + (c - lo), Was(o, c))
      {
        MeansSame(o, k, m, w, k.fw[lo] + (c - lo), Was(o, c));
      }
    }
  }

  lemma CopyMode(v: Scavenger)
    requires v.ext == v.o.ext && v.saving
    ensures v.Mode()
  {
  }

  lemma HeapIs(v: Scavenger)
    requires v.Heap()
    ensures WellFormed(v.o) && Consistent(v.o, v.k, v.mem) && |v.o.h| <= |v.mem|
  {
  }

  lemma BeginRoots(o: Old, k: Copy, roots: seq<Term>)
    requires Grows(Begin(o, roots), k)
    ensures RootsOnly(k, |o.h|, roots)
  {
  }
}
