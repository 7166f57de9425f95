/** The imperative part of the collector and of the copier: copying objects,
    scanning, the pass over the reference stack, and, for the copier, putting
    the forwarded words back. */
module GcCollect {
  import opened GcHeap
  import opened GcScan

  class Scavenger {
    ghost const o: Old
    /** The copier saves every word it forwards; the collector does not. */
    const saving: bool
    /** Which variables are external: none for the collector. */
    const ext: seq<bool>
    var mem: Mem
    /** The reference stack: locations whose variable is still the old one. */
    var saved: seq<int>
    /** The stack of saved words. */
    var trm: seq<Zapped>
    ghost var k: Copy

    constructor (ghost o: Old, saving: bool, ext: seq<bool>, mem: Mem, ghost k: Copy)
      ensures this.o == o && this.mem == mem && saved == [] && trm == [] && this.k == k
      ensures this.saving == saving && this.ext == ext
    {
      this.o, this.saving, this.ext, this.mem, this.k := o, saving, ext, mem, k;
      saved, trm := [], [];
    }

    /** What is fixed for one run. */
    ghost predicate Mode() {
      ext == o.ext && (!saving ==> forall c :: !External(o, c))
    }

    /** The saved words are those forwarded. */
    ghost predicate Zapping()
      reads this`k, this`trm
    {
      Mode() && if saving then Kept(o, k, trm) else trm == []
    }

    ghost predicate Heap()
      reads this`mem, this`k
    {
      WellFormed(o) && Consistent(o, k, mem)
    }

    lemma OldIs(c: int)
      requires Heap() && 0 <= c < |o.h|
      ensures c < |mem| && mem[c] == (if c in k.fw then Fwd(k.fw[c]) else o.h[c])
      ensures c in k.fw ==> Stands(k, k.fw[c], c) && |o.h| <= k.fw[c]
      ensures !o.h[c].Fwd?
    {
      assert WordOk(o, c);
      assert OldWord(o, k, mem, c);
      assert c in k.fw ==> Placed(o, k, mem, c);
    }

    /** Follows references until a forwarded cell, an unbound one, or a term
        that is no reference. */
    method Resolve(t0: Term) returns (found: bool, u: Term, defer: bool)
      requires Heap() && Mode() && WellTyped(o, t0)
      ensures found ==>
              u.Ref? && Image(o, k, t0, u) && (defer <==> u.a < |o.h| && !External(o, u.a)) && (defer ==> 0 <= u.a)
      ensures !found ==> !u.Ref? && !defer && Deref(o, t0) == u && WellTyped(o, u) && (u == Unb ==> t0 == Unb)
    {
      ExtLength();
      hide Deref, WellFormed, Consistent;
      u := t0;
      while u.Ref?
        invariant WellTyped(o, u) && Deref(o, u) == Deref(o, t0) && TermRank(o, u) <= TermRank(o, t0)
        invariant u == Unb ==> t0 == Unb
        decreases TermRank(o, u)
      {
        var r := u.a;
        OldIs(r);
        DerefStep(o, r);
        match mem[r] {
          case Fwd(n) =>
            return true, Ref(n), false;
          case Cell(x, _) =>
            if x == Unb {
              return true, u, !ext[r];
            }
            u := x;
        }
      }
      NoRefDeref(u);
      return false, u, false;
    }

    lemma NoRefDeref(u: Term)
      requires !u.Ref?
      ensures Deref(o, u) == u
    {
    }

    /** Forwards the old word a to n; the copier saves it first (SaveTRM). */
    method LinkWord(a: int, n: int)
      requires 0 <= a < |mem|
      modifies this`mem, this`trm
      ensures mem == old(mem)[a := Fwd(n)]
      ensures trm == if saving then old(trm) + [Zapped(a, old(mem)[a])] else old(trm)
    {
      if saving {
        trm := trm + [Zapped(a, mem[a])];
      }
      mem := mem[a := Fwd(n)];
    }

    /** Copies a list cell to the end of memory. If one of its words is an
        external variable, the copy is taken back. */
    method CopyPair(a: int) returns (ok: bool)
      requires Heap() && Whole(o, k) && Mode() && IsPair(o, a) && a !in k.fw
      modifies this`mem, this`trm
      ensures ok ==> Appended(o, old(mem), mem, a, a + 2, |old(mem)|) && !ExternalObject(o, a)
      ensures ok ==>
              Locs(trm) == Locs(old(trm)) + (if saving then Keys(o, a, a + 2) else {}) && (!saving ==> trm == old(trm))
      ensures ok && Intact(o, old(trm)) ==> Intact(o, trm)
      ensures !ok ==> mem == old(mem) && trm == old(trm) && ExternalObject(o, a)
    {
      ghost var m, tr := mem, trm;
      PairCells(a);
      PairSides(a);
      var n := |mem|;
      var car, cdr := mem[a].t, mem[a + 1].t;
      var dontCopy := car == Unb && ext[a];
      hide WellFormed, Consistent, Whole, ExternalObject, Appended, Locs;
      mem := mem + [Cell(car, true)];
      LinkWord(a, n);
      mem := mem + [Cell(cdr, false)];
      if cdr == Unb {
        if ext[a + 1] {
          dontCopy := true;
        } else {
          LinkWord(a + 1, n + 1);
        }
      }
      if dontCopy {
        mem := mem[..n];
        var top := trm[|trm| - 1];
        mem := mem[top.loc := top.word];
        trm := trm[..|trm| - 1];
        assert mem == m && trm == tr;
        return false;
      }
      PairAppended(m, mem, a, car, cdr);
      PairLocs(tr, trm, m, a, cdr);
      return true;
    }

    /** The variables of a list cell are of one kind. */
    lemma PairSides(a: int)
      requires WellFormed(o) && Mode() && IsPair(o, a)
      ensures ExternalObject(o, a) <==> External(o, a) || External(o, a + 1)
      ensures External(o, a) ==> !Local(o, a + 1) && saving
      ensures External(o, a + 1) ==> !Local(o, a) && saving
      ensures |ext| == |o.h|
    {
      assert PairOk(o, a);
      assert Object(o, a, a + 2);
      assert forall hi :: Object(o, a, hi) ==> hi == a + 2 by {
        forall hi | Object(o, a, hi)
          ensures hi == a + 2
        {
          ObjectUnique(o, a, a + 2, hi);
        }
      }
      assert OneSided(o);
    }

    lemma PairAppended(m: Mem, t: Mem, a: int, car: Term, cdr: Term)
      requires |o.h| <= |m| && IsPair(o, a) && IsCell(o, a) && IsCell(o, a + 1) && car == o.h[a].t
               && cdr == o.h[a + 1].t
      requires t == if cdr == Unb then ((m + [Cell(car, true)])[a := Fwd(|m|)] + [Cell(cdr, false)])[a + 1 :=
               Fwd(|m| + 1)]
                    else (m + [Cell(car, true)])[a := Fwd(|m|)] + [Cell(cdr, false)]
      ensures Appended(o, m, t, a, a + 2, |m|)
    {
      var n, hi := |m|, a + 2;
      assert forall c :: OldForwarded(o, a, hi, c) <==> c == a || (c == a + 1 && cdr == Unb);
      assert t[n] == NewWord(o, n, a, n, n) && t[n + 1] == NewWord(o, n, a, n + 1, n);
    }

    lemma PairLocs(tr: seq<Zapped>, t: seq<Zapped>, m: Mem, a: int, cdr: Term)
      requires IsPair(o, a) && IsCell(o, a) && IsCell(o, a + 1) && cdr == o.h[a + 1].t
      requires |o.h| <= |m| && m[a] == o.h[a] && m[a + 1] == o.h[a + 1]
      requires saving ==> t == if cdr == Unb then tr + [Zapped(a, m[a])] + [Zapped(a + 1, m[a + 1])]
               else tr + [Zapped(a, m[a])]
      requires !saving ==> t == tr
      ensures Locs(t) == Locs(tr) + (if saving then Keys(o, a, a + 2) else {})
      ensures Intact(o, tr) ==> Intact(o, t)
    {
      if saving {
        ghost var hi := a + 2;
        assert forall c :: OldForwarded(o, a, hi, c) <==> c == a || (c == a + 1 && cdr == Unb);
        assert Keys(o, a, a + 2) == if cdr == Unb then {a, a + 1} else {a};
        LocsPush(tr, Zapped(a, m[a]));
        if cdr == Unb {
          LocsPush(tr + [Zapped(a, m[a])], Zapped(a + 1, m[a + 1]));
        }
      }
    }

    lemma PairCells(a: int)
      requires Heap() && Whole(o, k) && IsPair(o, a) && a !in k.fw
      ensures IsCell(o, a) && IsCell(o, a + 1) && |o.h| <= |mem|
      ensures mem[a] == o.h[a] && mem[a + 1] == o.h[a + 1]
    {
      assert PairOk(o, a);
      ObjectFresh(o, k, a, a + 2, a + 1);
      OldIs(a);
      OldIs(a + 1);
    }

    lemma StructCells(a: int)
      requires Heap() && Whole(o, k) && IsStruct(o, a) && a !in k.fw
      ensures 1 <= Arity(o, a) && a + Arity(o, a) < |o.h| <= |mem| && mem[a] == o.h[a]
      ensures forall c :: a < c <= a + Arity(o, a) ==> IsCell(o, c) && mem[c] == o.h[c]
    {
      assert StructOk(o, a);
      OldIs(a);
      forall c | a < c <= a + Arity(o, a)
        ensures IsCell(o, c) && mem[c] == o.h[c]
      {
        assert IsCell(o, c);
        ObjectFresh(o, k, a, a + 1 + Arity(o, a), c);
        OldIs(c);
      }
      assert IsCell(o, a + Arity(o, a));
    }

    /** The local variables among the words lo up to hi have been forwarded to
        the copy at n and saved. */
    ghost predicate ArgsLinked(m: Mem, t: Mem, tr: seq<Zapped>, z: seq<Zapped>, a: int, hi: int, n: int) {
      && |o.h| <= |m| <= |t| && n == |m|
      && (forall c :: 0 <= c < |o.h| ==> t[c] == if a < c < hi && Local(o, c) then Fwd(n + (c - a)) else m[c])
      && (forall q :: |o.h| <= q < n ==> t[q] == m[q])
      && (forall q :: n <= q < |t| ==> t[q] == NewWord(o, n, a, q, n + 1))
      && (if saving then Locs(z) == Locs(tr) + Locals(o, a, hi) && (Intact(o, tr) ==> Intact(o, z)) else z == tr)
      && ((forall c :: a < c < hi ==> !Local(o, c)) ==> z == tr)
    }

    /** Copies a structure to the end of memory. If one of its arguments is an
        external variable, the copy is taken back; the header is forwarded only
        when all arguments have been looked at. */
    method CopyStruct(a: int) returns (ok: bool)
      requires Heap() && Whole(o, k) && Mode() && IsStruct(o, a) && a !in k.fw
      modifies this`mem, this`trm
      ensures ok ==> Appended(o, old(mem), mem, a, a + 1 + Arity(o, a), |old(mem)| + 1) && !ExternalObject(o, a)
      ensures ok ==>
              Locs(trm) == Locs(old(trm)) + (if saving then Keys(o, a, a + 1 + Arity(o, a)) else {})
              && (!saving ==> trm == old(trm))
      ensures ok && Intact(o, old(trm)) ==> Intact(o, trm)
      ensures !ok ==> mem == old(mem) && trm == old(trm) && ExternalObject(o, a)
    {
      hide *;
      StructCells(a);
      StructSides(a);
      ghost var m, tr := mem, trm;
      var n := |mem|;
      StructArity(a);
      var arity := mem[a].arity;
      mem := mem + [mem[a]];
      HeaderLinked(m, mem, tr, a);
      var dontCopy := false;
      var i := 1;
      SomeNone(a);
      while i <= arity
        invariant 1 <= i <= arity + 1 && |mem| == n + i
        invariant ArgsLinked(m, mem, tr, trm, a, a + i, n)
        invariant dontCopy <==> SomeExternal(a, a + i)
      {
        ghost var t, z := mem, trm;
        ArgWord(m, mem, tr, trm, a, i, n);
        ArgSide(a + i);
        var arg := mem[a + i].t;
        mem := mem + [Cell(arg, i == 1)];
        if arg == Unb {
          if ext[a + i] {
            dontCopy := true;
          } else {
            LinkWord(a + i, n + i);
          }
        }
        SomeNext(a, a + i);
        ArgLinked(m, t, mem, tr, z, trm, a, i, n);
        i := i + 1;
      }
      if dontCopy {
        NoLinks(m, mem, tr, trm, a, a + i, n);
        mem := mem[..n];
        return false;
      }
      ghost var t, z := mem, trm;
      HeaderKept(m, mem, tr, trm, a, a + i, n);
      LinkWord(a, n);
      StructAppended(m, t, mem, tr, z, trm, a, a + i, n);
      return true;
    }

    ghost predicate SomeExternal(a: int, hi: int) {
      exists c :: a < c < hi && External(o, c)
    }

    lemma SomeNone(a: int)
      ensures !SomeExternal(a, a + 1)
    {
    }

    lemma SomeNext(a: int, c: int)
      requires a < c
      ensures SomeExternal(a, c + 1) <==> SomeExternal(a, c) || External(o, c)
    {
    }

    lemma StructArity(a: int)
      requires IsStruct(o, a)
      ensures 0 <= a < |o.h| && o.h[a].Functor? && Arity(o, a) == o.h[a].arity
    {
    }

    /** What an argument is, by its word and its entry in ext. */
    lemma ArgSide(c: int)
      requires Mode() && IsCell(o, c) && |ext| == |o.h|
      ensures 0 <= c < |o.h| && o.h[c].Cell? && o.h[c].t == Was(o, c)
      ensures External(o, c) <==> Was(o, c) == Unb && ext[c]
      ensures Local(o, c) <==> Was(o, c) == Unb && !ext[c]
    {
    }

    lemma ExtLength()
      requires Heap() && Mode()
      ensures |ext| == |o.h|
    {
    }

    lemma HeaderLinked(m: Mem, t: Mem, tr: seq<Zapped>, a: int)
      requires IsStruct(o, a) && |o.h| <= |m| && m[a] == o.h[a] && t == m + [m[a]]
      ensures ArgsLinked(m, t, tr, tr, a, a + 1, |m|)
    {
      assert Locals(o, a, a + 1) == {};
    }

    lemma ArgWord(m: Mem, t: Mem, tr: seq<Zapped>, z: seq<Zapped>, a: int, i: int, n: int)
      requires ArgsLinked(m, t, tr, z, a, a + i, n) && IsCell(o, a + i) && m[a + i] == o.h[a + i]
      ensures a + i < |t| && t[a + i] == o.h[a + i]
    {
    }

    lemma ArgLinked(m: Mem, t: Mem, u: Mem, tr: seq<Zapped>, z: seq<Zapped>, y: seq<Zapped>, a: int, i: int, n: int)
      requires ArgsLinked(m, t, tr, z, a, a + i, n) && IsCell(o, a + i) && a >= 0 && i >= 1 && |t| == n + i
               && t[a + i] == o.h[a + i]
      requires Local(o, a + i) ==> u == (t + [Cell(Was(o, a + i), i == 1)])[a + i := Fwd(n + i)] &&
                                   y == if saving then z + [Zapped(a + i, t[a + i])] else z
      requires !Local(o, a + i) ==> u == t + [Cell(Was(o, a + i), i == 1)] && y == z
      ensures ArgsLinked(m, u, tr, y, a, a + i + 1, n)
    {
      hide Was;
      ArgSaved(tr, z, y, a, i, t[a + i]);
      forall q | n <= q < |u|
        ensures u[q] == NewWord(o, n, a, q, n + 1)
      {
        assert Source(n, a, n + i) == a + i;
        NewArg(a, i, n);
      }
    }

    lemma NewArg(a: int, i: int, n: int)
      requires IsCell(o, a + i)
      ensures NewWord(o, n, a, n + i, n + 1) == Cell(Was(o, a + i), i == 1)
    {
    }

    lemma ArgSaved(tr: seq<Zapped>, z: seq<Zapped>, y: seq<Zapped>, a: int, i: int, w: Word)
      requires i >= 1 && 0 <= a + i < |o.h| && w == o.h[a + i]
      requires if saving then Locs(z) == Locs(tr) + Locals(o, a, a + i) && (Intact(o, tr) ==> Intact(o, z)) else z == tr
      requires (forall c :: a < c < a + i ==> !Local(o, c)) ==> z == tr
      requires y == if Local(o, a + i) && saving then z + [Zapped(a + i, w)] else z
      ensures if saving then Locs(y) == Locs(tr) + Locals(o, a, a + i + 1) && (Intact(o, tr) ==> Intact(o, y))
              else y == tr
      ensures (forall c :: a < c < a + i + 1 ==> !Local(o, c)) ==> y == tr
    {
      hide Local;
      LocsPush(z, Zapped(a + i, w));
      LocalsNext(o, a, a + i);
    }

    lemma StructSides(a: int)
      requires Heap() && Mode() && IsStruct(o, a)
      ensures |ext| == |o.h|
      ensures ExternalObject(o, a) <==> SomeExternal(a, a + 1 + Arity(o, a))
      ensures ExternalObject(o, a) ==> forall c :: a < c < a + 1 + Arity(o, a) ==> !Local(o, c)
    {
      assert StructOk(o, a);
      var hi := a + 1 + Arity(o, a);
      assert Object(o, a, hi);
      if ExternalObject(o, a) {
        var c, e :| Object(o, a, e) && a <= c < e && External(o, c);
        ObjectUnique(o, a, hi, e);
        assert OneSided(o);
      }
    }

    lemma NoLinks(m: Mem, t: Mem, tr: seq<Zapped>, z: seq<Zapped>, a: int, hi: int, n: int)
      requires ArgsLinked(m, t, tr, z, a, hi, n) && forall c :: a < c < hi ==> !Local(o, c)
      ensures n <= |t| && t[..n] == m && z == tr
    {
    }

    lemma HeaderKept(m: Mem, t: Mem, tr: seq<Zapped>, z: seq<Zapped>, a: int, hi: int, n: int)
      requires ArgsLinked(m, t, tr, z, a, hi, n) && IsStruct(o, a) && m[a] == o.h[a]
      ensures a < |t| && t[a] == o.h[a]
    {
    }

    lemma StructAppended(m: Mem, t: Mem, u: Mem, tr: seq<Zapped>, z: seq<Zapped>, y: seq<Zapped>, a: int, hi: int,
      n: int)
      requires ArgsLinked(m, t, tr, z, a, hi, n) && IsStruct(o, a) && m[a] == o.h[a] && 0 <= a < hi <= |o.h|
               && |t| == n + (hi - a)
      requires !SomeExternal(a, hi)
      requires t[a] == o.h[a] && u == t[a := Fwd(n)] && y == if saving then z + [Zapped(a, t[a])] else z
      ensures Appended(o, m, u, a, hi, n + 1)
      ensures Locs(y) == Locs(tr) + (if saving then Keys(o, a, hi) else {}) && (!saving ==> y == tr)
      ensures Intact(o, tr) ==> Intact(o, y)
    {
      assert forall c :: OldForwarded(o, a, hi, c) <==> c == a || (a < c < hi && Local(o, c));
      LocsPush(z, Zapped(a, t[a]));
      assert Keys(o, a, hi) == Locals(o, a, hi) + {a};
    }

    // -------------------------------------------- the scan

    /** The block at base is scanned down from loc; prev and t are what the
        registers hold of the path. */
    ghost predicate At(path: Path, t: Tag, base: int, loc: int, prev: int)
      reads this`k, this`mem, this`saved
    {
      && Scanning(o, k, mem, saved, path, t, base, loc) && Deferred(o, k, mem, saved) && Closed(saved, path, base, loc)
      && prev == PrevLoc(path)
    }

    /** The location scanned gets its final word. */
    method Finish(loc: int, u: Term, defer: bool, ghost path: Path, ghost t: Tag, ghost base: int, prev: int)
      requires At(path, t, base, loc, prev) && base <= loc && loc in k.raw && Image(o, k, k.raw[loc], u)
      requires (defer <==> u.Ref? && u.a < |o.h| && !External(o, u.a)) && (defer ==> 0 <= u.a)
      modifies this`mem, this`saved
      ensures At(path, t, base, loc - 1, prev) && |mem| == |old(mem)|
    {
      hide *;
      ghost var m, sv := mem, saved;
      AtParts(path, t, base, loc, prev);
      FinishReady(path, t, base, loc);
      if defer {
        saved := saved + [loc];
      }
      mem := mem[loc := Cell(u, false)];
      FinishAt(m, sv, path, t, base, loc, prev, u, defer);
    }

    lemma FinishReady(path: Path, t: Tag, base: int, loc: int)
      requires Scanning(o, k, mem, saved, path, t, base, loc) && base <= loc
      ensures 0 <= loc < |mem| && |o.h| <= base && !Open(path, loc) && loc in k.raw
              && mem[loc] == Cell(k.raw[loc], loc == base)
      ensures WellTyped(o, k.raw[loc]) && Heap() && Whole(o, k)
    {
      if Open(path, loc) {
        OpenBelow(o, k, mem, path, t, base, loc);
      }
    }

    lemma FinishAt(m: Mem, sv: seq<int>, path: Path, t: Tag, base: int, loc: int, prev: int, u: Term, defer: bool)
      requires Scanning(o, k, m, sv, path, t, base, loc) && Deferred(o, k, m, sv) && Closed(sv, path, base, loc)
      requires prev == PrevLoc(path) && base <= loc && 0 <= loc < |m| && loc in k.raw && Image(o, k, k.raw[loc], u)
      requires !Open(path, loc) && (defer <==> u.Ref? && u.a < |o.h| && !External(o, u.a)) && (defer ==> 0 <= u.a)
      requires mem == m[loc := Cell(u, false)] && saved == if defer then sv + [loc] else sv
      ensures At(path, t, base, loc - 1, prev)
    {
      hide Scanning, Deferred, Closed, Image;
      FinishStep(o, k, m, sv, saved, path, t, base, loc, u);
      FinishDeferred(o, k, m, sv, path, base, loc, u, defer);
    }

    /** The pointer to a finished block replaces the reversed pointer. */
    method Pop(ghost path: Path, t: Tag, base: int, prev: int) returns (t2: Tag, m2: bool, prev2: int)
      requires At(path, t, base, base - 1, prev) && path.Up?
      modifies this`mem
      ensures At(path.rest, path.tag, path.base, path.loc - 1, prev2)
      ensures t2 == path.tag && m2 == (path.loc == path.base) && prev == path.loc && |mem| == |old(mem)|
    {
      ghost var m := mem;
      PopStep(o, k, mem, saved, path, t, base);
      hide Scanning, Deferred, Closed;
      var temp := mem[prev];
      t2, m2, prev2 := temp.tag, temp.mark, temp.prev;
      mem := mem[prev := Cell(BlockPtr(t, base), false)];
      PathShape(m, path, t, base);
      PopDeferred(o, k, m, saved, path, base, Cell(BlockPtr(t, base), false));
    }

    lemma PathShape(m: Mem, path: Path, t: Tag, base: int)
      requires Scanning(o, k, m, saved, path, t, base, base - 1) && path.Up?
      ensures path.base <= path.loc && 0 <= path.loc < |m|
    {
    }

    /** The list cell or structure at a, met at loc for the first time, is
        copied, the pointer at loc reversed, and the copy scanned next; an
        external one stays as it is. */
    method Push(a: int, pair: bool, loc: int, mark: bool, ghost path: Path, t: Tag, ghost base: int, prev: int)
      returns (ok: bool, t2: Tag, loc2: int, ghost base2: int)
      requires At(path, t, base, loc, prev) && Zapping() && base <= loc && loc in k.raw && a !in k.fw
               && mark == (loc == base)
      requires Deref(o, k.raw[loc]) == (if pair then Lst(a) else Str(a))
               && (if pair then IsPair(o, a) else IsStruct(o, a))
      modifies this`mem, this`trm, this`k
      ensures Zapping() && Grows(old(k), k) && |old(mem)| <= |mem|
      ensures ok ==> At(Up(path, base, loc, t), t2, base2, loc2, loc) && base2 <= loc2
      ensures ok ==> a in k.fw && 0 <= a < |o.h|
      ensures !ok ==> mem == old(mem) && k == old(k) && ExternalObject(o, a) && 0 <= a < |o.h|
    {
      hide *;
      ghost var m, j, tr := mem, k, trm;
      AtParts(path, t, base, loc, prev);
      FinishReady(path, t, base, loc);
      PushKind(a, pair, loc);
      ZapMode();
      SelfGrows(k);
      ghost var hi := if pair then a + 2 else a + 1 + Arity(o, a);
      base2, loc2 := 0, 0;
      if pair {
        ok := CopyPair(a);
        t2 := LST;
      } else {
        ok := CopyStruct(a);
        t2 := STR;
      }
      if !ok {
        return;
      }
      ghost var w := mem;
      AppendedLonger(o, m, w, a, hi, if pair then |m| else |m| + 1);
      loc2 := |mem| - 1;
      mem := mem[loc := Rev(prev, t, mark)];
      ZapPush(tr, |m|, a, hi);
      k := Extended(o, k, |m|, a, hi);
      MakeZapping();
      base2 := if pair then |m| else |m| + 1;
      PushAt(j, m, w, a, pair, hi, loc, path, t, base, prev);
    }

    lemma ZapMode()
      requires Zapping()
      ensures Mode() && (if saving then Kept(o, k, trm) && Intact(o, trm) else trm == [])
    {
    }

    /** The words saved when an object is copied are those forwarded. */
    lemma ZapPush(tr: seq<Zapped>, n: int, a: int, hi: int)
      requires if saving then Kept(o, k, tr) && Intact(o, trm) && Locs(trm) == Locs(tr) + Keys(o, a, hi)
               else tr == [] && trm == tr
      ensures if saving then Kept(o, Extended(o, k, n, a, hi), trm) else trm == []
    {
      ExtendedKeys(o, k, n, a, hi);
    }

    lemma MakeZapping()
      requires Mode() && if saving then Kept(o, k, trm) else trm == []
      ensures Zapping()
    {
    }

    lemma PushKind(a: int, pair: bool, loc: int)
      requires Heap() && loc in k.raw && (if pair then IsPair(o, a) else IsStruct(o, a))
      requires Deref(o, k.raw[loc]) == if pair then Lst(a) else Str(a)
      ensures Object(o, a, if pair then a + 2 else a + 1 + Arity(o, a)) && (IsPair(o, a) <==> pair)
      ensures k.raw[loc] != Unb && 0 <= a < |o.h| <= |mem|
      ensures !pair ==> Arity(o, a) >= 1
    {
      NoRefDeref(Unb);
      if !pair {
        assert StructOk(o, a);
        assert IsPair(o, a) ==> PairOk(o, a);
      }
    }

    lemma PushAt(j: Copy, m: Mem, w: Mem, a: int, pair: bool, hi: int, loc: int, path: Path, t: Tag, base: int,
      prev: int)
      requires Scanning(o, j, m, saved, path, t, base, loc) && Deferred(o, j, m, saved)
               && Closed(saved, path, base, loc)
      requires prev == PrevLoc(path) && base <= loc && 0 <= loc < |m| && loc in j.raw && j.raw[loc] != Unb
      requires !ExternalObject(o, a)
      requires Object(o, a, hi) && a !in j.fw && (IsPair(o, a) <==> pair) && (pair ==> hi == a + 2)
               && (!pair ==> hi > a + 1)
      requires Deref(o, j.raw[loc]) == if pair then Lst(a) else Str(a)
      requires Appended(o, m, w, a, hi, if pair then |m| else |m| + 1)
      requires mem == w[loc := Rev(prev, t, loc == base)] && k == Extended(o, j, |m|, a, hi)
      ensures At(Up(path, base, loc, t), if pair then LST else STR, if pair then |m| else |m| + 1, |w| - 1, loc)
      ensures a in k.fw && Grows(j, k) && |m| <= |w| && (if pair then |m| else |m| + 1) <= |w| - 1
    {
      hide *;
      PushFirst(o, m, a, pair);
      PushStep(o, j, m, w, saved, path, t, base, loc, a, hi);
      LeadsBy(o, j.raw[loc], a);
      PushShape(o, j, m, w, saved, path, t, base, loc, a, hi);
      PushBefore(o, j, m, saved, path, t, base, loc);
      PushDeferred(o, j, k, m, mem, saved, path, t, base, loc, FirstCell(o, |m|, a));
      MakeAt(Up(path, base, loc, t), if pair then LST else STR, FirstCell(o, |m|, a), |w| - 1, loc);
      PushMore(o, j, |m|, a, hi);
    }

    // -------------------------------------------- the loop

    /** How many locations of the path wait or are reversed. */
    ghost function Waits(path: Path): nat {
      match path
      case Root => 0
      case Up(rest, b, loc, _) => (if loc >= b then loc - b + 1 else 0) + Waits(rest)
    }

    /** Everything allocated holds its final word. */
    ghost predicate Idle()
      reads this`k, this`mem, this`saved
    {
      && Heap() && Whole(o, k) && Deferred(o, k, mem, saved)
      && forall n :: n in k.raw ==> Finished(o, k, mem, saved, n)
    }

    /** Roots waiting in the block loc..loc+count; everything else is final. */
    ghost predicate Ready(loc: int, count: int)
      reads this`k, this`mem, this`saved
    {
      RootsAt(mem, loc, count)
    }

    lemma ReadyIs(loc: int, count: int)
      ensures Ready(loc, count) == RootsAt(mem, loc, count)
    {
    }

    /** gc_locations: copies everything reachable from a block of roots. */
    method GcLocations(loc: int, count: int)
      requires Ready(loc, count) && Zapping()
      modifies this`mem, this`saved, this`trm, this`k
      ensures Idle() && Zapping() && Grows(old(k), k) && |old(mem)| <= |mem|
    {
      hide *;
      if count == 0 {
        NothingToDo(loc);
        SelfGrows(k);
        return;
      }
      ghost var m := mem;
      RootReady(loc, count);
      ReadyIs(loc, count);
      mem := mem[loc := Cell(mem[loc].t, true)];
      RootScan(m, loc, count);
      var prev, t, locptr := ROOT, LST, loc + count - 1;
      ghost var path, base, k0 := Root, loc, k;
      SelfGrows(k);
      while true
        invariant At(path, t, base, locptr, prev) && base <= locptr && Zapping()
        invariant Grows(k0, k) && |m| <= |mem|
        decreases Left(o, k), Waits(path) + (locptr - base)
      {
        ghost var k1 := k;
        var again;
        again, t, locptr, prev, path, base := ScanOne(t, locptr, prev, path, base);
        GrowsTwice(k0, k1, k);
        if !again {
          return;
        }
      }
    }

    /** A term that is no reference: final as it is, forwarded already, or an
        object still to be copied. */
    method Select(u: Term, ghost t0: Term) returns (push: bool, result: Term)
      requires Heap() && Whole(o, k) && WellTyped(o, u) && !u.Ref? && Deref(o, t0) == u && (u == Unb ==> t0 == Unb)
               && (u != Unb ==> t0 != Unb)
      ensures !push ==> Image(o, k, t0, result) && !result.Ref?
      ensures push ==> result == u && (u.Lst? || u.Str?) && u.a !in k.fw && if u.Lst? then IsPair(o, u.a)
              else IsStruct(o, u.a)
    {
      hide Deref, WellFormed, Consistent;
      push, result := false, u;
      if u.Lst? {
        OldIs(u.a);
        HeadHome(o, u.a);
        if mem[u.a].Fwd? {
          result := Lst(mem[u.a].a);
        } else {
          push := true;
        }
      } else if u.Str? {
        OldIs(u.a);
        HeadHome(o, u.a);
        if mem[u.a].Fwd? {
          result := Str(mem[u.a].a);
        } else {
          push := true;
        }
      }
    }

    /** Scans one location: its term is resolved, or its object pushed. */
    method ScanOne(t0: Tag, loc: int, prev0: int, ghost path0: Path, ghost base0: int)
      returns (again: bool, t: Tag, locptr: int, prev: int, ghost path: Path, ghost base: int)
      requires At(path0, t0, base0, loc, prev0) && base0 <= loc && Zapping()
      modifies this`mem, this`saved, this`trm, this`k
      ensures Grows(old(k), k) && |old(mem)| <= |mem| && Zapping()
      ensures !again ==> Idle()
      ensures again ==> At(path, t, base, locptr, prev) && base <= locptr
      ensures again ==> Left(o, k) < Left(o, old(k)) ||
                        (Left(o, k) == Left(o, old(k)) && Waits(path) + (locptr - base) < Waits(path0) + (loc - base0))
    {
      hide *;
      AtParts(path0, t0, base0, loc, prev0);
      FinishReady(path0, t0, base0, loc);
      ghost var k0 := k;
      SelfGrows(k);
      var mark, old_t := mem[loc].mark, mem[loc].t;
      UnbDeref(old_t);
      ZapMode();
      var found, result, defer := Resolve(old_t);
      if !found {
        var push;
        ghost var u := result;
        push, result := Select(result, old_t);
        if push {
          var ok;
          ok, t, locptr, base := Push(result.a, result.Lst?, loc, mark, path0, t0, base0, prev0);
          if ok {
            path, prev := Up(path0, base0, loc, t0), loc;
            LeftLess(o, k0, k, result.a);
            return true, t, locptr, prev, path, base;
          }
          ExternalImage(o, k, old_t, result);
        }
      }
      Finish(loc, result, defer, path0, t0, base0, prev0);
      if mark {
        again, t, locptr, prev, path, base := Climb(t0, loc, prev0, path0);
      } else {
        again, t, locptr, prev, path, base := true, t0, loc - 1, prev0, path0, base0;
      }
    }

    lemma UnbDeref(t: Term)
      ensures t == Unb ==> Deref(o, t) == Unb
    {
    }

    /** The loop that climbs while the location left is the first of its block. */
    method Climb(t0: Tag, loc: int, prev0: int, ghost path0: Path)
      returns (again: bool, t: Tag, locptr: int, prev: int, ghost path: Path, ghost base: int)
      requires At(path0, t0, loc, loc - 1, prev0)
      modifies this`mem
      ensures |old(mem)| <= |mem|
      ensures !again ==> Idle()
      ensures again ==>
              At(path, t, base, locptr, prev) && base <= locptr && Waits(path) + (locptr - base) < Waits(path0)
    {
      hide *;
      t, locptr, prev, path, base := t0, loc, prev0, path0, loc;
      var m := true;
      while m
        invariant |mem| == |old(mem)| && Waits(path) <= Waits(path0)
        invariant m ==> At(path, t, locptr, locptr - 1, prev)
        invariant !m ==>
                  At(path, t, base, locptr - 1, prev) && base <= locptr - 1
                  && Waits(path) + (locptr - 1 - base) < Waits(path0)
        decreases m, Waits(path)
      {
        PathKind(path, t, locptr, prev);
        if prev == ROOT {
          RootIdle(path, t, locptr, prev);
          return false, t, locptr, prev, path, 0;
        }
        WaitsUp(path);
        ghost var p := path;
        var up := prev;
        t, m, prev := Pop(path, t, locptr, prev);
        locptr, base, path := up, p.base, p.rest;
      }
      return true, t, locptr - 1, prev, path, base;
    }

    lemma PathKind(path: Path, t: Tag, base: int, prev: int)
      requires At(path, t, base, base - 1, prev)
      ensures prev == ROOT <==> path == Root
      ensures path.Up? ==> path.base <= path.loc == prev
    {
    }

    lemma RootIdle(path: Path, t: Tag, base: int, prev: int)
      requires At(path, t, base, base - 1, prev) && path == Root
      ensures Idle()
    {
    }

    lemma WaitsUp(path: Path)
      requires path.Up? && path.base <= path.loc
      ensures Waits(path) == (path.loc - path.base + 1) + Waits(path.rest)
    {
    }

    // -------------------------------------------- the reference stack

    /** gc_saved_refs: every variable met as a bare reference is forwarded, as
        part of a copied object or on its own, and the locations that refer to
        it are brought up to date. */
    method GcSavedRefs()
      requires Idle() && Zapping()
      modifies this`mem, this`saved, this`trm, this`k
      ensures Settled(o, k, mem) && Heap() && Zapping() && Grows(old(k), k) && |old(mem)| <= |mem|
    {
      hide *;
      SelfGrows(k);
      IdleParts();
      while saved != []
        invariant Heap() && Zapping() && Refs(k, mem, saved) && Grows(old(k), k) && |old(mem)| <= |mem|
        decreases |saved|
      {
        ghost var k1 := k;
        SavedOne();
        GrowsTwice(old(k), k1, k);
      }
      RefsDone();
    }

    /** Everything allocated is final but for the locations on the stack. */
    ghost predicate Refs(k: Copy, m: Mem, saved: seq<int>) {
      Deferred(o, k, m, saved) && forall n :: n in k.raw ==> Finished(o, k, m, saved, n)
    }

    lemma IdleParts()
      requires Idle()
      ensures Heap() && Refs(k, mem, saved)
    {
    }

    lemma RefsDone()
      requires Heap() && Refs(k, mem, saved) && saved == []
      ensures Settled(o, k, mem)
    {
      hide Consistent, WellFormed, Image;
      forall n | n in k.raw
        ensures SettledAt(o, k, mem, n)
      {
        assert Finished(o, k, mem, saved, n);
      }
    }

    /** The location on top of the stack. */
    method SavedOne()
      requires Heap() && Zapping() && Refs(k, mem, saved) && saved != []
      modifies this`mem, this`saved, this`trm, this`k
      ensures Heap() && Zapping() && Refs(k, mem, saved) && Grows(old(k), k) && |old(mem)| <= |mem|
              && |saved| < |old(saved)|
    {
      hide *;
      ghost var m, k0, sv, tr := mem, k, saved, trm;
      var loc := saved[|saved| - 1];
      TopFacts(loc);
      saved := saved[..|saved| - 1];
      var c := mem[loc].t.a;
      OldIs(c);
      SelfGrows(k);
      ZapMode();
      var n;
      if mem[c].Fwd? {
        n := mem[c].a;
      } else {
        n := |mem|;
        VarConsistent(o, k, mem, c);
        VarGrows(o, k, mem, c);
        mem := mem + [Cell(Unb, false)];
        LinkWord(c, n);
        ZapVar(tr, c, n);
        k := WithVar(k, c, n);
        MakeZapping();
        VarRefs(k0, m, mem, sv, c, loc);
        VarHas(k0, c, n);
      }
      ghost var w := mem;
      mem := mem[loc := Cell(Ref(n), false)];
      RefFinal(k0, w, sv, c, n, loc);
    }

    lemma ZapVar(tr: seq<Zapped>, c: int, n: int)
      requires 0 <= c < |o.h| && if saving then Kept(o, k, tr) && trm == tr + [Zapped(c, o.h[c])] else trm == []
      ensures if saving then Kept(o, WithVar(k, c, n), trm) else trm == []
    {
      LocsPush(tr, Zapped(c, o.h[c]));
    }

    lemma TopFacts(loc: int)
      requires Heap() && Refs(k, mem, saved) && saved != [] && loc == saved[|saved| - 1]
      ensures |o.h| <= loc < |mem| && loc in k.raw && mem[loc].Cell? && mem[loc].t.Ref?
      ensures var c := mem[loc].t.a;
              0 <= c < |o.h| <= |mem| && IsCell(o, c) && Local(o, c) && Was(o, c) == Unb && Points(k.raw[loc], c)
                && WellFormed(o) && Consistent(o, k, mem)
    {
      assert DeferredAt(o, k, mem, saved[|saved| - 1]);
      assert Finished(o, k, mem, saved, loc);
      var t := k.raw[loc];
      hide Consistent, WellFormed;
      PointsAt(t, mem[loc].t.a);
    }

    /** t leads to the unbound variable c. */
    ghost predicate Points(t: Term, c: int) {
      Deref(o, t) == Ref(c) && Rank(o, c) < TermRank(o, t)
    }

    lemma PointsAt(t: Term, c: int)
      requires WellFormed(o) && WellTyped(o, t) && Deref(o, t) == Ref(c)
      ensures Points(t, c)
    {
      DerefRank(o, t);
    }

    lemma VarRefs(k0: Copy, m: Mem, t: Mem, sv: seq<int>, c: int, loc: int)
      requires Refs(k0, m, sv) && Consistent(o, k0, m) && c !in k0.fw && IsCell(o, c) && Was(o, c) == Unb
      requires t == (m + [Cell(Unb, false)])[c := Fwd(|m|)] && |o.h| <= |m|
      ensures Refs(WithVar(k0, c, |m|), t, sv) && |m| <= |t|
    {
      var j := WithVar(k0, c, |m|);
      VarGrows(o, k0, m, c);
      forall i | 0 <= i < |sv|
        ensures DeferredAt(o, j, t, sv[i])
      {
        assert DeferredAt(o, k0, m, sv[i]);
      }
      assert forall n :: n in k0.raw ==> |o.h| <= n < |m|;
      hide WellFormed, Consistent, Image;
      forall n | n in j.raw
        ensures Finished(o, j, t, sv, n)
      {
        if n == |m| {
          UnbImage(o, j);
        } else {
          FinishedKeeps(o, k0, j, m, t, sv, sv, n);
        }
      }
    }

    lemma RefFinal(k0: Copy, w: Mem, sv: seq<int>, c: int, n: int, loc: int)
      requires WellFormed(o) && Consistent(o, k, w) && Refs(k, w, sv) && sv != [] && loc == sv[|sv| - 1]
               && saved == sv[..|sv| - 1]
      requires loc in k.raw && |o.h| <= loc < |w| && IsCell(o, c) && Points(k.raw[loc], c) && Was(o, c) == Unb
      requires c in k.fw && k.fw[c] == n && mem == w[loc := Cell(Ref(n), false)]
      ensures Heap() && Refs(k, mem, saved)
    {
      assert Placed(o, k, w, c);
      WriteConsistent(o, k, w, loc, Cell(Ref(n), false));
      RefImage(c, n, loc);
      forall i | 0 <= i < |saved|
        ensures DeferredAt(o, k, mem, saved[i])
      {
        assert DeferredAt(o, k, w, sv[i]);
      }
      hide WellFormed, Consistent, Image;
      forall q | q in k.raw
        ensures Finished(o, k, mem, saved, q)
      {
        assert Finished(o, k, w, sv, q);
        assert q in sv && q != loc ==> q in saved by {
          if q in sv && q != loc {
            var i :| 0 <= i < |sv| && sv[i] == q;
            assert saved[i] == q;
          }
        }
      }
    }

    lemma RefImage(c: int, n: int, loc: int)
      requires loc in k.raw && IsCell(o, c) && Points(k.raw[loc], c) && Was(o, c) == Unb
      requires c in k.fw && k.fw[c] == n && Stands(k, n, c) && |o.h| <= n
      ensures Image(o, k, k.raw[loc], Ref(n))
    {
    }

    // -------------------------------------------- putting the words back

    /** Old space with the words at the locations of s forwarded. */
    ghost predicate Touched(s: set<int>)
      reads this`mem
    {
      |o.h| <= |mem| && forall a :: 0 <= a < |o.h| && a !in s ==> mem[a] == o.h[a]
    }

    /** The end of copy: the saved words are put back, the last one first; old
        space is what it was, and the copy stays. */
    method ResetTrm()
      requires Heap() && Zapping() && saving
      modifies this`mem, this`trm
      ensures |mem| == |old(mem)| && trm == []
      ensures forall a :: 0 <= a < |o.h| ==> mem[a] == o.h[a]
      ensures forall n :: |o.h| <= n < |mem| ==> mem[n] == old(mem)[n]
    {
      ResetStart();
      hide Heap, Zapping, Locs;
      while trm != []
        invariant Intact(o, trm) && Touched(Locs(trm)) && |mem| == |old(mem)|
        invariant forall n :: |o.h| <= n < |mem| ==> mem[n] == old(mem)[n]
        decreases |trm|
      {
        var top := trm[|trm| - 1];
        LocsPush(trm[..|trm| - 1], top);
        assert trm == trm[..|trm| - 1] + [top];
        mem := mem[top.loc := top.word];
        trm := trm[..|trm| - 1];
      }
      NoLocs();
    }

    lemma ResetStart()
      requires Heap() && Zapping() && saving
      ensures Intact(o, trm) && Touched(Locs(trm))
    {
      forall a | 0 <= a < |o.h| && a !in Locs(trm)
        ensures mem[a] == o.h[a]
      {
        assert OldWord(o, k, mem, a);
      }
    }

    lemma NoLocs()
      ensures Locs([]) == {}
    {
    }

    lemma NothingToDo(loc: int)
      requires Ready(loc, 0)
      ensures Idle()
    {
    }

    lemma RootReady(loc: int, count: int)
      requires Ready(loc, count) && count != 0
      ensures 0 <= loc < |mem| && loc in k.raw && mem[loc] == Cell(k.raw[loc], false) && count > 0
    {
    }

    /** Marking the first root sets up the scan. */
    lemma RootScan(m: Mem, loc: int, count: int)
      requires count > 0 && RootsAt(m, loc, count) && mem == m[loc := Cell(m[loc].t, true)]
      ensures At(Root, LST, loc, loc + count - 1, ROOT)
    {
      WriteConsistent(o, k, m, loc, mem[loc]);
      SelfGrows(k);
      hide WellFormed, Consistent, Whole;
      forall n | n in k.raw && !(loc <= n <= loc + count - 1)
        ensures Finished(o, k, mem, saved, n)
      {
        FinishedKeeps(o, k, k, m, mem, saved, saved, n);
      }
      forall i | 0 <= i < |saved|
        ensures DeferredAt(o, k, mem, saved[i])
      {
        assert DeferredAt(o, k, m, saved[i]);
      }
    }

    /** Ready, with memory m. */
    ghost predicate RootsAt(m: Mem, loc: int, count: int)
      reads this`k, this`saved
    {
      && WellFormed(o) && Consistent(o, k, m) && Whole(o, k) && Deferred(o, k, m, saved)
      && |o.h| <= loc && 0 <= count && loc + count <= |m|
      && (forall q :: loc <= q < loc + count ==> q in k.raw && m[q] == Cell(k.raw[q], false))
      && (forall n :: n in k.raw && !(loc <= n < loc + count) ==> Finished(o, k, m, saved, n))
      && (forall i :: 0 <= i < |saved| ==> !(loc <= saved[i] < loc + count))
    }

    lemma AtParts(path: Path, t: Tag, base: int, loc: int, prev: int)
      requires At(path, t, base, loc, prev)
      ensures Scanning(o, k, mem, saved, path, t, base, loc) && Deferred(o, k, mem, saved)
              && Closed(saved, path, base, loc)
      ensures prev == PrevLoc(path)
    {
    }

    lemma MakeAt(path: Path, t: Tag, base: int, loc: int, prev: int)
      requires Scanning(o, k, mem, saved, path, t, base, loc) && Deferred(o, k, mem, saved)
               && Closed(saved, path, base, loc)
      requires path.Up? && prev == path.loc
      ensures At(path, t, base, loc, prev)
    {
    }
  }

  /** The local variables between a header and hi. */
  ghost function Locals(o: Old, a: int, hi: int): (s: set<int>)
    ensures forall c :: c in s <==> a < c < hi && Local(o, c)
  {
    set c | a < c < hi && Local(o, c)
  }

  lemma LocalsNext(o: Old, a: int, c: int)
    requires a < c
    ensures Locals(o, a, c + 1) == if Local(o, c) then Locals(o, a, c) + {c} else Locals(o, a, c)
  {
  }

  lemma ExternalImage(o: Old, k: Copy, t: Term, u: Term)
    requires Deref(o, t) == u && t != Unb && (u.Lst? || u.Str?) && u.a < |o.h| && ExternalObject(o, u.a)
    ensures Image(o, k, t, u)
  {
  }

  lemma VarHas(k: Copy, c: int, n: int)
    ensures c in WithVar(k, c, n).fw && WithVar(k, c, n).fw[c] == n
  {
  }

  lemma UnbImage(o: Old, k: Copy)
    ensures Image(o, k, Unb, Unb)
  {
  }

  lemma HeadHome(o: Old, a: int)
    requires WellFormed(o) && (IsPair(o, a) || IsStruct(o, a))
    ensures Home(o, a) == a
  {
    assert IsPair(o, a) ==> PairOk(o, a);
    assert IsStruct(o, a) ==> StructOk(o, a);
  }

  /** Old words that have not been forwarded. */
  ghost function Left(o: Old, k: Copy): set<int> {
    set a | 0 <= a < |o.h| && a !in k.fw
  }

  lemma LeftLess(o: Old, k: Copy, j: Copy, a: int)
    requires Grows(k, j) && 0 <= a < |o.h| && a in j.fw && a !in k.fw
    ensures Left(o, j) < Left(o, k)
  {
    assert a in Left(o, k) && a !in Left(o, j);
  }

  lemma GrowsTwice(k: Copy, j: Copy, l: Copy)
    requires Grows(k, j) && Grows(j, l)
    ensures Grows(k, l)
  {
  }

  lemma AppendedLonger(o: Old, m: Mem, w: Mem, lo: int, hi: int, first: int)
    requires Appended(o, m, w, lo, hi, first)
    ensures |w| == |m| + (hi - lo) && |w| > |m|
  {
  }

  lemma PushFirst(o: Old, m: Mem, a: int, pair: bool)
    requires IsPair(o, a) <==> pair
    ensures FirstCell(o, |m|, a) == if pair then |m| else |m| + 1
  {
  }

  lemma PushBefore(o: Old, k: Copy, m: Mem, saved: seq<int>, path: Path, t: Tag, base: int, loc: int)
    requires Scanning(o, k, m, saved, path, t, base, loc)
    ensures Consistent(o, k, m)
  {
  }

  lemma PushMore(o: Old, j: Copy, n: int, a: int, hi: int)
    requires a < hi
    ensures a in Extended(o, j, n, a, hi).fw
  {
    assert OldForwarded(o, a, hi, a);
  }
}
