/** The scavenger: it copies everything reachable from a block of roots with a
    stack threaded through the copies by reversed pointers. */
module GcScan {
  import opened GcHeap

  /** The threaded stack as it is meant: for every block left half done its
      base, the location whose pointer is reversed, and the tag of the block. */
  datatype Path = Root | Up(rest: Path, base: int, loc: int, tag: Tag)

  function PrevLoc(path: Path): int {
    match path
    case Root => ROOT
    case Up(_, _, loc, _) => loc
  }

  /** The pointer to a block, by the tag it was reached with. */
  function BlockPtr(tag: Tag, base: int): Term {
    match tag
    case LST => Lst(base)
    case STR => Str(base - 1)
  }

  /** Locations lo up to hi still hold the old terms, the first one marked. */
  ghost predicate Waiting(k: Copy, m: Mem, base: int, hi: int) {
    forall q :: base <= q < hi && 0 <= q < |m| ==> q in k.raw && m[q] == Cell(k.raw[q], q == base)
  }

  /** The reversed pointers spell out the path: each holds the location before
      it on the path, the tag of its block, and whether it is the block's first;
      and the pointer it stands for is the image of the old term. */
  ghost predicate Threaded(o: Old, k: Copy, m: Mem, path: Path, tag: Tag, base: int) {
    match path
    case Root => true
    case Up(rest, b, loc, t) =>
      && |o.h| <= b <= loc < base && loc < |m| && loc in k.raw
      && m[loc] == Rev(PrevLoc(rest), t, loc == b)
      && Waiting(k, m, b, loc) && PrevLoc(rest) < b
      && Image(o, k, k.raw[loc], BlockPtr(tag, base))
      && Threaded(o, k, m, rest, t, b)
  }

  /** Location n is on the path or waits in one of its blocks. */
  predicate Open(path: Path, n: int) {
    match path
    case Root => false
    case Up(rest, b, loc, _) => b <= n <= loc || Open(rest, n)
  }

  /** Location n holds the image of its old term; a variable that is still the
      old one is on the reference stack. */
  ghost predicate Finished(o: Old, k: Copy, m: Mem, saved: seq<int>, n: int)
    requires n in k.raw
  {
    && 0 <= n < |m| && m[n].Cell? && !m[n].mark && Image(o, k, k.raw[n], m[n].t)
    && (m[n].t.Ref? && m[n].t.a < |o.h| && !External(o, m[n].t.a) ==> n in saved)
  }

  /** The block at base is scanned down from loc, below the blocks of the path;
      everything else is finished. */
  ghost predicate Scanning(o: Old, k: Copy, m: Mem, saved: seq<int>, path: Path, tag: Tag, base: int, loc: int) {
    && WellFormed(o) && Consistent(o, k, m) && Whole(o, k)
    && Threaded(o, k, m, path, tag, base) && PrevLoc(path) < base && |o.h| <= base && base - 1 <= loc < |m|
    && Waiting(k, m, base, loc + 1)
    && (forall n :: n in k.raw && !(base <= n <= loc) && !Open(path, n) ==> Finished(o, k, m, saved, n))
  }

  // ------------------------------------------------ frames

  lemma {:induction false} OpenBelow(o: Old, k: Copy, m: Mem, path: Path, tag: Tag, base: int, n: int)
    requires Threaded(o, k, m, path, tag, base) && Open(path, n)
    ensures n <= PrevLoc(path) < base || (path == Root)
    decreases path
  {
    match path
    case Root =>
    case Up(rest, b, loc, t) =>
      if Open(rest, n) {
        OpenBelow(o, k, m, rest, t, b, n);
      }
  }

  /** The path does not depend on locations above its last one, and stays as
      the copy grows. */
  lemma {:induction false} ThreadKeeps(o: Old, k: Copy, j: Copy, m: Mem, t: Mem, path: Path, tag: Tag, base: int)
    requires Threaded(o, k, m, path, tag, base) && Grows(k, j) && |m| <= |t|
    requires forall q :: |o.h| <= q < |m| && q < base ==> t[q] == m[q]
    ensures Threaded(o, j, t, path, tag, base)
    decreases path
  {
    match path
    case Root =>
    case Up(rest, b, loc, tg) =>
      ImageGrows(o, k, j, k.raw[loc], BlockPtr(tag, base));
      ThreadKeeps(o, k, j, m, t, rest, tg, b);
  }

  lemma SelfGrows(k: Copy)
    ensures Grows(k, k)
  {
  }

  lemma FinishedKeeps(o: Old, k: Copy, j: Copy, m: Mem, t: Mem, saved: seq<int>, more: seq<int>, n: int)
    requires n in k.raw && Finished(o, k, m, saved, n) && Grows(k, j)
    requires |m| <= |t| && t[n] == m[n] && forall x :: x in saved ==> x in more
    ensures n in j.raw && Finished(o, j, t, more, n)
  {
    ImageGrows(o, k, j, k.raw[n], m[n].t);
    hide Image;
  }

  /** A write to a location that stands for a term keeps the copy consistent. */
  lemma WriteConsistent(o: Old, k: Copy, m: Mem, p: int, w: Word)
    requires WellFormed(o) && Consistent(o, k, m) && p in k.raw
    ensures Consistent(o, k, m[p := w])
  {
    var t := m[p := w];
    hide WellFormed;
    forall a | 0 <= a < |o.h|
      ensures OldWord(o, k, t, a)
    {
      assert OldWord(o, k, m, a);
    }
    forall a | a in k.fw
      ensures Placed(o, k, t, a)
    {
      assert Placed(o, k, m, a);
    }
    forall a | a in k.done
      ensures a in k.fw && ObjectCopied(o, k, t, a)
    {
      assert Placed(o, k, m, a) && ObjectCopied(o, k, m, a);
      forall c, e | Object(o, a, e) && a <= c < e && 0 <= c < |o.h|
        ensures WordCopied(o, k, t, a, c)
      {
        assert WordCopied(o, k, m, a, c);
        if o.h[c].Functor? {
          HeaderFirst(o, a, e, c);
        }
      }
    }
  }

  lemma HeaderFirst(o: Old, a: int, e: int, c: int)
    requires WellFormed(o) && Object(o, a, e) && a <= c < e && 0 <= c < |o.h| && o.h[c].Functor?
    ensures c == a
  {
    if IsPair(o, a) {
      assert PairOk(o, a);
    } else {
      assert StructOk(o, a);
      assert c > a ==> IsCell(o, c);
    }
  }

  // ------------------------------------------------ steps of the scan

  lemma ScanParts(o: Old, k: Copy, m: Mem, saved: seq<int>, path: Path, tag: Tag, base: int, loc: int)
    requires Scanning(o, k, m, saved, path, tag, base, loc)
    ensures WellFormed(o) && Consistent(o, k, m) && Whole(o, k) && Threaded(o, k, m, path, tag, base)
    ensures PrevLoc(path) < base && |o.h| <= base && base - 1 <= loc < |m| && Waiting(k, m, base, loc + 1)
    ensures forall n :: n in k.raw && !(base <= n <= loc) && !Open(path, n) ==> Finished(o, k, m, saved, n)
  {
  }

  lemma MakeScanning(o: Old, k: Copy, m: Mem, saved: seq<int>, path: Path, tag: Tag, base: int, loc: int)
    requires WellFormed(o) && Consistent(o, k, m) && Whole(o, k) && Threaded(o, k, m, path, tag, base)
    requires PrevLoc(path) < base && |o.h| <= base && base - 1 <= loc < |m| && Waiting(k, m, base, loc + 1)
    requires forall n :: n in k.raw && !(base <= n <= loc) && !Open(path, n) ==> Finished(o, k, m, saved, n)
    ensures Scanning(o, k, m, saved, path, tag, base, loc)
  {
  }

  lemma ThreadTop(o: Old, k: Copy, m: Mem, path: Path, tag: Tag, base: int)
    requires Threaded(o, k, m, path, tag, base) && path.Up?
    ensures |o.h| <= path.base <= path.loc < base && path.loc < |m| && path.loc in k.raw
    ensures m[path.loc] == Rev(PrevLoc(path.rest), path.tag, path.loc == path.base)
    ensures Waiting(k, m, path.base, path.loc) && PrevLoc(path.rest) < path.base && PrevLoc(path) == path.loc
    ensures Image(o, k, k.raw[path.loc], BlockPtr(tag, base)) && Threaded(o, k, m, path.rest, path.tag, path.base)
  {
  }

  lemma WaitingKeeps(k: Copy, m: Mem, t: Mem, base: int, hi: int, less: int)
    requires Waiting(k, m, base, hi) && less <= hi && |t| == |m| && forall q :: base <= q < less && 0 <= q < |m| ==>
             t[q] == m[q]
    ensures Waiting(k, t, base, less)
  {
  }

  /** A location has got its final word: everything finished still is. */
  lemma OthersFinished(o: Old, k: Copy, m: Mem, saved: seq<int>, more: seq<int>, p: int, u: Term, n: int)
    requires Consistent(o, k, m) && p in k.raw && 0 <= p < |m| && n in k.raw && (n != p ==> Finished(o, k, m, saved, n))
    requires Image(o, k, k.raw[p], u) && (u.Ref? && u.a < |o.h| && !External(o, u.a) ==> p in more)
             && forall x :: x in saved ==> x in more
    ensures Finished(o, k, m[p := Cell(u, false)], more, n)
  {
    hide Image, Consistent;
  }

  /** The location scanned gets the image of its term. */
  lemma FinishStep(o: Old, k: Copy, m: Mem, saved: seq<int>, more: seq<int>, path: Path, tag: Tag, base: int,
    loc: int, u: Term)
    requires Scanning(o, k, m, saved, path, tag, base, loc) && base <= loc && loc in k.raw
    requires Image(o, k, k.raw[loc], u) && (u.Ref? && u.a < |o.h| && !External(o, u.a) ==> loc in more)
             && forall x :: x in saved ==> x in more
    ensures 0 <= loc < |m| && Scanning(o, k, m[loc := Cell(u, false)], more, path, tag, base, loc - 1)
  {
    hide *;
    ScanParts(o, k, m, saved, path, tag, base, loc);
    var t := m[loc := Cell(u, false)];
    SelfGrows(k);
    WriteConsistent(o, k, m, loc, Cell(u, false));
    ThreadKeeps(o, k, k, m, t, path, tag, base);
    WaitingKeeps(k, m, t, base, loc + 1, loc);
    forall n | n in k.raw && !(base <= n <= loc - 1) && !Open(path, n)
      ensures Finished(o, k, t, more, n)
    {
      OthersFinished(o, k, m, saved, more, loc, u, n);
    }
    MakeScanning(o, k, t, more, path, tag, base, loc - 1);
  }

  lemma OpenUp(path: Path, n: int)
    requires path.Up?
    ensures Open(path, n) <==> path.base <= n <= path.loc || Open(path.rest, n)
  {
  }

  lemma BlockPtrKind(tag: Tag, base: int)
    ensures !BlockPtr(tag, base).Ref?
  {
  }

  /** A block is done: the pointer to it takes the place of the reversed one,
      and the block below goes on. */
  lemma PopStep(o: Old, k: Copy, m: Mem, saved: seq<int>, path: Path, tag: Tag, base: int)
    requires Scanning(o, k, m, saved, path, tag, base, base - 1) && path.Up?
    ensures 0 <= path.loc < |m| && m[path.loc] == Rev(PrevLoc(path.rest), path.tag, path.loc == path.base)
    ensures Scanning(o, k, m[path.loc := Cell(BlockPtr(tag, base), false)], saved, path.rest, path.tag, path.base,
            path.loc - 1)
  {
    hide *;
    ScanParts(o, k, m, saved, path, tag, base, base - 1);
    ThreadTop(o, k, m, path, tag, base);
    var p, u := path.loc, BlockPtr(tag, base);
    var t := m[p := Cell(u, false)];
    SelfGrows(k);
    WriteConsistent(o, k, m, p, Cell(u, false));
    ThreadKeeps(o, k, k, m, t, path.rest, path.tag, path.base);
    WaitingKeeps(k, m, t, path.base, p, p);
    BlockPtrKind(tag, base);
    forall n | n in k.raw && !(path.base <= n <= p - 1) && !Open(path.rest, n)
      ensures Finished(o, k, t, saved, n)
    {
      OpenUp(path, n);
      OthersFinished(o, k, m, saved, saved, p, u, n);
    }
    MakeScanning(o, k, t, saved, path.rest, path.tag, path.base, p - 1);
  }

  /** What the first pointer to an object turns into. */
  lemma ObjectImage(o: Old, k: Copy, n: int, lo: int, hi: int, t: Term)
    requires WellFormed(o) && Object(o, lo, hi) && n >= |o.h| && t != Unb
    requires Deref(o, t) == if IsPair(o, lo) then Lst(lo) else Str(lo)
    ensures Image(o, Extended(o, k, n, lo, hi), t, if IsPair(o, lo) then Lst(n) else Str(n))
  {
    assert IsStruct(o, lo) ==> StructOk(o, lo);
    hide Deref, WellFormed;
    assert OldForwarded(o, lo, hi, lo) && InCopy(n, lo, hi, n);
  }

  /** The object a pointer at loc leads to has been copied to the end of
      memory, and the pointer is reversed: the copy is scanned next. */
  lemma PushStep(o: Old, k: Copy, m: Mem, t: Mem, saved: seq<int>, path: Path, tag: Tag, base: int, loc: int,
    lo: int, hi: int)
    requires Scanning(o, k, m, saved, path, tag, base, loc) && base <= loc && loc in k.raw && k.raw[loc] != Unb
    requires !ExternalObject(o, lo)
    requires Object(o, lo, hi) && lo !in k.fw && Deref(o, k.raw[loc]) == if IsPair(o, lo) then Lst(lo) else Str(lo)
    requires Appended(o, m, t, lo, hi, FirstCell(o, |m|, lo))
    ensures var w := t[loc := Rev(PrevLoc(path), tag, loc == base)];
            Scanning(o, Extended(o, k, |m|, lo, hi), w, saved, Up(path, base, loc, tag),
                     if IsPair(o, lo) then LST else STR, FirstCell(o, |m|, lo), |t| - 1)
  {
    hide *;
    var j := Extended(o, k, |m|, lo, hi);
    ScanParts(o, k, m, saved, path, tag, base, loc);
    LeadsBy(o, k.raw[loc], lo);
    PushShape(o, k, m, t, saved, path, tag, base, loc, lo, hi);
    var w := t[loc := Rev(PrevLoc(path), tag, loc == base)];
    PushPath(o, k, m, t, saved, path, tag, base, loc, lo, hi);
    PushWaiting(o, k, m, t, w, lo, hi, loc);
    forall n | n in j.raw && !(FirstCell(o, |m|, lo) <= n <= |t| - 1) && !Open(Up(path, base, loc, tag), n)
      ensures Finished(o, j, w, saved, n)
    {
      OpenUp(Up(path, base, loc, tag), n);
      PushOld(o, k, m, t, lo, hi, n);
      FinishedKeeps(o, k, j, m, w, saved, saved, n);
    }
    PrevUp(path, base, loc, tag);
    MakeScanning(o, j, w, saved, Up(path, base, loc, tag), if IsPair(o, lo) then LST
      else STR, FirstCell(o, |m|, lo), |t| - 1);
  }

  lemma LeadsBy(o: Old, t: Term, lo: int)
    requires Deref(o, t) == if IsPair(o, lo) then Lst(lo) else Str(lo)
    ensures LeadsTo(o, t, lo)
  {
  }

  lemma PrevUp(path: Path, base: int, loc: int, tag: Tag)
    ensures PrevLoc(Up(path, base, loc, tag)) == loc
  {
  }

  lemma FirstCellAt(o: Old, n: int, lo: int)
    ensures n <= FirstCell(o, n, lo) <= n + 1
  {
  }

  lemma AppendedSize(o: Old, m: Mem, t: Mem, lo: int, hi: int, first: int)
    requires Appended(o, m, t, lo, hi, first)
    ensures |t| == |m| + (hi - lo) && lo < hi && |o.h| <= |m| && forall q :: |o.h| <= q < |m| ==> t[q] == m[q]
  {
  }

  lemma PushShape(o: Old, k: Copy, m: Mem, t: Mem, saved: seq<int>, path: Path, tag: Tag, base: int, loc: int,
    lo: int, hi: int)
    requires Scanning(o, k, m, saved, path, tag, base, loc) && base <= loc && loc in k.raw
    requires !ExternalObject(o, lo)
    requires Object(o, lo, hi) && lo !in k.fw && Appended(o, m, t, lo, hi, FirstCell(o, |m|, lo))
    requires LeadsTo(o, k.raw[loc], lo)
    ensures loc < |m| == |t| - (hi - lo) && 0 <= loc && lo < hi && |o.h| <= |m| <= FirstCell(o, |m|, lo) <= |t|
    ensures var j, w := Extended(o, k, |m|, lo, hi), t[loc := Rev(PrevLoc(path), tag, loc == base)];
            && Consistent(o, j, w) && Whole(o, j) && Grows(k, j)
            && (forall q :: |o.h| <= q < |m| && q != loc ==> w[q] == m[q])
            && (forall q :: 0 <= q < |t| && q != loc ==> w[q] == t[q])
  {
    hide *;
    var j := Extended(o, k, |m|, lo, hi);
    ScanParts(o, k, m, saved, path, tag, base, loc);
    FirstCellAt(o, |m|, lo);
    AppendedSize(o, m, t, lo, hi, FirstCell(o, |m|, lo));
    ExtendedGrows(o, k, m, lo, hi);
    ExtendedWhole(o, k, |m|, lo, hi);
    AppendedConsistent(o, k, m, t, lo, hi, FirstCell(o, |m|, lo), loc);
    RawGrows(k, j, loc);
    WriteConsistent(o, j, t, loc, Rev(PrevLoc(path), tag, loc == base));
  }

  lemma RawGrows(k: Copy, j: Copy, n: int)
    requires Grows(k, j) && n in k.raw
    ensures n in j.raw && j.raw[n] == k.raw[n]
  {
  }

  lemma PushPath(o: Old, k: Copy, m: Mem, t: Mem, saved: seq<int>, path: Path, tag: Tag, base: int, loc: int,
    lo: int, hi: int)
    requires Scanning(o, k, m, saved, path, tag, base, loc) && base <= loc && loc in k.raw && k.raw[loc] != Unb
    requires !ExternalObject(o, lo)
    requires Object(o, lo, hi) && lo !in k.fw && Deref(o, k.raw[loc]) == if IsPair(o, lo) then Lst(lo) else Str(lo)
    requires Appended(o, m, t, lo, hi, FirstCell(o, |m|, lo))
    ensures Threaded(o, Extended(o, k, |m|, lo, hi), t[loc := Rev(PrevLoc(path), tag, loc == base)],
                     Up(path, base, loc, tag), if IsPair(o, lo) then LST else STR, FirstCell(o, |m|, lo))
  {
    var j := Extended(o, k, |m|, lo, hi);
    var w := t[loc := Rev(PrevLoc(path), tag, loc == base)];
    PushShape(o, k, m, t, saved, path, tag, base, loc, lo, hi);
    ObjectImage(o, k, |m|, lo, hi, k.raw[loc]);
    hide WellFormed, Consistent, Whole, Image, Extended, Deref, Finished, ExternalObject;
    ThreadKeeps(o, k, j, m, w, path, tag, base);
    PushThreaded(o, k, m, t, saved, path, tag, base, loc, lo, hi);
  }

  /** The first location of a copy that is scanned. */
  function FirstCell(o: Old, n: int, lo: int): int {
    if IsPair(o, lo) then n else n + 1
  }

  lemma PushThreaded(o: Old, k: Copy, m: Mem, t: Mem, saved: seq<int>, path: Path, tag: Tag, base: int, loc: int,
    lo: int, hi: int)
    requires Scanning(o, k, m, saved, path, tag, base, loc) && base <= loc && loc in k.raw
    requires Object(o, lo, hi) && Appended(o, m, t, lo, hi, FirstCell(o, |m|, lo))
    requires var j := Extended(o, k, |m|, lo, hi);
             Grows(k, j) && Threaded(o, j, t[loc := Rev(PrevLoc(path), tag, loc == base)], path, tag, base) &&
             Image(o, j, k.raw[loc], if IsPair(o, lo) then Lst(|m|) else Str(|m|))
    ensures Threaded(o, Extended(o, k, |m|, lo, hi), t[loc := Rev(PrevLoc(path), tag, loc == base)],
                     Up(path, base, loc, tag), if IsPair(o, lo) then LST else STR, FirstCell(o, |m|, lo))
  {
    hide Image, Consistent, WellFormed, Whole, Extended, Finished;
  }

  lemma PushWaiting(o: Old, k: Copy, m: Mem, t: Mem, w: Mem, lo: int, hi: int, loc: int)
    requires WellFormed(o) && Object(o, lo, hi) && Appended(o, m, t, lo, hi, FirstCell(o, |m|, lo))
    requires |w| == |t| && 0 <= loc < |m| && forall q :: 0 <= q < |t| && q != loc ==> w[q] == t[q]
    ensures Waiting(Extended(o, k, |m|, lo, hi), w, FirstCell(o, |m|, lo), |t|)
  {
    var j, first := Extended(o, k, |m|, lo, hi), FirstCell(o, |m|, lo);
    forall q | first <= q < |t|
      ensures q in j.raw && w[q] == Cell(j.raw[q], q == first)
    {
      var c := Source(|m|, lo, q);
      ArgIsCell(o, lo, hi, c);
      assert NewCell(o, |m|, lo, hi, q);
      assert t[q] == NewWord(o, |m|, lo, q, first);
    }
  }

  /** All words of an object but a header are cells. */
  lemma ArgIsCell(o: Old, lo: int, hi: int, c: int)
    requires WellFormed(o) && Object(o, lo, hi) && lo <= c < hi && (IsPair(o, lo) || c > lo)
    ensures IsCell(o, c)
  {
    if IsPair(o, lo) {
      assert PairOk(o, lo);
    } else {
      assert StructOk(o, lo);
    }
  }

  lemma PushOld(o: Old, k: Copy, m: Mem, t: Mem, lo: int, hi: int, n: int)
    requires WellFormed(o) && Consistent(o, k, m) && Object(o, lo, hi)
             && Appended(o, m, t, lo, hi, FirstCell(o, |m|, lo))
    requires n in Extended(o, k, |m|, lo, hi).raw && !(FirstCell(o, |m|, lo) <= n < |t|)
    ensures n in k.raw && |o.h| <= n < |m| && t[n] == m[n]
  {
    assert NewCell(o, |m|, lo, hi, n) ==> n == |m| && !IsPair(o, lo);
    assert IsPair(o, lo) || o.h[lo].Functor?;
    assert !NewCell(o, |m|, lo, hi, n);
  }

  // ------------------------------------------------ the reference stack

  /** The locations on the reference stack, each once, hold references to
      variables of old space and are done with. */
  ghost predicate Deferred(o: Old, k: Copy, m: Mem, saved: seq<int>) {
    && (forall i, j :: 0 <= i < j < |saved| ==> saved[i] != saved[j])
    && (forall i :: 0 <= i < |saved| ==> DeferredAt(o, k, m, saved[i]))
  }

  predicate DeferredAt(o: Old, k: Copy, m: Mem, n: int) {
    n in k.raw && 0 <= n < |m| && m[n].Cell? && m[n].t.Ref? && 0 <= m[n].t.a < |o.h| && !External(o, m[n].t.a)
  }

  /** No location on the reference stack is still to be written. */
  ghost predicate Closed(saved: seq<int>, path: Path, base: int, loc: int) {
    forall i :: 0 <= i < |saved| ==> !(base <= saved[i] <= loc) && !Open(path, saved[i])
  }

  lemma FinishDeferred(o: Old, k: Copy, m: Mem, saved: seq<int>, path: Path, base: int, loc: int, u: Term, defer: bool)
    requires Deferred(o, k, m, saved) && Closed(saved, path, base, loc) && base <= loc < |m| && 0 <= loc && loc in k.raw
    requires !Open(path, loc) && (defer ==> u.Ref? && 0 <= u.a < |o.h| && !External(o, u.a))
    ensures var more := if defer then saved + [loc] else saved;
            Deferred(o, k, m[loc := Cell(u, false)], more) && Closed(more, path, base, loc - 1)
  {
    var more := if defer then saved + [loc] else saved;
    forall i | 0 <= i < |more|
      ensures DeferredAt(o, k, m[loc := Cell(u, false)], more[i])
    {
      if i < |saved| {
        assert DeferredAt(o, k, m, saved[i]);
      }
    }
  }

  lemma PopDeferred(o: Old, k: Copy, m: Mem, saved: seq<int>, path: Path, base: int, w: Word)
    requires Deferred(o, k, m, saved) && Closed(saved, path, base, base - 1) && path.Up? && path.base <= path.loc
             && 0 <= path.loc < |m|
    ensures Deferred(o, k, m[path.loc := w], saved) && Closed(saved, path.rest, path.base, path.loc - 1)
  {
    forall i | 0 <= i < |saved|
      ensures DeferredAt(o, k, m[path.loc := w], saved[i])
    {
      assert DeferredAt(o, k, m, saved[i]) && !Open(path, saved[i]);
    }
  }

  lemma PushDeferred(o: Old, k: Copy, j: Copy, m: Mem, w: Mem, saved: seq<int>, path: Path, tag: Tag, base: int,
    loc: int, first: int)
    requires Deferred(o, k, m, saved) && Closed(saved, path, base, loc) && base <= loc && Grows(k, j) && |m| <= |w|
             && |m| <= first
    requires Consistent(o, k, m) && forall q :: |o.h| <= q < |m| && q != loc ==> w[q] == m[q]
    ensures Deferred(o, j, w, saved) && Closed(saved, Up(path, base, loc, tag), first, |w| - 1)
  {
    forall i | 0 <= i < |saved|
      ensures DeferredAt(o, j, w, saved[i]) && saved[i] < first
    {
      assert DeferredAt(o, k, m, saved[i]);
    }
  }

  // ------------------------------------------------ after the collection

  /** A location that is final for good: no reference to old space is left but
      for external variables. */
  ghost predicate SettledAt(o: Old, k: Copy, m: Mem, n: int)
    requires n in k.raw
  {
    && 0 <= n < |m| && m[n].Cell? && !m[n].mark && Image(o, k, k.raw[n], m[n].t)
    && (m[n].t.Ref? ==> m[n].t.a >= |o.h| || External(o, m[n].t.a))
  }

  ghost predicate Settled(o: Old, k: Copy, m: Mem) {
    forall n :: n in k.raw ==> SettledAt(o, k, m, n)
  }
}
