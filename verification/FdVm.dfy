/** The range evaluator itself: a value stack of numbers and addresses, and a
    heap of domain blocks that grows and shrinks with it. */
module FdVm {
  import opened FdWords
  import opened FdExpr
  import opened FdArith
  import opened FdCode
  import opened FdMachine
  import opened FdVar
  import opened FdElement

  /** The domain computed: an interval, or the block at word d whose words after
      the one numbered lm are zero. */
  datatype DomStruct = Aborted | IntervalT(lo: int, hi: int) | DomainT(d: int, lm: int)

  ghost function Doms(args: seq<Fd>): (b: Args)
    ensures |b| == |args|
  {
    seq(|args|, i requires 0 <= i < |args| => DomOf(args[i]))
  }

  ghost predicate AllValid(args: seq<Fd>) {
    forall i :: 0 <= i < |args| ==> ValidFd(args[i])
  }

  /** The set in block k of the heap words. */
  ghost function BlockSet(ws: seq<Word>, k: int): set<int> {
    if 0 <= 8 * k && 8 * k + 8 <= |ws| then SetOf(ws[8 * k..8 * k + 8]) else {}
  }

  /** The sets in the first n blocks. */
  ghost function Blocks(ws: seq<Word>, n: int): seq<set<int>> {
    if n <= 0 then [] else Blocks(ws, n - 1) + [BlockSet(ws, n - 1)]
  }

  lemma {:induction false} BlocksAt(ws: seq<Word>, n: int, k: int)
    requires 0 <= k < n
    ensures |Blocks(ws, n)| == n && Blocks(ws, n)[k] == BlockSet(ws, k)
  {
    if k < n - 1 {
      BlocksAt(ws, n - 1, k);
    } else if n > 1 {
      BlocksAt(ws, n - 1, 0);
    }
  }

  /** The words outside block k are the same. */
  ghost predicate OneDiffers(ws: seq<Word>, us: seq<Word>, k: int) {
    |ws| == |us| && 0 <= 8 * k && 8 * k + 8 <= |ws| &&
    forall q :: 0 <= q < |ws| && !(8 * k <= q < 8 * k + 8) ==> us[q] == ws[q]
  }

  lemma OneBlockSet(ws: seq<Word>, us: seq<Word>, k: int, i: int)
    requires OneDiffers(ws, us, k) && i != k
    ensures BlockSet(us, i) == BlockSet(ws, i)
  {
    hide SetOf;
    if 0 <= 8 * i && 8 * i + 8 <= |ws| {
      assert us[8 * i..8 * i + 8] == ws[8 * i..8 * i + 8];
    }
  }

  /** A change of block k changes that one set. */
  lemma OneBlock(ws: seq<Word>, us: seq<Word>, hp: seq<set<int>>, k: int)
    requires OneDiffers(ws, us, k) && hp == Blocks(ws, |hp|) && 0 <= k
    ensures k < |hp| ==> Blocks(us, |hp|) == hp[k := BlockSet(us, k)]
    ensures k >= |hp| ==> Blocks(us, |hp|) == hp
  {
    hide BlockSet, OneDiffers;
    var n := |hp|;
    if n > 0 {
      BlocksAt(us, n, 0);
      var r := if k < n then hp[k := BlockSet(us, k)] else hp;
      forall i | 0 <= i < n
        ensures Blocks(us, n)[i] == r[i]
      {
        BlocksAt(us, n, i);
        BlocksAt(ws, n, i);
        if i != k {
          OneBlockSet(ws, us, k, i);
        }
      }
      assert Blocks(us, n) == r;
    }
  }

  lemma BlocksShorter(ws: seq<Word>, hp: seq<set<int>>)
    requires hp == Blocks(ws, |hp|) && hp != []
    ensures hp[..|hp| - 1] == Blocks(ws, |hp| - 1)
  {
  }

  /** Zero words at the end hold nothing. */
  lemma DropZeros(ws: seq<Word>, n: int)
    requires 0 <= n <= |ws| && forall q :: n <= q < |ws| ==> !NonZero(ws[q])
    ensures SetOf(ws[..n]) == SetOf(ws)
  {
    ShowsSetOf(ws);
    var us, s := ws[..n], SetOf(ws);
    forall v | v in s
      ensures 0 <= v < 32 * n
    {
      MemberWord(ws, s, v);
    }
    forall a, b | 0 <= a < n && 0 <= b < 32
      ensures us[a][b] == (32 * a + b in s)
    {
      assert ws[a][b] == (32 * a + b in s);
    }
    ShowsOne(us, s);
  }

  class Evaluator {
    const vStack: array<int>
    const bHeap: array<Word>
    /** The two stack tops, in numbers and in words. */
    var v: int
    var b: int

    ghost predicate Valid()
      reads this
    {
      vStack.Length == VStack && bHeap.Length == 8 * NrDoms && 0 <= v <= VStack && 0 <= b <= 8 * NrDoms && b % 8 == 0
    }

    /** The stacks hold those of the abstract machine. */
    ghost predicate Holds(st: St)
      reads this, vStack, bHeap
    {
      Valid() && v == |st.vs| && vStack[..v] == st.vs && b == 8 * |st.hp| && Blocks(bHeap[..], |st.hp|) == st.hp
    }

    constructor ()
      ensures Valid() && fresh(vStack) && fresh(bHeap)
    {
      vStack := new int[VStack](_ => 0);
      bHeap := new Word[8 * NrDoms](_ => Zero());
      v, b := 0, 0;
    }

    method PushNumber(n: int, ghost st: St)
      requires Holds(st) && v < VStack
      modifies this`v, vStack
      ensures Holds(St(st.pc, st.vs + [n], st.hp))
    {
      vStack[v] := n;
      v := v + 1;
      assert vStack[..v] == old(vStack[..v]) + [n];
    }

    /** Pushes the block at the top of the heap, which holds s. */
    method PushBlock(ghost s: set<int>, ghost st: St)
      requires Holds(st) && v < VStack && b < 8 * NrDoms && SetOf(Block(bHeap, b)) == s
      modifies this`v, this`b, vStack
      ensures Holds(St(st.pc, st.vs + [8 * |st.hp|], st.hp + [s]))
    {
      vStack[v] := b;
      v := v + 1;
      assert vStack[..v] == old(vStack[..v]) + [b];
      assert BlockSet(bHeap[..], |st.hp|) == s;
      b := b + 8;
    }

    /** Replaces the two top numbers by one. */
    method Replace(n: int, ghost st: St)
      requires Holds(st) && v >= 2
      modifies this`v, vStack
      ensures Holds(St(st.pc, st.vs[..|st.vs| - 2] + [n], st.hp))
    {
      vStack[v - 2] := n;
      v := v - 1;
      assert vStack[..v] == old(vStack[..v])[..v - 1] + [n];
    }

    /** The two operands: X on top, Y below. */
    lemma Operands(st: St)
      requires Holds(st) && v >= 2
      ensures vStack[v - 1] == st.vs[|st.vs| - 1] && vStack[v - 2] == st.vs[|st.vs| - 2]
    {
    }

    /** What a change of block k does to the sets on the heap. */
    lemma Edited(st: St, k: int, ws: seq<Word>)
      requires Valid() && v == |st.vs| && vStack[..v] == st.vs && b == 8 * |st.hp| && Blocks(ws, |st.hp|) == st.hp
      requires 0 <= k && 8 * k + 8 <= bHeap.Length && OneDiffers(ws, bHeap[..], k)
      ensures k < |st.hp| ==> Holds(St(st.pc, st.vs, st.hp[k := SetOf(Block(bHeap, 8 * k))]))
      ensures k >= |st.hp| ==> Holds(st)
    {
      OneBlock(ws, bHeap[..], st.hp, k);
      assert bHeap[..][8 * k..8 * k + 8] == bHeap[8 * k..8 * k + 8];
    }

    /** An address that the heap does not hold is outside what C defines. */
    predicate OnHeap(r: int)
      reads this
    {
      0 <= r < b && r % 8 == 0
    }

    lemma AddressSet(st: St, r: int)
      requires Holds(st) && OnHeap(r)
      ensures IsAddr(r, st.hp) && r + 8 <= bHeap.Length
      ensures SetOf(Block(bHeap, r)) == st.hp[r / 8]
    {
      BlocksAt(bHeap[..], |st.hp|, r / 8);
      assert bHeap[..][r..r + 8] == bHeap[r..r + 8];
    }

    /** R + X, R - X and R mod X. */
    method DoMove(op: ByOp, ghost st: St) returns (ok: bool)
      requires Holds(st) && v >= 2
      modifies this`v, vStack, bHeap
      ensures var n := |st.vs|;
              var r1, r2 := st.vs[n - 1], st.vs[n - 2];
              && (ok <==> IsAddr(r1, st.hp) && NumberFits(op, r2))
              && (ok ==> Holds(St(st.pc, st.vs[..n - 2] + [r1], st.hp[r1 / 8 := MovedBy(op, st.hp[r1 / 8], r2)])))
    {
      Operands(st);
      var r1, r2 := vStack[v - 1], vStack[v - 2];
      ok := OnHeap(r1) && NumberFits(op, r2);
      if ok {
        AddressSet(st, r1);
        hide SetOf, Shifted, Lowered, ModSet, Blocks;
        Replace(r1, st);
        MoveBlock(op, r1, r2, St(st.pc, st.vs[..|st.vs| - 2] + [r1], st.hp));
      }
    }

    method MoveBlock(op: ByOp, r1: int, r2: int, ghost st: St)
      requires Holds(st) && OnHeap(r1) && IsAddr(r1, st.hp) && NumberFits(op, r2)
      modifies bHeap
      ensures Holds(St(st.pc, st.vs, st.hp[r1 / 8 := MovedBy(op, st.hp[r1 / 8], r2)]))
    {
      AddressSet(st, r1);
      hide SetOf, Shifted, Lowered, ModSet, Blocks;
      ghost var ws := bHeap[..];
      match op {
        case Plus => var defined := BitAdd(bHeap, r1, r2);
        case Minus => var defined := BitSub(bHeap, r1, r2);
        case Modulo => BitMod(bHeap, r1, r2);
      }
      Edited(st, r1 / 8, ws);
    }

    /** X..Y within the universe. */
    method DoSpan(ghost st: St) returns (ok: bool)
      requires Holds(st) && v >= 2 && b < 8 * NrDoms
      modifies this`v, this`b, vStack, bHeap
      ensures var n := |st.vs|;
              var r1, r2 := st.vs[n - 1], st.vs[n - 2];
              && (ok <==> InReach(r1, r2))
              && (ok ==> Holds(St(st.pc, st.vs[..n - 2] + [8 * |st.hp|], st.hp + [Spanned(r1, r2)])))
    {
      Operands(st);
      var r1, r2 := vStack[v - 1], vStack[v - 2];
      hide SetOf, Blocks;
      v := v - 2;
      ghost var st1 := St(st.pc, st.vs[..|st.vs| - 2], st.hp);
      assert vStack[..v] == old(vStack[..v])[..v];
      ok := FillTop(r1, r2, st1);
      if ok {
        PushBlock(Spanned(r1, r2), st1);
      }
    }

    method FillTop(i: int, j: int, ghost st: St) returns (ok: bool)
      requires Holds(st) && b < 8 * NrDoms
      modifies bHeap
      ensures ok <==> InReach(i, j)
      ensures ok ==> Holds(st) && SetOf(Block(bHeap, b)) == Spanned(i, j)
    {
      hide SetOf, Blocks;
      ghost var ws := bHeap[..];
      ok := FillRange(i, j, bHeap, b);
      Edited(st, |st.hp|, ws);
    }

    /** R1 : R2 and R1 & R2: the result takes the place of R2, and R1, the
        newest block, is dropped. */
    method DoPair(op: PairOp, ghost st: St) returns (ok: bool)
      requires Holds(st) && v >= 2
      modifies this`v, this`b, bHeap
      ensures var n := |st.vs|;
              var r1, r2 := st.vs[n - 1], st.vs[n - 2];
              && (ok <==> r1 == 8 * (|st.hp| - 1) && IsAddr(r2, st.hp) && r1 != r2)
              && (ok ==> Holds(St(st.pc, st.vs[..n - 1],
                                  st.hp[..|st.hp| - 1][r2 / 8 := Combined(op, st.hp[r2 / 8], st.hp[r1 / 8])])))
    {
      Operands(st);
      var r1, r2 := vStack[v - 1], vStack[v - 2];
      ok := r1 == b - 8 && OnHeap(r2) && r1 != r2;
      if ok {
        AddressSet(st, r1);
        AddressSet(st, r2);
        BlocksShorter(bHeap[..], st.hp);
        hide SetOf, Blocks;
        v := v - 1;
        b := b - 8;
        ghost var st1 := St(st.pc, st.vs[..|st.vs| - 1], st.hp[..|st.hp| - 1]);
        assert vStack[..v] == old(vStack[..v])[..v];
        PairBlocks(op, r2, r1, st1);
      }
    }

    method PairBlocks(op: PairOp, r2: int, r1: int, ghost st: St)
      requires Holds(st) && OnHeap(r2) && IsAddr(r2, st.hp) && r1 == b <= bHeap.Length - 8
      modifies bHeap
      ensures Holds(St(st.pc, st.vs, st.hp[r2 / 8 := Combined(op, st.hp[r2 / 8], old(SetOf(Block(bHeap, r1))))]))
    {
      AddressSet(st, r2);
      hide SetOf, Blocks;
      ghost var ws := bHeap[..];
      if op == Union {
        BitUnion(bHeap, r2, r1);
      } else {
        BitIntersect(bHeap, r2, r1);
      }
      Edited(st, r2 / 8, ws);
    }

    /** min(R) and max(R). */
    method DoBound(least: bool, ghost st: St) returns (ok: bool)
      requires Holds(st) && v >= 1
      modifies this`v, this`b, vStack
      ensures var n := |st.vs|;
              var r1 := st.vs[n - 1];
              && (ok <==> IsAddr(r1, st.hp))
              && (ok ==> var s := st.hp[r1 / 8];
                         Holds(St(st.pc, st.vs[..n - 1] + [if least then RangeMin(s) else RangeMax(s)],
                           st.hp[..|st.hp| - 1])))
    {
      var r1 := vStack[v - 1];
      assert r1 == st.vs[|st.vs| - 1];
      ok := OnHeap(r1);
      if ok {
        AddressSet(st, r1);
        BlocksShorter(bHeap[..], st.hp);
        var m := BlockBound(least, bHeap[r1..r1 + 8]);
        hide SetOf, Blocks, RangeMin, RangeMax;
        v := v - 1;
        b := b - 8;
        ghost var st1 := St(st.pc, st.vs[..|st.vs| - 1], st.hp[..|st.hp| - 1]);
        assert vStack[..v] == old(vStack[..v])[..v];
        PushNumber(m, st1);
      }
    }

    method BlockBound(least: bool, ws: seq<Word>) returns (m: int)
      requires |ws| == 8
      ensures m == if least then RangeMin(SetOf(ws)) else RangeMax(SetOf(ws))
    {
      hide SetOf;
      assert ws[..8] == ws;
      if least {
        m := MinBit(ws, 7);
      } else {
        m := MaxBit(ws, 7);
      }
    }

    /** The complement of a set. */
    method DoCompl(ghost st: St) returns (ok: bool)
      requires Holds(st) && v >= 1
      modifies bHeap
      ensures var r1 := st.vs[|st.vs| - 1];
              && (ok <==> IsAddr(r1, st.hp))
              && (ok ==> Holds(St(st.pc, st.vs, st.hp[r1 / 8 := Universe() - st.hp[r1 / 8]])))
    {
      var r1 := vStack[v - 1];
      assert r1 == st.vs[|st.vs| - 1];
      ok := OnHeap(r1);
      if ok {
        AddressSet(st, r1);
        hide SetOf, Blocks;
        ghost var ws := bHeap[..];
        BitCompl(bHeap, r1);
        Edited(st, r1 / 8, ws);
      }
    }

    /** The test of a check: an empty set stays on the stack, any other one is
        popped. */
    method DoCheck(ghost st: St) returns (ok: bool, empty: bool)
      requires Holds(st) && v >= 1
      modifies this`v, this`b
      ensures var n := |st.vs|;
              var r1 := st.vs[n - 1];
              && (ok <==> IsAddr(r1, st.hp))
              && (ok ==> (empty <==> st.hp[r1 / 8] == {}))
              && (ok ==> Holds(if empty then st else St(st.pc, st.vs[..n - 1], st.hp[..|st.hp| - 1])))
    {
      var r1 := vStack[v - 1];
      assert r1 == st.vs[|st.vs| - 1];
      ok, empty := OnHeap(r1), true;
      if ok {
        AddressSet(st, r1);
        BlocksShorter(bHeap[..], st.hp);
        empty := IsEmptyBlock(r1);
        if !empty {
          v := v - 1;
          b := b - 8;
          assert vStack[..v] == old(vStack[..v])[..v];
        }
      }
    }

    lemma BlockIs(r1: int)
      requires 0 <= r1 <= bHeap.Length - 8
      ensures Block(bHeap, r1) == bHeap[r1..r1 + 8]
    {
    }

    method IsEmptyBlock(r1: int) returns (empty: bool)
      requires 0 <= r1 <= bHeap.Length - 8
      ensures empty <==> SetOf(Block(bHeap, r1)) == {}
    {
      hide *;
      ghost var ws := Block(bHeap, r1);
      BlockIs(r1);
      ShowsSetOf(ws);
      EmptyWords(ws, SetOf(ws));
      var i := 8;
      while i > 0
        invariant 0 <= i <= 8
        invariant forall q :: i <= q < 8 ==> !NonZero(ws[q])
      {
        i := i - 1;
        if NonZero(bHeap[r1 + i]) {
          assert ws[i] == bHeap[r1 + i];
          return false;
        }
      }
      return true;
    }

    // ---------------------------------------------- instructions

    /** Instructions that push a number or the domain of an argument. */
    method DoLoad(code: seq<int>, c: int, args: seq<Fd>, ghost st: St) returns (ok: bool, next: int)
      requires Holds(st) && AllValid(args) && c == st.pc && 0 <= c < |code| && IsLoad(code[c])
      requires v < VStack && b < 8 * NrDoms
      modifies this`v, this`b, vStack, bHeap
      ensures Steps(StepLoad(code, Doms(args), st), ok, next, Aborted)
    {
      hide Blocks, SetOf, ValidFd, DomOf, Least, Greatest;
      var op := code[c];
      ok, next := true, c + 1;
      if op == FD_CONST {
        if c + 1 < |code| {
          PushNumber(code[c + 1], st);
          return true, c + 2;
        }
        return false, c;
      }
      if op == FD_MAXELEM {
        PushNumber(255, st);
        return;
      }
      var (x, len) := Operand(code, c);
      if !(0 <= x < |args|) {
        return false, c;
      }
      var a := args[x];
      next := c + len;
      DomFacts(a);
      if IsDom(op) {
        PushDom(a, st);
        assert DomOf(a) * Universe() == DomOf(a);
      } else if IsDomMin(op) {
        PushNumber(MinVal(a), st);
      } else if IsVal(op) && !IsDetermined(a) {
        ok := false;
      } else {
        PushNumber(MaxVal(a), st);
      }
    }

    /** What one step of the abstract machine has to do with ours. */
    ghost predicate Steps(n: Next, ok: bool, next: int, t: DomStruct)
      reads this, vStack, bHeap
    {
      match n
      case Go(nx) => ok && next == nx.pc && Holds(nx)
      case Stop(o) => !ok && Tells(t, o)
    }

    /** The structure t holds the outcome o. */
    ghost predicate Tells(t: DomStruct, o: Outcome)
      reads this, bHeap
    {
      match o
      case Fatal => t == Aborted
      case Bounds(lo, hi) => t == IntervalT(lo, hi)
      case Elems(s) =>
        && t.DomainT? && 0 <= t.d <= bHeap.Length - 8 && 0 <= t.lm < 8
        && SetOf(bHeap[t.d..t.d + t.lm + 1]) == s && SetOf(Block(bHeap, t.d)) == s
    }

    method PushDom(a: Fd, ghost st: St)
      requires Holds(st) && ValidFd(a) && v < VStack && b < 8 * NrDoms
      modifies this`v, this`b, vStack, bHeap
      ensures Holds(St(st.pc, st.vs + [8 * |st.hp|], st.hp + [DomOf(a)]))
    {
      hide Blocks, SetOf, ValidFd, DomOf;
      FillDom(a, st);
      PushBlock(DomOf(a), st);
    }

    method FillDom(a: Fd, ghost st: St)
      requires Holds(st) && ValidFd(a) && b < 8 * NrDoms
      modifies bHeap
      ensures Holds(st) && SetOf(Block(bHeap, b)) == DomOf(a)
    {
      hide Blocks, SetOf, ValidFd, DomOf;
      ghost var ws := bHeap[..];
      GetDom(a, bHeap, b);
      Edited(st, |st.hp|, ws);
    }

    /** The arithmetic instructions. */
    method Operate(op: int, x: int, y: int) returns (n: int)
      requires BinOf(op).Some? && (NeedsDivisor(BinOf(op).value) ==> y != 0)
      ensures Yields(BinOf(op).value, x, y, n)
    {
      if op == FD_ADD {
        n := x + y;
      } else if op == FD_MULT {
        n := x * y;
      } else if op == FD_SUB {
        n := x - y;
      } else if op == FD_DIVD {
        n := TDiv(x, y);
      } else if op == FD_DIVU {
        n := TDiv(x + y - 1, y);
      } else {
        n := TMod(x, y);
      }
      ArithIs(BinOf(op).value, x, y, n);
    }

    /** Instructions on two operands. */
    method DoTwo(op: int, c: int, ghost st: St) returns (ok: bool, next: int, t: DomStruct)
      requires Holds(st) && c == st.pc && b < 8 * NrDoms
      modifies this`v, this`b, vStack, bHeap
      ensures Steps(StepTwo(op, st), ok, next, t)
    {
      hide Blocks, SetOf, MovedBy, NumberFits, Combined, Spanned, Arith, Yields, InReach, IsAddr;
      ok, next, t := true, c + 1, Aborted;
      if v < 2 {
        return false, c, t;
      }
      Operands(st);
      var r1, r2 := vStack[v - 1], vStack[v - 2];
      if BinOf(op).Some? {
        if NeedsDivisor(BinOf(op).value) && r2 == 0 {
          return false, c, t;
        }
        var n := Operate(op, r1, r2);
        ArithIs(BinOf(op).value, r1, r2, n);
        Replace(n, st);
      } else if ByOf(op).Some? {
        ok := DoMove(ByOf(op).value, st);
      } else if op == FD_RANGE {
        ok := DoSpan(st);
      } else if op == FD_OUTER_RANGE {
        return false, c, if r1 > r2 || r2 < 0 then IntervalT(1, 0) else IntervalT(if r1 < 0 then 0 else r1, r2);
      } else if op == FD_UNION {
        ok := DoPair(Union, st);
      } else if op == FD_INTER {
        ok := DoPair(Inter, st);
      } else {
        ok := false;
      }
    }

    /** Instructions on the set on top. */
    method DoTop(code: seq<int>, c: int, ghost st: St) returns (ok: bool, next: int, t: DomStruct)
      requires Holds(st) && c == st.pc && 0 <= c < |code| && IsTop(code[c])
      modifies this`v, this`b, vStack, bHeap
      ensures Steps(StepTop(code, st), ok, next, t)
    {
      hide Blocks, SetOf, RangeMin, RangeMax, IsAddr;
      var op := code[c];
      ok, next, t := true, c + 1, Aborted;
      if v < 1 {
        return false, c, t;
      }
      if op == FD_HALT {
        t := Answer(st);
        ok := false;
      } else if op == FD_COMPL {
        ok := DoCompl(st);
      } else if op == FD_MIN {
        ok := DoBound(true, st);
      } else if op == FD_MAX {
        ok := DoBound(false, st);
      } else {
        var empty;
        ok, empty := DoCheck(st);
        if ok {
          if !empty {
            next := c + 2;
          } else if c + 1 < |code| && code[c + 1] > c {
            next := code[c + 1];
          } else {
            ok := false;
          }
        }
      }
    }

    /** The block on top of the stack, without its trailing zero words. */
    method Answer(ghost st: St) returns (t: DomStruct)
      requires Holds(st) && v >= 1
      ensures var r1 := st.vs[|st.vs| - 1];
              if IsAddr(r1, st.hp) then Tells(t, Elems(st.hp[r1 / 8])) else t == Aborted
    {
      var r1 := vStack[v - 1];
      assert r1 == st.vs[|st.vs| - 1];
      if !OnHeap(r1) {
        return Aborted;
      }
      AddressSet(st, r1);
      var i := LastWord(r1);
      t := DomainT(r1, i);
    }

    method LastWord(r1: int) returns (i: int)
      requires 0 <= r1 <= bHeap.Length - 8
      ensures 0 <= i < 8 && SetOf(bHeap[r1..r1 + i + 1]) == SetOf(Block(bHeap, r1))
    {
      hide SetOf, NonZero;
      i := 7;
      while i > 0 && !NonZero(bHeap[r1 + i])
        invariant 0 <= i < 8
        invariant forall q :: r1 + i < q < r1 + 8 ==> !NonZero(bHeap[q])
      {
        i := i - 1;
      }
      DropZeros(Block(bHeap, r1), i + 1);
      assert Block(bHeap, r1)[..i + 1] == bHeap[r1..r1 + i + 1];
    }

    /** One round of the instruction loop. */
    method DoStep(code: seq<int>, c: int, args: seq<Fd>, ghost st: St) returns (ok: bool, next: int, t: DomStruct)
      requires Holds(st) && AllValid(args) && c == st.pc
      modifies this`v, this`b, vStack, bHeap
      ensures Steps(Step(code, Doms(args), st), ok, next, t)
    {
      hide Blocks, SetOf, StepLoad, StepTop, StepTwo;
      if !(v < VStack && b < 8 * NrDoms) || !(0 <= c < |code|) {
        return false, c, Aborted;
      }
      t := Aborted;
      if IsLoad(code[c]) {
        ok, next := DoLoad(code, c, args, st);
      } else if IsTop(code[c]) {
        ok, next, t := DoTop(code, c, st);
      } else {
        ok, next, t := DoTwo(code[c], c, st);
      }
    }

    /** Evaluates the range whose code starts at c over the given arguments. */
    method EvaluateRange(code: seq<int>, c0: int, args: seq<Fd>) returns (t: DomStruct)
      requires vStack.Length == VStack && bHeap.Length == 8 * NrDoms && AllValid(args)
      modifies this`v, this`b, vStack, bHeap
      ensures Tells(t, Exec(code, Doms(args), St(c0, [], [])))
    {
      v, b := 0, 0;
      ghost var st := St(c0, [], []);
      var c := c0;
      hide Step, Doms, Blocks, AllValid;
      Empty(st);
      while true
        invariant Holds(st) && c == st.pc
        invariant Exec(code, Doms(args), St(c0, [], [])) == Exec(code, Doms(args), st)
        decreases |code| - c
      {
        var ok;
        ghost var n := Step(code, Doms(args), st);
        ok, c, t := DoStep(code, c, args, st);
        if !ok {
          return;
        }
        st := n.st;
      }
    }

    /** Evaluates the code of an element range, which is its instruction and the
        halt, over the first argument and the list that is the second. */
    method EvaluateElement(code: seq<int>, c: int, args: seq<Fd>, list: seq<int>, ghost values: bool)
      returns (t: DomStruct)
      requires vStack.Length == VStack && bHeap.Length == 8 * NrDoms && AllValid(args)
      requires 0 <= c && c + 2 <= |code| && code[c] == ElementInstr(values) && code[c + 1] == FD_HALT
      modifies this`v, this`b, vStack, bHeap
      ensures t == Aborted <==> |args| == 0 || !ElementOk(values, DomOf(args[0]), list)
      ensures t != Aborted ==> Tells(t, Elems(ElementOf(values, DomOf(args[0]), list)))
    {
      v, b := 0, 0;
      if |args| == 0 {
        return Aborted;
      }
      var x := args[0];
      hide SetOf;
      var ok;
      if code[c] == FD_ELEMENT_X {
        DefinedOk(x, list);
        ok := ElementX(x, list, bHeap, b);
      } else {
        ok := ElementI(x, list, bHeap, b);
        if ok {
          PositionsInside(DomOf(x), list);
        }
      }
      if !ok {
        return Aborted;
      }
      vStack[v] := b;
      v, b := v + 1, b + 8;
      var r1 := vStack[v - 1];
      var i := LastWord(r1);
      t := DomainT(r1, i);
    }

    lemma PositionsInside(s: set<int>, list: seq<int>)
      requires ElementOk(false, s, list)
      ensures ElementOf(false, s, list) == PositionsOf(s, list)
    {
    }

    lemma Empty(st: St)
      requires Valid() && v == 0 && b == 0 && st.vs == [] && st.hp == []
      ensures Holds(st)
    {
    }
  }
}
