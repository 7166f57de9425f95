/** Range expressions as stack code: what the compiler emits, and how the
    loader turns the emitted tokens into byte code with back-patched checks. */
module FdCode {
  import opened FdWords
  import opened FdExpr

  // The instruction numbers. A word of byte code is an instruction or a number.
  const FD_MAXELEM: int := 0
  const FD_RANGE: int := 1
  const FD_OUTER_RANGE: int := 2
  const FD_SETADD: int := 3
  const FD_SETSUB: int := 4
  const FD_SETMOD: int := 5
  const FD_COMPL: int := 6
  const FD_UNION: int := 7
  const FD_INTER: int := 8
  const FD_CHECK: int := 9
  const FD_ADD: int := 10
  const FD_MULT: int := 11
  const FD_SUB: int := 12
  const FD_DIVD: int := 13
  const FD_DIVU: int := 14
  const FD_MIN: int := 15
  const FD_MAX: int := 16
  const FD_MOD: int := 17
  const FD_VAL: int := 18
  const FD_VAL_0: int := 19
  const FD_VAL_1: int := 20
  const FD_VAL_2: int := 21
  const FD_DOM: int := 22
  const FD_DOM_0: int := 23
  const FD_DOM_1: int := 24
  const FD_DOM_2: int := 25
  const FD_DOMMIN: int := 26
  const FD_DOMMIN_0: int := 27
  const FD_DOMMIN_1: int := 28
  const FD_DOMMIN_2: int := 29
  const FD_DOMMAX: int := 30
  const FD_DOMMAX_0: int := 31
  const FD_DOMMAX_1: int := 32
  const FD_DOMMAX_2: int := 33
  const FD_CONST: int := 34
  const FD_ELEMENT_X: int := 35
  const FD_ELEMENT_I: int := 36
  const FD_HALT: int := 37

  /** What the compiler writes for the loader: a word of code, the start of a
      check, or the end of the range it guards. */
  datatype Token = Put(n: int) | CheckTok | LabelTok

  function Load(x: nat, i0: int, i1: int, i2: int, i: int): seq<Token> {
    if x == 0 then [Put(i0)]
    else if x == 1 then [Put(i1)]
    else if x == 2 then [Put(i2)]
    else [Put(i), Put(x)]
  }

  function BinInstr(op: BinOp): int {
    match op
    case Add => FD_ADD
    case Mul => FD_MULT
    case Sub => FD_SUB
    case DivD => FD_DIVD
    case DivU => FD_DIVU
    case Mod => FD_MOD
  }

  function ByInstr(op: ByOp): int {
    match op
    case Plus => FD_SETADD
    case Minus => FD_SETSUB
    case Modulo => FD_SETMOD
  }

  function ElementInstr(values: bool): int {
    if values then FD_ELEMENT_X else FD_ELEMENT_I
  }

  function PairInstr(op: PairOp): int {
    if op == Union then FD_UNION else FD_INTER
  }

  function ParseT(t: Term): seq<Token> {
    match t
    case Val(x) => Load(x, FD_VAL_0, FD_VAL_1, FD_VAL_2, FD_VAL)
    case MaxElem => [Put(FD_MAXELEM)]
    case Const(c) => [Put(FD_CONST), Put(c)]
    case Bin(op, a, b) => ParseT(b) + ParseT(a) + [Put(BinInstr(op))]
    case MinVar(x) => Load(x, FD_DOMMIN_0, FD_DOMMIN_1, FD_DOMMIN_2, FD_DOMMIN)
    case MaxVar(x) => Load(x, FD_DOMMAX_0, FD_DOMMAX_1, FD_DOMMAX_2, FD_DOMMAX)
    case MinOf(r) => ParseR(r) + [Put(FD_MIN)]
    case MaxOf(r) => ParseR(r) + [Put(FD_MAX)]
  }

  function ParseR(r: Range): seq<Token> {
    match r
    case Dom(x) => Load(x, FD_DOM_0, FD_DOM_1, FD_DOM_2, FD_DOM)
    case Span(lo, hi) => ParseT(hi) + ParseT(lo) + [Put(FD_RANGE)]
    case By(op, q, t) => ParseT(t) + ParseR(q) + [Put(ByInstr(op))]
    case Compl(q) => ParseR(q) + [Put(FD_COMPL)]
    case Pair(op, p, q) => ParseR(q) + ParseR(p) + [Put(PairInstr(op))]
    case Check(p, q) => ParseR(p) + [CheckTok] + ParseR(q) + [LabelTok]
  }

  function ParseO(e: Outer): seq<Token> {
    match e
    case OuterSpan(lo, hi) => ParseT(hi) + ParseT(lo) + [Put(FD_OUTER_RANGE)]
    case Inner(r) => ParseR(r)
    case Element(values, _) => [Put(ElementInstr(values))]
  }

  // ------------------------------------------------ the code that results

  function LoadCells(x: nat, i0: int, i1: int, i2: int, i: int): seq<int> {
    if x == 0 then [i0]
    else if x == 1 then [i1]
    else if x == 2 then [i2]
    else [i, x]
  }

  /** The byte code of a term placed at address p. */
  function CodeT(t: Term, p: int): seq<int>
    decreases t
  {
    match t
    case Val(x) => LoadCells(x, FD_VAL_0, FD_VAL_1, FD_VAL_2, FD_VAL)
    case MaxElem => [FD_MAXELEM]
    case Const(c) => [FD_CONST, c]
    case MinVar(x) => LoadCells(x, FD_DOMMIN_0, FD_DOMMIN_1, FD_DOMMIN_2, FD_DOMMIN)
    case MaxVar(x) => LoadCells(x, FD_DOMMAX_0, FD_DOMMAX_1, FD_DOMMAX_2, FD_DOMMAX)
    case Bin(op, a, b) => var c := CodeT(b, p); c + CodeT(a, p + |c|) + [BinInstr(op)]
    case MinOf(r) => CodeR(r, p) + [FD_MIN]
    case MaxOf(r) => CodeR(r, p) + [FD_MAX]
  }

  /** Code c at p, a check, and the code d that the check jumps past. */
  function Guarded(c: seq<int>, d: seq<int>, p: int): seq<int> {
    c + [FD_CHECK, p + |c| + 2 + |d|] + d
  }

  /** The byte code of a range placed at address p. A check jumps past the range
      it guards when the set tested is empty. */
  function CodeR(r: Range, p: int): seq<int>
    decreases r
  {
    match r
    case Dom(x) => LoadCells(x, FD_DOM_0, FD_DOM_1, FD_DOM_2, FD_DOM)
    case Span(lo, hi) => var c := CodeT(hi, p); c + CodeT(lo, p + |c|) + [FD_RANGE]
    case By(op, q, t) => var c := CodeT(t, p); c + CodeR(q, p + |c|) + [ByInstr(op)]
    case Compl(q) => CodeR(q, p) + [FD_COMPL]
    case Pair(op, a, q) => var c := CodeR(q, p); c + CodeR(a, p + |c|) + [PairInstr(op)]
    case Check(a, q) =>
      var c := CodeR(a, p);
      Guarded(c, CodeR(q, p + |c| + 2), p)
  }

  /** A whole indexical: code and halt. */
  function CodeO(e: Outer, p: int): seq<int> {
    match e
    case OuterSpan(lo, hi) => var c := CodeT(hi, p); c + CodeT(lo, p + |c|) + [FD_OUTER_RANGE] + [FD_HALT]
    case Inner(r) => CodeR(r, p) + [FD_HALT]
    case Element(values, _) => [ElementInstr(values)] + [FD_HALT]
  }

  // ------------------------------------------------ the loader

  const CodeArea: nat := 1000
  const CheckDepth: nat := 50

  /** The loader's state: code so far and the addresses of the check operands
      still to be filled in. Full is the fatal error "FD byte code area filled
      up!"; Wild is a store outside one of the loader's arrays. */
  datatype Loading = Loading(code: seq<int>, labels: seq<nat>) | Full | Wild

  function AddCell(st: Loading, c: int): Loading
    requires st.Loading?
  {
    if |st.code| >= CodeArea then Full else st.(code := st.code + [c])
  }

  function LoadToken(st: Loading, t: Token): Loading
    requires st.Loading?
  {
    match t
    case Put(n) => AddCell(st, n)
    case CheckTok =>
      var s := AddCell(st, FD_CHECK);
      if s.Full? then Full
      else if |s.labels| >= CheckDepth then Wild
      else Loading(s.code + [0], s.labels + [|s.code|])
    case LabelTok =>
      if |st.labels| == 0 || st.labels[|st.labels| - 1] >= CodeArea || st.labels[|st.labels| - 1] >= |st.code| then Wild
      else
        var l := |st.labels| - 1;
        Loading(st.code[st.labels[l] := |st.code|], st.labels[..l])
  }

  function LoadAll(st: Loading, ts: seq<Token>): Loading
    decreases |ts|
  {
    if ts == [] || !st.Loading? then st else LoadAll(LoadToken(st, ts[0]), ts[1..])
  }

  /** The loader itself: the byte code area, its top, and the label stack. */
  class Loader {
    const byteCode: array<int>
    var codeTop: nat
    const checkLabel: array<nat>
    var checkTop: nat

    constructor ()
      ensures fresh(byteCode) && fresh(checkLabel) && Shows(Loading([], []))
    {
      byteCode := new int[CodeArea](_ => FD_HALT);
      checkLabel := new nat[CheckDepth](_ => 0);
      codeTop := 0;
      checkTop := 0;
    }

    /** The arrays hold the state st; an operand still to be patched may hold
        anything. */
    ghost predicate Shows(st: Loading)
      reads this, byteCode, checkLabel
    {
      && st.Loading?
      && byteCode.Length == CodeArea && checkLabel.Length == CheckDepth
      && codeTop == |st.code| && checkTop == |st.labels| <= CheckDepth
      && checkLabel[..checkTop] == st.labels
      && forall i :: 0 <= i < codeTop && i < CodeArea && i !in st.labels ==> byteCode[i] == st.code[i]
    }

    method Add(c: int, ghost st: Loading) returns (ok: bool)
      requires Shows(st)
      modifies this`codeTop, byteCode
      ensures if ok then Shows(AddCell(st, c)) else AddCell(st, c) == Full
    {
      if codeTop >= CodeArea {
        return false;
      }
      byteCode[codeTop] := c;
      codeTop := codeTop + 1;
      return true;
    }

    method PushCheckLabel(ghost st: Loading)
      requires Shows(st) && |st.labels| < CheckDepth
      modifies this, checkLabel
      ensures Shows(Loading(st.code + [0], st.labels + [|st.code|]))
    {
      checkLabel[checkTop] := codeTop;
      checkTop := checkTop + 1;
      codeTop := codeTop + 1;
    }

    method PopCheckLabel(ghost st: Loading)
      requires Shows(st) && LoadToken(st, LabelTok).Loading?
      modifies this`checkTop, byteCode
      ensures Shows(LoadToken(st, LabelTok))
    {
      checkTop := checkTop - 1;
      byteCode[checkLabel[checkTop]] := codeTop;
    }

    /** Loads a run of tokens that makes no wild store. */
    method LoadTokens(ts: seq<Token>, ghost st0: Loading) returns (ok: bool)
      requires Shows(st0) && LoadAll(st0, ts) != Wild
      modifies this, byteCode, checkLabel
      ensures if ok then Shows(LoadAll(st0, ts)) else LoadAll(st0, ts) == Full
    {
      ghost var st := st0;
      var i := 0;
      while i < |ts|
        invariant 0 <= i <= |ts|
        invariant Shows(st) && LoadAll(st0, ts) == LoadAll(st, ts[i..])
        decreases |ts| - i
      {
        assert ts[i..][0] == ts[i] && ts[i..][1..] == ts[i + 1..];
        assert LoadAll(st, ts[i..]) == LoadAll(LoadToken(st, ts[i]), ts[i + 1..]);
        match ts[i] {
          case Put(n) =>
            ok := Add(n, st);
            if !ok { return; }
            st := AddCell(st, n);
          case CheckTok =>
            ok := Add(FD_CHECK, st);
            if !ok { return; }
            PushCheckLabel(AddCell(st, FD_CHECK));
            st := LoadToken(st, CheckTok);
          case LabelTok =>
            PopCheckLabel(st);
            st := LoadToken(st, LabelTok);
        }
        i := i + 1;
      }
      return true;
    }
  }

  // ------------------------------------------------ what the loader makes of the compiler's tokens

  /** How deep checks nest in their right arguments. */
  function NestT(t: Term): nat {
    match t
    case Bin(_, a, b) => Max(NestT(a), NestT(b))
    case MinOf(r) => NestR(r)
    case MaxOf(r) => NestR(r)
    case Val(_) => 0
    case MaxElem => 0
    case Const(_) => 0
    case MinVar(_) => 0
    case MaxVar(_) => 0
  }

  function NestR(r: Range): nat {
    match r
    case Dom(_) => 0
    case Span(lo, hi) => Max(NestT(lo), NestT(hi))
    case By(_, q, t) => Max(NestR(q), NestT(t))
    case Compl(q) => NestR(q)
    case Pair(_, p, q) => Max(NestR(p), NestR(q))
    case Check(p, q) => Max(NestR(p), 1 + NestR(q))
  }

  function NestO(e: Outer): nat {
    match e
    case OuterSpan(lo, hi) => Max(NestT(lo), NestT(hi))
    case Inner(r) => NestR(r)
    case Element(_, _) => 0
  }

  function Max(a: nat, b: nat): nat {
    if a < b then b else a
  }

  /** Loading continues with rest once the cells c are in place. */
  function Then(st: Loading, c: seq<int>, rest: seq<Token>): Loading
    requires st.Loading?
  {
    if |st.code| + |c| <= CodeArea then LoadAll(st.(code := st.code + c), rest) else Full
  }

  /** ts loads as the cells c. */
  ghost predicate LoadsAs(st: Loading, ts: seq<Token>, c: seq<int>, rest: seq<Token>)
    requires st.Loading?
  {
    LoadAll(st, ts + rest) == Then(st, c, rest)
  }

  lemma LoadOne(st: Loading, n: int, rest: seq<Token>)
    requires st.Loading?
    ensures LoadsAs(st, [Put(n)], [n], rest)
  {
    assert ([Put(n)] + rest)[0] == Put(n) && ([Put(n)] + rest)[1..] == rest;
    if |st.code| >= CodeArea {
      assert LoadAll(Full, rest) == Full;
    }
  }

  /** One token after another. */
  lemma LoadPair(st: Loading, ts: seq<Token>, c: seq<int>, us: seq<Token>, d: seq<int>, rest: seq<Token>)
    requires st.Loading? && LoadsAs(st, ts, c, us + rest)
    requires |st.code| + |c| <= CodeArea ==> LoadsAs(st.(code := st.code + c), us, d, rest)
    ensures LoadsAs(st, ts + us, c + d, rest)
  {
    assert ts + us + rest == ts + (us + rest);
    assert st.code + c + d == st.code + (c + d);
  }

  lemma LoadThenOne(st: Loading, ts: seq<Token>, c: seq<int>, op: int, rest: seq<Token>)
    requires st.Loading? && LoadsAs(st, ts, c, [Put(op)] + rest)
    ensures LoadsAs(st, ts + [Put(op)], c + [op], rest)
  {
    hide LoadsAs, LoadAll;
    if |st.code| + |c| <= CodeArea {
      LoadOne(st.(code := st.code + c), op, rest);
    }
    LoadPair(st, ts, c, [Put(op)], [op], rest);
  }

  /** Two operands and an instruction. */
  lemma LoadThree(st: Loading, ts: seq<Token>, c: seq<int>, us: seq<Token>, d: seq<int>, op: int, rest: seq<Token>)
    requires st.Loading? && LoadsAs(st, ts, c, us + ([Put(op)] + rest))
    requires |st.code| + |c| <= CodeArea ==> LoadsAs(st.(code := st.code + c), us, d, [Put(op)] + rest)
    ensures LoadsAs(st, ts + us + [Put(op)], c + d + [op], rest)
  {
    hide LoadsAs, LoadAll;
    LoadPair(st, ts, c, us, d, [Put(op)] + rest);
    LoadThenOne(st, ts + us, c + d, op, rest);
  }

  lemma LoadPlain(x: nat, i0: int, i1: int, i2: int, i: int, st: Loading, rest: seq<Token>)
    requires st.Loading?
    ensures LoadsAs(st, Load(x, i0, i1, i2, i), LoadCells(x, i0, i1, i2, i), rest)
  {
    hide LoadsAs;
    if x <= 2 {
      LoadOne(st, LoadCells(x, i0, i1, i2, i)[0], rest);
    } else {
      LoadTwo(i, x, st, rest);
    }
  }

  lemma LoadTwo(i: int, n: int, st: Loading, rest: seq<Token>)
    requires st.Loading?
    ensures LoadsAs(st, [Put(i), Put(n)], [i, n], rest)
  {
    hide LoadsAs;
    LoadOne(st, i, [Put(n)] + rest);
    if |st.code| < CodeArea {
      LoadOne(st.(code := st.code + [i]), n, rest);
    }
    LoadPair(st, [Put(i)], [i], [Put(n)], [n], rest);
    assert [Put(i)] + [Put(n)] == [Put(i), Put(n)];
    assert [i] + [n] == [i, n];
  }

  lemma LoadLeaf(t: Term, st: Loading, rest: seq<Token>)
    requires st.Loading? && (t.Val? || t.MinVar? || t.MaxVar? || t.MaxElem? || t.Const?)
    ensures LoadsAs(st, ParseT(t), CodeT(t, |st.code|), rest)
  {
    hide LoadsAs, LoadAll;
    match t
    case Val(x) => LoadPlain(x, FD_VAL_0, FD_VAL_1, FD_VAL_2, FD_VAL, st, rest);
    case MinVar(x) => LoadPlain(x, FD_DOMMIN_0, FD_DOMMIN_1, FD_DOMMIN_2, FD_DOMMIN, st, rest);
    case MaxVar(x) => LoadPlain(x, FD_DOMMAX_0, FD_DOMMAX_1, FD_DOMMAX_2, FD_DOMMAX, st, rest);
    case MaxElem =>
      LoadOne(st, FD_MAXELEM, rest);
    case Const(c) => LoadTwo(FD_CONST, c, st, rest);
  }

  /** The code of a term is what the loader makes of its tokens, or the code
      area is full. */
  lemma {:induction false} LoadT(t: Term, st: Loading, rest: seq<Token>)
    requires st.Loading? && |st.labels| + NestT(t) <= CheckDepth
    ensures LoadsAs(st, ParseT(t), CodeT(t, |st.code|), rest)
    decreases t, 1
  {
    hide LoadsAs, LoadAll;
    match t
    case Val(_) => LoadLeaf(t, st, rest);
    case MinVar(_) => LoadLeaf(t, st, rest);
    case MaxVar(_) => LoadLeaf(t, st, rest);
    case MaxElem => LoadLeaf(t, st, rest);
    case Const(_) => LoadLeaf(t, st, rest);
    case MinOf(r) => LoadTR(t, r, st, rest);
    case MaxOf(r) => LoadTR(t, r, st, rest);
    case Bin(_, a, b) => LoadTT(t, a, b, st, rest);
  }

  lemma {:induction false} LoadTR(t: Term, q: Range, st: Loading, rest: seq<Token>)
    requires t == MinOf(q) || t == MaxOf(q)
    requires st.Loading? && |st.labels| + NestR(q) <= CheckDepth
    ensures LoadsAs(st, ParseT(t), CodeT(t, |st.code|), rest)
    decreases t, 0
  {
    hide LoadsAs, LoadAll, NestT, NestR;
    var op := if t.MinOf? then FD_MIN else FD_MAX;
    LoadR(q, st, [Put(op)] + rest);
    LoadThenOne(st, ParseR(q), CodeR(q, |st.code|), op, rest);
  }

  lemma {:induction false} LoadTT(t: Term, a: Term, b: Term, st: Loading, rest: seq<Token>)
    requires t.Bin? && t.a == a && t.b == b
    requires st.Loading? && |st.labels| + NestT(a) <= CheckDepth && |st.labels| + NestT(b) <= CheckDepth
    ensures LoadsAs(st, ParseT(t), CodeT(t, |st.code|), rest)
    decreases t, 0
  {
    hide LoadsAs, LoadAll, NestT, NestR;
    var op := BinInstr(t.op);
    var c := CodeT(b, |st.code|);
    LoadT(b, st, ParseT(a) + ([Put(op)] + rest));
    if |st.code| + |c| <= CodeArea {
      LoadT(a, st.(code := st.code + c), [Put(op)] + rest);
    }
    LoadThree(st, ParseT(b), c, ParseT(a), CodeT(a, |st.code| + |c|), op, rest);
  }

  lemma {:induction false} LoadR(r: Range, st: Loading, rest: seq<Token>)
    requires st.Loading? && |st.labels| + NestR(r) <= CheckDepth
    ensures LoadsAs(st, ParseR(r), CodeR(r, |st.code|), rest)
    decreases r, 1
  {
    hide LoadsAs, LoadAll;
    match r
    case Dom(x) => LoadPlain(x, FD_DOM_0, FD_DOM_1, FD_DOM_2, FD_DOM, st, rest);
    case Span(lo, hi) => LoadSpan(r, lo, hi, FD_RANGE, st, rest);
    case By(_, q, t) => LoadRT(r, q, t, st, rest);
    case Compl(q) => LoadThen(r, q, FD_COMPL, st, rest);
    case Pair(_, p, q) => LoadRR(r, p, q, st, rest);
    case Check(p, q) => LoadCheck(p, q, st, rest);
  }

  lemma {:induction false} LoadThen(r: Range, q: Range, op: int, st: Loading, rest: seq<Token>)
    requires q < r
    requires st.Loading? && |st.labels| + NestR(q) <= CheckDepth
    ensures LoadsAs(st, ParseR(q) + [Put(op)], CodeR(q, |st.code|) + [op], rest)
    decreases r, 0
  {
    hide LoadsAs, LoadAll, NestT, NestR;
    LoadR(q, st, [Put(op)] + rest);
    LoadThenOne(st, ParseR(q), CodeR(q, |st.code|), op, rest);
  }

  lemma {:induction false} LoadSpan(r: Range, lo: Term, hi: Term, op: int, st: Loading, rest: seq<Token>)
    requires lo < r && hi < r
    requires st.Loading? && |st.labels| + NestT(lo) <= CheckDepth && |st.labels| + NestT(hi) <= CheckDepth
    ensures var c := CodeT(hi, |st.code|);
            LoadsAs(st, ParseT(hi) + ParseT(lo) + [Put(op)], c + CodeT(lo, |st.code| + |c|) + [op], rest)
    decreases r, 0
  {
    hide LoadsAs, LoadAll, NestT, NestR;
    var c := CodeT(hi, |st.code|);
    LoadT(hi, st, ParseT(lo) + ([Put(op)] + rest));
    if |st.code| + |c| <= CodeArea {
      LoadT(lo, st.(code := st.code + c), [Put(op)] + rest);
    }
    LoadThree(st, ParseT(hi), c, ParseT(lo), CodeT(lo, |st.code| + |c|), op, rest);
  }

  lemma ByParts(r: Range, pc: int)
    requires r.By?
    ensures var c := CodeT(r.t, pc);
            && ParseR(r) == ParseT(r.t) + ParseR(r.r) + [Put(ByInstr(r.byOp))]
            && CodeR(r, pc) == c + CodeR(r.r, pc + |c|) + [ByInstr(r.byOp)]
  {
  }

  lemma PairParts(r: Range, pc: int)
    requires r.Pair?
    ensures var c := CodeR(r.r2, pc);
            && ParseR(r) == ParseR(r.r2) + ParseR(r.r1) + [Put(PairInstr(r.pairOp))]
            && CodeR(r, pc) == c + CodeR(r.r1, pc + |c|) + [PairInstr(r.pairOp)]
  {
  }

  lemma {:induction false} LoadRT(r: Range, q: Range, t: Term, st: Loading, rest: seq<Token>)
    requires r.By? && r.r == q && r.t == t
    requires st.Loading? && |st.labels| + NestR(q) <= CheckDepth && |st.labels| + NestT(t) <= CheckDepth
    ensures LoadsAs(st, ParseR(r), CodeR(r, |st.code|), rest)
    decreases r, 0
  {
    hide *;
    ByParts(r, |st.code|);
    var op := ByInstr(r.byOp);
    var c := CodeT(t, |st.code|);
    LoadT(t, st, ParseR(q) + ([Put(op)] + rest));
    if |st.code| + |c| <= CodeArea {
      LoadR(q, st.(code := st.code + c), [Put(op)] + rest);
    }
    LoadThree(st, ParseT(t), c, ParseR(q), CodeR(q, |st.code| + |c|), op, rest);
  }

  lemma {:induction false} LoadRR(r: Range, p: Range, q: Range, st: Loading, rest: seq<Token>)
    requires r.Pair? && r.r1 == p && r.r2 == q
    requires st.Loading? && |st.labels| + NestR(p) <= CheckDepth && |st.labels| + NestR(q) <= CheckDepth
    ensures LoadsAs(st, ParseR(r), CodeR(r, |st.code|), rest)
    decreases r, 0
  {
    hide *;
    PairParts(r, |st.code|);
    var op := PairInstr(r.pairOp);
    var c := CodeR(q, |st.code|);
    LoadR(q, st, ParseR(p) + ([Put(op)] + rest));
    if |st.code| + |c| <= CodeArea {
      LoadR(p, st.(code := st.code + c), [Put(op)] + rest);
    }
    LoadThree(st, ParseR(q), c, ParseR(p), CodeR(p, |st.code| + |c|), op, rest);
  }

  lemma LoadCheckTok(st: Loading, rest: seq<Token>)
    requires st.Loading? && |st.labels| < CheckDepth
    ensures LoadAll(st, [CheckTok] + rest) ==
            if |st.code| >= CodeArea then LoadAll(Full, rest)
            else LoadAll(Loading(st.code + [FD_CHECK, 0], st.labels + [|st.code| + 1]), rest)
  {
    hide LoadToken;
    var ts := [CheckTok] + rest;
    assert ts[0] == CheckTok && ts[1..] == rest;
    CheckTokStep(st);
    assert LoadAll(st, ts) == LoadAll(LoadToken(st, CheckTok), rest);
  }

  lemma LoadFull(rest: seq<Token>)
    ensures LoadAll(Full, rest) == Full
  {
  }

  lemma CheckTokStep(st: Loading)
    requires st.Loading? && |st.labels| < CheckDepth
    ensures LoadToken(st, CheckTok) ==
            if |st.code| >= CodeArea then Full
            else Loading(st.code + [FD_CHECK, 0], st.labels + [|st.code| + 1])
  {
    assert st.code + [FD_CHECK] + [0] == st.code + [FD_CHECK, 0];
  }

  lemma LoadLabelTok(code: seq<int>, labels: seq<nat>, at: nat, rest: seq<Token>)
    requires at < |code| <= CodeArea
    ensures LoadAll(Loading(code, labels + [at]), [LabelTok] + rest) ==
            LoadAll(Loading(code[at := |code|], labels), rest)
  {
    var ts := [LabelTok] + rest;
    assert ts[0] == LabelTok && ts[1..] == rest;
    assert (labels + [at])[..|labels|] == labels;
  }

  /** A check: its operand is reserved, the guarded range is loaded, and the
      operand is patched with the address reached. */
  lemma {:induction false} LoadCheck(p: Range, q: Range, st: Loading, rest: seq<Token>)
    requires st.Loading? && |st.labels| + NestR(p) <= CheckDepth && |st.labels| + 1 + NestR(q) <= CheckDepth
    ensures LoadsAs(st, ParseR(p) + [CheckTok] + ParseR(q) + [LabelTok], CodeR(Check(p, q), |st.code|), rest)
    decreases Check(p, q), 0
  {
    hide LoadAll, LoadToken, CodeR, ParseR, NestR, Guarded;
    var c := CodeR(p, |st.code|);
    var at := |st.code| + |c|;
    var d := CodeR(q, at + 2);
    var back := ParseR(q) + ([LabelTok] + rest);
    CheckCode(p, q, |st.code|);
    LoadR(p, st, [CheckTok] + back);
    Regroup(ParseR(p), ParseR(q), rest);
    if at <= CodeArea {
      LoadCheckTok(st.(code := st.code + c), back);
      LoadFull(back);
      LoadGuardedRange(q, st, c, d, rest);
    }
  }

  lemma CheckCode(p: Range, q: Range, pc: int)
    ensures var c := CodeR(p, pc);
            CodeR(Check(p, q), pc) == Guarded(c, CodeR(q, pc + |c| + 2), pc)
    ensures var c := CodeR(p, pc);
            |CodeR(Check(p, q), pc)| == |c| + 2 + |CodeR(q, pc + |c| + 2)|
  {
  }

  lemma Regroup(a: seq<Token>, b: seq<Token>, rest: seq<Token>)
    ensures a + [CheckTok] + b + [LabelTok] + rest == a + ([CheckTok] + (b + ([LabelTok] + rest)))
  {
  }

  lemma {:induction false} LoadGuardedRange(q: Range, st: Loading, c: seq<int>, d: seq<int>, rest: seq<Token>)
    requires st.Loading? && |st.labels| + 1 + NestR(q) <= CheckDepth
    requires d == CodeR(q, |st.code| + |c| + 2)
    ensures var at := |st.code| + |c|;
            LoadAll(Loading(st.code + c + [FD_CHECK, 0], st.labels + [at + 1]), ParseR(q) + ([LabelTok] + rest)) ==
            Then(st, Guarded(c, d, |st.code|), rest)
    decreases q, 2
  {
    hide LoadAll, CodeR, ParseR, NestR;
    var at := |st.code| + |c|;
    var s1 := Loading(st.code + c + [FD_CHECK, 0], st.labels + [at + 1]);
    LoadR(q, s1, [LabelTok] + rest);
    if at + 2 + |d| <= CodeArea {
      LoadGuarded(st, c, d, rest);
    }
  }

  lemma LoadGuarded(st: Loading, c: seq<int>, d: seq<int>, rest: seq<Token>)
    requires st.Loading? && |st.code| + |c| + 2 + |d| <= CodeArea
    ensures var at := |st.code| + |c|;
            LoadAll(Loading(st.code + c + [FD_CHECK, 0] + d, st.labels + [at + 1]), [LabelTok] + rest) ==
            LoadAll(st.(code := st.code + Guarded(c, d, |st.code|)), rest)
  {
    var code := st.code + c + [FD_CHECK, 0] + d;
    LoadLabelTok(code, st.labels, |st.code| + |c| + 1, rest);
    PatchedCode(st.code, c, d);
  }

  lemma PatchedCode(code: seq<int>, c: seq<int>, d: seq<int>)
    ensures var a := code + c + [FD_CHECK, 0] + d;
            a[|code| + |c| + 1 := |a|] == code + (c + [FD_CHECK, |code| + |c| + 2 + |d|] + d)
  {
  }

  /** Loading the tokens of an indexical and the halt that ends them: either
      the fatal error, or its byte code lies at the old top, every check
      patched, and nothing before it has changed. */
  lemma LoadIndexical(e: Outer, st: Loading)
    requires st.Loading? && st.labels == [] && NestO(e) <= CheckDepth
    ensures LoadAll(st, ParseO(e) + [Put(FD_HALT)]) ==
            if |st.code| + |CodeO(e, |st.code|)| <= CodeArea then Loading(st.code + CodeO(e, |st.code|), []) else Full
  {
    hide *;
    match e
    case OuterSpan(lo, hi) => LoadOuterSpan(lo, hi, st);
    case Inner(r) => LoadInner(r, st);
    case Element(values, list) => LoadElement(values, list, st);
  }

  lemma LoadElement(values: bool, list: seq<int>, st: Loading)
    requires st.Loading? && st.labels == []
    ensures var e := Element(values, list);
            LoadAll(st, ParseO(e) + [Put(FD_HALT)]) ==
            if |st.code| + |CodeO(e, |st.code|)| <= CodeArea then Loading(st.code + CodeO(e, |st.code|), []) else Full
  {
    var op := ElementInstr(values);
    LoadOne(st, op, [Put(FD_HALT)]);
    LoadLast(st, [Put(op)], [op]);
  }

  lemma LoadOuterSpan(lo: Term, hi: Term, st: Loading)
    requires st.Loading? && st.labels == [] && NestO(OuterSpan(lo, hi)) <= CheckDepth
    ensures var e := OuterSpan(lo, hi);
            LoadAll(st, ParseO(e) + [Put(FD_HALT)]) ==
            if |st.code| + |CodeO(e, |st.code|)| <= CodeArea then Loading(st.code + CodeO(e, |st.code|), []) else Full
  {
    hide *;
    OuterParts(lo, hi, |st.code|);
    var c := CodeT(hi, |st.code|);
    var d := CodeT(lo, |st.code| + |c|);
    LoadSpan(Span(lo, hi), lo, hi, FD_OUTER_RANGE, st, [Put(FD_HALT)]);
    LoadLast(st, ParseO(OuterSpan(lo, hi)), c + d + [FD_OUTER_RANGE]);
    assert c + d + [FD_OUTER_RANGE] + [FD_HALT] == CodeO(OuterSpan(lo, hi), |st.code|);
  }

  lemma OuterParts(lo: Term, hi: Term, pc: int)
    ensures var c := CodeT(hi, pc);
            && CodeO(OuterSpan(lo, hi), pc) == c + CodeT(lo, pc + |c|) + [FD_OUTER_RANGE] + [FD_HALT]
            && ParseO(OuterSpan(lo, hi)) == ParseT(hi) + ParseT(lo) + [Put(FD_OUTER_RANGE)]
            && (NestO(OuterSpan(lo, hi)) <= CheckDepth ==> NestT(lo) <= CheckDepth && NestT(hi) <= CheckDepth)
  {
  }

  lemma LoadInner(r: Range, st: Loading)
    requires st.Loading? && st.labels == [] && NestO(Inner(r)) <= CheckDepth
    ensures var e := Inner(r);
            LoadAll(st, ParseO(e) + [Put(FD_HALT)]) ==
            if |st.code| + |CodeO(e, |st.code|)| <= CodeArea then Loading(st.code + CodeO(e, |st.code|), []) else Full
  {
    hide LoadAll, LoadsAs, ParseR, CodeR, NestR;
    LoadR(r, st, [Put(FD_HALT)]);
    LoadLast(st, ParseR(r), CodeR(r, |st.code|));
  }

  lemma LoadLast(st: Loading, ts: seq<Token>, c: seq<int>)
    requires st.Loading? && LoadsAs(st, ts, c, [Put(FD_HALT)])
    ensures LoadAll(st, ts + [Put(FD_HALT)]) ==
            if |st.code| + |c| + 1 <= CodeArea then st.(code := st.code + (c + [FD_HALT])) else Full
  {
    assert [Put(FD_HALT)] + [] == [Put(FD_HALT)];
    LoadThenOne(st, ts, c, FD_HALT, []);
    assert ts + [Put(FD_HALT)] + [] == ts + [Put(FD_HALT)];
  }
}
