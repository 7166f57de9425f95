/** The range evaluator as an abstract stack machine, and the proof that it
    computes the meaning of every compiled range expression. */
module FdMachine {
  import opened FdWords
  import opened FdExpr
  import opened FdCode

  const VStack: nat := 50
  const NrDoms: nat := 10

  /** Program counter, value stack, and the sets on the heap. A set is pushed
      as the address of its block, eight words a set. */
  datatype St = St(pc: int, vs: seq<int>, hp: seq<set<int>>)

  /** Fatal stands for every way the evaluator stops the program or leaves what
      C defines: overflow of the universe, a failed stack assertion, division
      by zero, a shift by whole words, an undetermined variable used as a
      number. */
  datatype Outcome = Fatal | Bounds(lo: int, hi: int) | Elems(s: set<int>)

  datatype Next = Go(st: St) | Stop(o: Outcome)

  ghost predicate IsAddr(a: int, hp: seq<set<int>>) {
    0 <= a < 8 * |hp| && a % 8 == 0
  }

  /** The argument that is part of the instruction itself, or -1. */
  function Slot(op: int): int {
    if op == FD_VAL_0 || op == FD_DOM_0 || op == FD_DOMMIN_0 || op == FD_DOMMAX_0 then 0
    else if op == FD_VAL_1 || op == FD_DOM_1 || op == FD_DOMMIN_1 || op == FD_DOMMAX_1 then 1
    else if op == FD_VAL_2 || op == FD_DOM_2 || op == FD_DOMMIN_2 || op == FD_DOMMAX_2 then 2
    else -1
  }

  /** Which argument an instruction names, with the length of the instruction. */
  function Operand(code: seq<int>, pc: int): (int, nat)
    requires 0 <= pc < |code|
  {
    if Slot(code[pc]) >= 0 then (Slot(code[pc]), 1)
    else (if pc + 1 < |code| then code[pc + 1] else -1, 2)
  }

  predicate IsVal(op: int) {
    op == FD_VAL || op == FD_VAL_0 || op == FD_VAL_1 || op == FD_VAL_2
  }

  predicate IsDom(op: int) {
    op == FD_DOM || op == FD_DOM_0 || op == FD_DOM_1 || op == FD_DOM_2
  }

  predicate IsDomMin(op: int) {
    op == FD_DOMMIN || op == FD_DOMMIN_0 || op == FD_DOMMIN_1 || op == FD_DOMMIN_2
  }

  predicate IsDomMax(op: int) {
    op == FD_DOMMAX || op == FD_DOMMAX_0 || op == FD_DOMMAX_1 || op == FD_DOMMAX_2
  }

  /** The operation behind an instruction, where it is one. */
  function BinOf(i: int): Option<BinOp> {
    if i == FD_ADD then Some(Add)
    else if i == FD_MULT then Some(Mul)
    else if i == FD_SUB then Some(Sub)
    else if i == FD_DIVD then Some(DivD)
    else if i == FD_DIVU then Some(DivU)
    else if i == FD_MOD then Some(Mod)
    else None
  }

  function ByOf(i: int): Option<ByOp> {
    if i == FD_SETADD then Some(Plus)
    else if i == FD_SETSUB then Some(Minus)
    else if i == FD_SETMOD then Some(Modulo)
    else None
  }

  datatype Option<T> = None | Some(value: T)

  /** Numbers pushed: constants, values, bounds. */
  ghost function StepLoad(code: seq<int>, b: Args, st: St): Next
    requires 0 <= st.pc < |code|
  {
    var op := code[st.pc];
    var (x, len) := Operand(code, st.pc);
    if op == FD_CONST then
      if st.pc + 1 < |code| then Go(St(st.pc + 2, st.vs + [code[st.pc + 1]], st.hp)) else Stop(Fatal)
    else if op == FD_MAXELEM then Go(St(st.pc + 1, st.vs + [255], st.hp))
    else if !(0 <= x < |b|) then Stop(Fatal)
    else if IsDom(op) then Go(St(st.pc + len, st.vs + [8 * |st.hp|], st.hp + [DomAt(b, x) * Universe()]))
    else if IsDomMin(op) then Go(St(st.pc + len, st.vs + [VarMin(DomAt(b, x))], st.hp))
    else if IsVal(op) && !Single(DomAt(b, x)) then Stop(Fatal)
    else Go(St(st.pc + len, st.vs + [VarMax(DomAt(b, x))], st.hp))
  }

  /** Instructions on two operands: X on top, Y below. */
  ghost function StepTwo(op: int, st: St): Next {
    var n := |st.vs|;
    if n < 2 then Stop(Fatal)
    else
      var r1, r2 := st.vs[n - 1], st.vs[n - 2];
      if BinOf(op).Some? then
        if NeedsDivisor(BinOf(op).value) && r2 == 0 then Stop(Fatal)
        else Go(St(st.pc + 1, st.vs[..n - 2] + [Arith(BinOf(op).value, r1, r2)], st.hp))
      else if ByOf(op).Some? then
        if !IsAddr(r1, st.hp) || !NumberFits(ByOf(op).value, r2) then Stop(Fatal)
        else Go(St(st.pc + 1, st.vs[..n - 2] + [r1], st.hp[r1 / 8 := MovedBy(ByOf(op).value, st.hp[r1 / 8], r2)]))
      else if op == FD_RANGE then
        if !InReach(r1, r2) then Stop(Fatal)
        else Go(St(st.pc + 1, st.vs[..n - 2] + [8 * |st.hp|], st.hp + [Spanned(r1, r2)]))
      else if op == FD_OUTER_RANGE then
        Stop(if r1 > r2 || r2 < 0 then Bounds(1, 0) else Bounds(if r1 < 0 then 0 else r1, r2))
      else if op != FD_UNION && op != FD_INTER then Stop(Fatal)
      else if r1 != 8 * (|st.hp| - 1) || !IsAddr(r2, st.hp) || r1 == r2 then Stop(Fatal)
      else
        Go(St(st.pc + 1, st.vs[..n - 1],
              st.hp[..|st.hp| - 1][r2 / 8 := Combined(if op == FD_UNION then Union
                else Inter, st.hp[r2 / 8], st.hp[r1 / 8])]))
  }

  /** Instructions on the set whose address is on top. */
  ghost function StepTop(code: seq<int>, st: St): Next
    requires 0 <= st.pc < |code|
  {
    var op, n := code[st.pc], |st.vs|;
    if n < 1 || !IsAddr(st.vs[n - 1], st.hp) then Stop(Fatal)
    else
      var r1 := st.vs[n - 1];
      var s := st.hp[r1 / 8];
      if op == FD_HALT then Stop(Elems(s))
      else if op == FD_COMPL then Go(St(st.pc + 1, st.vs, st.hp[r1 / 8 := Universe() - s]))
      else if op == FD_MIN then Go(St(st.pc + 1, st.vs[..n - 1] + [RangeMin(s)], st.hp[..|st.hp| - 1]))
      else if op == FD_MAX then Go(St(st.pc + 1, st.vs[..n - 1] + [RangeMax(s)], st.hp[..|st.hp| - 1]))
      else if s != {} then Go(St(st.pc + 2, st.vs[..n - 1], st.hp[..|st.hp| - 1]))
      else if st.pc + 1 < |code| && code[st.pc + 1] > st.pc then
        Go(St(code[st.pc + 1], st.vs, st.hp))
      else Stop(Fatal)
  }

  predicate IsLoad(op: int) {
    op == FD_CONST || op == FD_MAXELEM || IsVal(op) || IsDom(op) || IsDomMin(op) || IsDomMax(op)
  }

  predicate IsTop(op: int) {
    op == FD_HALT || op == FD_COMPL || op == FD_MIN || op == FD_MAX || op == FD_CHECK
  }

  ghost function Step(code: seq<int>, b: Args, st: St): (r: Next)
    ensures r.Go? ==> r.st.pc > st.pc && st.pc < |code|
  {
    if !(0 <= st.pc < |code|) || |st.vs| >= VStack || |st.hp| >= NrDoms then Stop(Fatal)
    else if IsLoad(code[st.pc]) then StepLoad(code, b, st)
    else if IsTop(code[st.pc]) then StepTop(code, st)
    else StepTwo(code[st.pc], st)
  }

  ghost function Exec(code: seq<int>, b: Args, st: St): Outcome
    decreases |code| - st.pc
  {
    match Step(code, b, st)
    case Stop(o) => o
    case Go(next) => Exec(code, b, next)
  }

  // ------------------------------------------------ compiled code

  /** The cells c lie in the code at p. */
  predicate At(code: seq<int>, p: int, c: seq<int>) {
    0 <= p && p + |c| <= |code| && code[p..p + |c|] == c
  }

  /** From st the machine either stops fatally or, which takes ok, goes on as
      from nx; and if it is ok and fits the stacks, it does go on. */
  ghost predicate Runs(code: seq<int>, b: Args, st: St, nx: St, ok: bool, fits: bool) {
    && (Exec(code, b, st) == Fatal || (ok && Exec(code, b, st) == Exec(code, b, nx)))
    && (ok && fits ==> Exec(code, b, st) == Exec(code, b, nx))
  }

  lemma RunsTwice(code: seq<int>, b: Args, st: St, mid: St, nx: St, ok1: bool, fits1: bool, ok2: bool, fits2: bool)
    requires Runs(code, b, st, mid, ok1, fits1) && Runs(code, b, mid, nx, ok2, fits2)
    ensures Runs(code, b, st, nx, ok1 && ok2, fits1 && fits2)
  {
    hide Exec;
  }

  lemma AtParts(code: seq<int>, p: int, c: seq<int>, d: seq<int>)
    requires At(code, p, c + d)
    ensures At(code, p, c) && At(code, p + |c|, d)
  {
    var s := code[p..p + |c + d|];
    assert code[p..p + |c|] == s[..|c|];
    assert code[p + |c|..p + |c| + |d|] == s[|c|..];
    assert s[..|c|] == c && s[|c|..] == d;
  }

  lemma AtThree(code: seq<int>, p: int, c: seq<int>, d: seq<int>, op: int)
    requires At(code, p, c + d + [op])
    ensures At(code, p, c) && At(code, p + |c|, d)
    ensures 0 <= p + |c| + |d| < |code| && code[p + |c| + |d|] == op
  {
    AtParts(code, p, c + d, [op]);
    AtParts(code, p, c, d);
    assert code[p + |c + d|..p + |c + d| + 1][0] == op;
  }

  /** Room for one instruction. */
  predicate Room(v: int, h: int) {
    v < VStack && h < NrDoms
  }

  /** The stacks, v values and h sets deep, never run over in the code of t. */
  predicate FitsT(t: Term, v: int, h: int) {
    match t
    case Val(_) => Room(v, h)
    case MaxElem => Room(v, h)
    case Const(_) => Room(v, h)
    case MinVar(_) => Room(v, h)
    case MaxVar(_) => Room(v, h)
    case Bin(_, p, q) => FitsT(q, v, h) && FitsT(p, v + 1, h) && Room(v + 2, h)
    case MinOf(r) => FitsR(r, v, h) && Room(v + 1, h + 1)
    case MaxOf(r) => FitsR(r, v, h) && Room(v + 1, h + 1)
  }

  predicate FitsR(r: Range, v: int, h: int) {
    match r
    case Dom(_) => Room(v, h)
    case Span(lo, hi) => FitsT(hi, v, h) && FitsT(lo, v + 1, h) && Room(v + 2, h)
    case By(_, q, t) => FitsT(t, v, h) && FitsR(q, v + 1, h) && Room(v + 2, h + 1)
    case Compl(q) => FitsR(q, v, h) && Room(v + 1, h + 1)
    case Pair(_, p, q) => FitsR(q, v, h) && FitsR(p, v + 1, h + 1) && Room(v + 2, h + 2)
    case Check(p, q) => FitsR(p, v, h) && Room(v + 1, h + 1) && FitsR(q, v, h)
  }

  ghost predicate Stores(b: Args) {
    forall x :: 0 <= x < |b| ==> b[x] <= Universe()
  }

  ghost function AfterT(t: Term, b: Args, st: St): St
  {
    St(st.pc + |CodeT(t, st.pc)|, st.vs + [EvalT(t, b)], st.hp)
  }

  ghost function AfterR(r: Range, b: Args, st: St): St
  {
    St(st.pc + |CodeR(r, st.pc)|, st.vs + [8 * |st.hp|], st.hp + [EvalR(r, b)])
  }

  /** One step, where there is room for it. */
  lemma RunStep(code: seq<int>, b: Args, st: St, nx: St, ok: bool)
    requires 0 <= st.pc < |code|
    requires Room(|st.vs|, |st.hp|) ==> Step(code, b, st) == if ok then Go(nx) else Stop(Fatal)
    ensures Runs(code, b, st, nx, ok, Room(|st.vs|, |st.hp|))
  {
    hide StepLoad, StepTop, StepTwo;
  }

  lemma RunLoad(code: seq<int>, b: Args, st: St, x: nat, op: int, c: seq<int>, nx: St, ok: bool)
    requires IsVal(op) || IsDom(op) || IsDomMin(op) || IsDomMax(op)
    requires At(code, st.pc, c) && |c| > 0 && c[0] == op
    requires Operand(c, 0) == (x, |c|)
    requires ok == (x < |b| && (IsVal(op) ==> Single(DomAt(b, x))))
    requires nx == St(st.pc + |c|,
                      st.vs + [if IsDom(op) then 8 * |st.hp| else if IsDomMin(op) then VarMin(DomAt(b, x))
                        else VarMax(DomAt(b, x))],
                      if IsDom(op) then st.hp + [DomAt(b, x) * Universe()] else st.hp)
    ensures Runs(code, b, st, nx, ok, Room(|st.vs|, |st.hp|))
  {
    hide Exec;
    assert code[st.pc] == code[st.pc..st.pc + |c|][0];
    if |c| > 1 {
      assert code[st.pc + 1] == code[st.pc..st.pc + |c|][1];
    }
    assert Operand(code, st.pc) == (x, |c|);
    RunStep(code, b, st, nx, ok);
  }

  lemma RunArith(code: seq<int>, b: Args, pc: int, vs: seq<int>, y: int, x: int, hp: seq<set<int>>, op: BinOp)
    requires 0 <= pc < |code| && code[pc] == BinInstr(op)
    ensures Runs(code, b, St(pc, vs + [y] + [x], hp), St(pc + 1, vs + [Arith(op, x, y)], hp),
                 NeedsDivisor(op) ==> y != 0, Room(|vs| + 2, |hp|))
  {
    hide Exec, Arith;
    var ws := vs + [y] + [x];
    assert ws[..|ws| - 2] == vs && ws[|ws| - 1] == x && ws[|ws| - 2] == y;
    assert BinOf(BinInstr(op)) == Some(op);
    RunStep(code, b, St(pc, ws, hp), St(pc + 1, vs + [Arith(op, x, y)], hp), NeedsDivisor(op) ==> y != 0);
  }

  lemma RunSpan(code: seq<int>, b: Args, pc: int, vs: seq<int>, y: int, x: int, hp: seq<set<int>>)
    requires 0 <= pc < |code| && code[pc] == FD_RANGE
    ensures Runs(code, b, St(pc, vs + [y] + [x], hp),
                 St(pc + 1, vs + [8 * |hp|], hp + [Spanned(x, y)]),
                 InReach(x, y), Room(|vs| + 2, |hp|))
  {
    hide Exec, Spanned;
    var ws := vs + [y] + [x];
    assert ws[..|ws| - 2] == vs && ws[|ws| - 1] == x && ws[|ws| - 2] == y;
    RunStep(code, b, St(pc, ws, hp), St(pc + 1, vs + [8 * |hp|], hp + [Spanned(x, y)]), InReach(x, y));
  }

  lemma RunMove(code: seq<int>, b: Args, pc: int, vs: seq<int>, k: int, s: set<int>, hp: seq<set<int>>, op: ByOp)
    requires 0 <= pc < |code| && code[pc] == ByInstr(op)
    ensures Runs(code, b, St(pc, vs + [k] + [8 * |hp|], hp + [s]),
                 St(pc + 1, vs + [8 * |hp|], hp + [MovedBy(op, s, k)]),
                 NumberFits(op, k), Room(|vs| + 2, |hp| + 1))
  {
    hide Exec, MovedBy, NumberFits;
    var ws, hs := vs + [k] + [8 * |hp|], hp + [s];
    assert ws[..|ws| - 2] == vs && ws[|ws| - 1] == 8 * |hp| && ws[|ws| - 2] == k;
    assert hs[|hp| := MovedBy(op, s, k)] == hp + [MovedBy(op, s, k)];
    assert IsAddr(8 * |hp|, hs) && (8 * |hp|) / 8 == |hp|;
    assert ByOf(ByInstr(op)) == Some(op) && BinOf(ByInstr(op)) == None;
    RunStep(code, b, St(pc, ws, hs), St(pc + 1, vs + [8 * |hp|], hp + [MovedBy(op, s, k)]), NumberFits(op, k));
  }

  lemma RunPair(code: seq<int>, b: Args, pc: int, vs: seq<int>, s2: set<int>, s1: set<int>, hp: seq<set<int>>,
    op: PairOp)
    requires 0 <= pc < |code| && code[pc] == PairInstr(op)
    ensures Runs(code, b, St(pc, vs + [8 * |hp|] + [8 * |hp + [s2]|], hp + [s2] + [s1]),
                 St(pc + 1, vs + [8 * |hp|], hp + [Combined(op, s1, s2)]),
                 true, Room(|vs| + 2, |hp| + 2))
  {
    hide Exec;
    var ws, hs := vs + [8 * |hp|] + [8 * |hp + [s2]|], hp + [s2] + [s1];
    assert ws[|ws| - 1] == 8 * (|hp| + 1) && ws[|ws| - 2] == 8 * |hp| && ws[..|ws| - 1] == vs + [8 * |hp|];
    assert BinOf(PairInstr(op)) == None && ByOf(PairInstr(op)) == None;
    var both := Combined(op, s2, s1);
    assert both == Combined(op, s1, s2);
    hide Combined;
    assert hs[..|hs| - 1][|hp| := both] == hp + [both];
    assert IsAddr(8 * |hp|, hs) && (8 * |hp|) / 8 == |hp| && (8 * (|hp| + 1)) / 8 == |hp| + 1;
    RunStep(code, b, St(pc, ws, hs), St(pc + 1, vs + [8 * |hp|], hp + [both]), true);
  }

  /** Complement and the two bounds, on the set on top. */
  lemma RunTop(code: seq<int>, b: Args, pc: int, vs: seq<int>, s: set<int>, hp: seq<set<int>>, op: int)
    requires 0 <= pc < |code| && code[pc] == op && (op == FD_COMPL || op == FD_MIN || op == FD_MAX)
    ensures Runs(code, b, St(pc, vs + [8 * |hp|], hp + [s]),
                 if op == FD_COMPL then St(pc + 1, vs + [8 * |hp|], hp + [Universe() - s])
                 else St(pc + 1, vs + [if op == FD_MIN then RangeMin(s) else RangeMax(s)], hp),
                 true, Room(|vs| + 1, |hp| + 1))
  {
    hide Exec, RangeMin, RangeMax;
    var ws, hs := vs + [8 * |hp|], hp + [s];
    assert ws[..|ws| - 1] == vs && hs[..|hs| - 1] == hp && ws[|ws| - 1] == 8 * |hp|;
    assert hs[|hp| := Universe() - s] == hp + [Universe() - s];
    assert IsAddr(8 * |hp|, hs) && (8 * |hp|) / 8 == |hp|;
    RunStep(code, b, St(pc, ws, hs),
            if op == FD_COMPL then St(pc + 1, vs + [8 * |hp|], hp + [Universe() - s])
            else St(pc + 1, vs + [if op == FD_MIN then RangeMin(s) else RangeMax(s)], hp), true);
  }

  /** A check at pc leaves a non-empty set behind and goes on; an empty one it
      keeps, and jumps. */
  ghost function AfterCheck(pc: int, vs: seq<int>, s: set<int>, hp: seq<set<int>>, to: int): St {
    if s != {} then St(pc + 2, vs, hp) else St(to, vs + [8 * |hp|], hp + [s])
  }

  lemma RunCheck(code: seq<int>, b: Args, pc: int, vs: seq<int>, s: set<int>, hp: seq<set<int>>, to: int)
    requires 0 <= pc && pc + 1 < |code| && code[pc] == FD_CHECK && code[pc + 1] == to && to > pc
    ensures Runs(code, b, St(pc, vs + [8 * |hp|], hp + [s]),
                 AfterCheck(pc, vs, s, hp, to), true, Room(|vs| + 1, |hp| + 1))
  {
    hide Exec, Runs;
    var st := St(pc, vs + [8 * |hp|], hp + [s]);
    var nx := AfterCheck(pc, vs, s, hp, to);
    TopCheck(code, pc, vs, s, hp, to);
    hide StepTop;
    RunStep(code, b, st, nx, true);
  }

  lemma TopCheck(code: seq<int>, pc: int, vs: seq<int>, s: set<int>, hp: seq<set<int>>, to: int)
    requires 0 <= pc && pc + 1 < |code| && code[pc] == FD_CHECK && code[pc + 1] == to && to > pc
    ensures StepTop(code, St(pc, vs + [8 * |hp|], hp + [s])) ==
            Go(AfterCheck(pc, vs, s, hp, to))
  {
    var ws, hs := vs + [8 * |hp|], hp + [s];
    assert ws[..|ws| - 1] == vs && hs[..|hs| - 1] == hp && ws[|ws| - 1] == 8 * |hp|;
    assert IsAddr(8 * |hp|, hs) && (8 * |hp|) / 8 == |hp| && hs[|hp|] == s;
  }

  // ------------------------------------------------ compiler correctness

  lemma {:induction false} RunT(t: Term, code: seq<int>, b: Args, st: St)
    requires Stores(b) && At(code, st.pc, CodeT(t, st.pc))
    ensures Runs(code, b, st, AfterT(t, b, st), OkT(t, b), FitsT(t, |st.vs|, |st.hp|))
    decreases t, 1
  {
    match t
    case Val(_) => RunLeaf(t, code, b, st);
    case MinVar(_) => RunLeaf(t, code, b, st);
    case MaxVar(_) => RunLeaf(t, code, b, st);
    case MaxElem => RunLeaf(t, code, b, st);
    case Const(_) => RunLeaf(t, code, b, st);
    case MinOf(r) => RunBound(t, r, FD_MIN, code, b, st);
    case MaxOf(r) => RunBound(t, r, FD_MAX, code, b, st);
    case Bin(op, p, q) => RunTT(t, op, p, q, code, b, st);
  }

  lemma RunLeaf(t: Term, code: seq<int>, b: Args, st: St)
    requires t.Val? || t.MinVar? || t.MaxVar? || t.MaxElem? || t.Const?
    requires At(code, st.pc, CodeT(t, st.pc))
    ensures Runs(code, b, st, AfterT(t, b, st), OkT(t, b), Room(|st.vs|, |st.hp|))
  {
    hide Exec, Runs, At;
    var c := CodeT(t, st.pc);
    match t
    case Val(x) => RunLoad(code, b, st, x, c[0], c, AfterT(t, b, st), OkT(t, b));
    case MinVar(x) => RunLoad(code, b, st, x, c[0], c, AfterT(t, b, st), OkT(t, b));
    case MaxVar(x) => RunLoad(code, b, st, x, c[0], c, AfterT(t, b, st), OkT(t, b));
    case MaxElem => RunNumber(t, code, b, st);
    case Const(_) => RunNumber(t, code, b, st);
  }

  lemma RunNumber(t: Term, code: seq<int>, b: Args, st: St)
    requires t.MaxElem? || t.Const?
    requires At(code, st.pc, CodeT(t, st.pc))
    ensures Runs(code, b, st, AfterT(t, b, st), true, Room(|st.vs|, |st.hp|))
  {
    var c := CodeT(t, st.pc);
    assert code[st.pc] == code[st.pc..st.pc + |c|][0];
    if t.Const? {
      assert code[st.pc + 1] == code[st.pc..st.pc + |c|][1];
    }
    hide Exec;
    RunStep(code, b, st, AfterT(t, b, st), true);
  }

  lemma AtTwo(code: seq<int>, p: int, c: seq<int>, op: int)
    requires At(code, p, c + [op])
    ensures At(code, p, c) && 0 <= p + |c| < |code| && code[p + |c|] == op
  {
    AtParts(code, p, c, [op]);
    assert code[p + |c|..p + |c| + 1][0] == op;
  }

  /** The machine after a term and after a range, spelled out. */
  lemma AfterTerm(t: Term, b: Args, st: St)
    ensures AfterT(t, b, st) == St(st.pc + |CodeT(t, st.pc)|, st.vs + [EvalT(t, b)], st.hp)
  {
  }

  lemma AfterRange(r: Range, b: Args, st: St)
    ensures AfterR(r, b, st) == St(st.pc + |CodeR(r, st.pc)|, st.vs + [8 * |st.hp|], st.hp + [EvalR(r, b)])
  {
  }

  lemma BoundFacts(t: Term, r: Range, op: int, b: Args, pc: int, v: int, h: int)
    requires (t == MinOf(r) && op == FD_MIN) || (t == MaxOf(r) && op == FD_MAX)
    ensures op != FD_COMPL
            && EvalT(t, b) == (if op == FD_MIN then RangeMin(EvalR(r, b)) else RangeMax(EvalR(r, b)))
            && OkT(t, b) == OkR(r, b)
            && FitsT(t, v, h) == (FitsR(r, v, h) && Room(v + 1, h + 1))
            && CodeT(t, pc) == CodeR(r, pc) + [op]
  {
  }

  lemma {:induction false} RunBound(t: Term, r: Range, op: int, code: seq<int>, b: Args, st: St)
    requires (t == MinOf(r) && op == FD_MIN) || (t == MaxOf(r) && op == FD_MAX)
    requires Stores(b) && At(code, st.pc, CodeT(t, st.pc))
    ensures Runs(code, b, st, AfterT(t, b, st), OkT(t, b), FitsT(t, |st.vs|, |st.hp|))
    decreases t, 0
  {
    hide *;
    BoundFacts(t, r, op, b, st.pc, |st.vs|, |st.hp|);
    var c := CodeR(r, st.pc);
    AtTwo(code, st.pc, c, op);
    AfterRange(r, b, st);
    AfterTerm(t, b, st);
    RunR(r, code, b, st);
    RunTop(code, b, st.pc + |c|, st.vs, EvalR(r, b), st.hp, op);
    RunsTwice(code, b, st, AfterR(r, b, st), AfterT(t, b, st), OkR(r, b), FitsR(r, |st.vs|, |st.hp|),
              true, Room(|st.vs| + 1, |st.hp| + 1));
  }

  lemma BinEval(op: BinOp, p: Term, q: Term, b: Args)
    ensures EvalT(Bin(op, p, q), b) == Arith(op, EvalT(p, b), EvalT(q, b))
  {
    hide Arith;
  }

  lemma BinOk(op: BinOp, p: Term, q: Term, b: Args)
    ensures OkT(Bin(op, p, q), b) == (OkT(q, b) && OkT(p, b) && (NeedsDivisor(op) ==> EvalT(q, b) != 0))
  {
    hide EvalT, NeedsDivisor;
  }

  lemma BinFits(op: BinOp, p: Term, q: Term, v: int, h: int)
    ensures FitsT(Bin(op, p, q), v, h) == (FitsT(q, v, h) && FitsT(p, v + 1, h) && Room(v + 2, h))
  {
    hide Room;
  }

  lemma BinCode(op: BinOp, p: Term, q: Term, pc: int)
    ensures CodeT(Bin(op, p, q), pc) == CodeT(q, pc) + CodeT(p, pc + |CodeT(q, pc)|) + [BinInstr(op)]
  {
    hide BinInstr;
  }

  lemma BinFacts(op: BinOp, p: Term, q: Term, b: Args, pc: int, v: int, h: int)
    ensures var t := Bin(op, p, q);
            && EvalT(t, b) == Arith(op, EvalT(p, b), EvalT(q, b))
            && OkT(t, b) == (OkT(q, b) && OkT(p, b) && (NeedsDivisor(op) ==> EvalT(q, b) != 0))
            && FitsT(t, v, h) == (FitsT(q, v, h) && FitsT(p, v + 1, h) && Room(v + 2, h))
            && CodeT(t, pc) == CodeT(q, pc) + CodeT(p, pc + |CodeT(q, pc)|) + [BinInstr(op)]
  {
    hide *;
    BinEval(op, p, q, b);
    BinOk(op, p, q, b);
    BinFits(op, p, q, v, h);
    BinCode(op, p, q, pc);
  }

  lemma {:induction false} RunTT(t: Term, op: BinOp, p: Term, q: Term, code: seq<int>, b: Args, st: St)
    requires t == Bin(op, p, q)
    requires Stores(b) && At(code, st.pc, CodeT(t, st.pc))
    ensures Runs(code, b, st, AfterT(t, b, st), OkT(t, b), FitsT(t, |st.vs|, |st.hp|))
    decreases t, 0
  {
    hide *;
    BinFacts(op, p, q, b, st.pc, |st.vs|, |st.hp|);
    var c := CodeT(q, st.pc);
    AtThree(code, st.pc, c, CodeT(p, st.pc + |c|), BinInstr(op));
    var mid := AfterT(q, b, st);
    var two := AfterT(p, b, mid);
    AfterTerm(q, b, st);
    AfterTerm(p, b, mid);
    AfterTerm(t, b, st);
    RunT(q, code, b, st);
    RunT(p, code, b, mid);
    RunsTwice(code, b, st, mid, two, OkT(q, b), FitsT(q, |st.vs|, |st.hp|), OkT(p, b), FitsT(p, |st.vs| + 1, |st.hp|));
    RunArith(code, b, two.pc, st.vs, EvalT(q, b), EvalT(p, b), st.hp, op);
    RunsTwice(code, b, st, two, AfterT(t, b, st), OkT(q, b) && OkT(p, b),
              FitsT(q, |st.vs|, |st.hp|) && FitsT(p, |st.vs| + 1, |st.hp|),
              NeedsDivisor(op) ==> EvalT(q, b) != 0, Room(|st.vs| + 2, |st.hp|));
  }

  lemma {:induction false} RunR(r: Range, code: seq<int>, b: Args, st: St)
    requires Stores(b) && At(code, st.pc, CodeR(r, st.pc))
    ensures Runs(code, b, st, AfterR(r, b, st), OkR(r, b), FitsR(r, |st.vs|, |st.hp|))
    decreases r, 1
  {
    match r
    case Dom(x) =>
      var c := CodeR(r, st.pc);
      hide Exec, Runs;
      RunLoad(code, b, st, x, c[0], c, AfterR(r, b, st), OkR(r, b));
    case Span(lo, hi) => RunSpanOf(r, lo, hi, code, b, st);
    case By(op, q, t) => RunRT(r, op, q, t, code, b, st);
    case Compl(q) => RunCompl(r, q, code, b, st);
    case Pair(op, p, q) => RunRR(r, op, p, q, code, b, st);
    case Check(p, q) => RunGuard(r, p, q, code, b, st);
  }

  lemma ComplFacts(q: Range, b: Args, pc: int, v: int, h: int)
    ensures var r := Compl(q);
           
            && EvalR(r, b) == Universe() - EvalR(q, b)
            && OkR(r, b) == OkR(q, b)
            && FitsR(r, v, h) == (FitsR(q, v, h) && Room(v + 1, h + 1))
            && CodeR(r, pc) == CodeR(q, pc) + [FD_COMPL]
  {
  }

  lemma {:induction false} RunCompl(r: Range, q: Range, code: seq<int>, b: Args, st: St)
    requires r == Compl(q)
    requires Stores(b) && At(code, st.pc, CodeR(r, st.pc))
    ensures Runs(code, b, st, AfterR(r, b, st), OkR(r, b), FitsR(r, |st.vs|, |st.hp|))
    decreases r, 0
  {
    ComplFacts(q, b, st.pc, |st.vs|, |st.hp|);
    hide *;
    var c := CodeR(q, st.pc);
    AtTwo(code, st.pc, c, FD_COMPL);
    AfterRange(q, b, st);
    AfterRange(r, b, st);
    RunR(q, code, b, st);
    RunTop(code, b, st.pc + |c|, st.vs, EvalR(q, b), st.hp, FD_COMPL);
    RunsTwice(code, b, st, AfterR(q, b, st), AfterR(r, b, st), OkR(q, b), FitsR(q, |st.vs|, |st.hp|),
              true, Room(|st.vs| + 1, |st.hp| + 1));
  }

  lemma SpanFacts(lo: Term, hi: Term, b: Args, pc: int, v: int, h: int)
    ensures var r := Span(lo, hi);
            && EvalR(r, b) == Spanned(EvalT(lo, b), EvalT(hi, b))
            && OkR(r, b) == (OkT(hi, b) && OkT(lo, b) && InReach(EvalT(lo, b), EvalT(hi, b)))
            && FitsR(r, v, h) == (FitsT(hi, v, h) && FitsT(lo, v + 1, h) && Room(v + 2, h))
            && CodeR(r, pc) == CodeT(hi, pc) + CodeT(lo, pc + |CodeT(hi, pc)|) + [FD_RANGE]
  {
    hide Spanned, EvalT, OkT, FitsT, CodeT, InReach, Room;
  }

  lemma {:induction false} RunSpanOf(r: Range, lo: Term, hi: Term, code: seq<int>, b: Args, st: St)
    requires r == Span(lo, hi)
    requires Stores(b) && At(code, st.pc, CodeR(r, st.pc))
    ensures Runs(code, b, st, AfterR(r, b, st), OkR(r, b), FitsR(r, |st.vs|, |st.hp|))
    decreases r, 0
  {
    SpanFacts(lo, hi, b, st.pc, |st.vs|, |st.hp|);
    hide *;
    var c := CodeT(hi, st.pc);
    AtThree(code, st.pc, c, CodeT(lo, st.pc + |c|), FD_RANGE);
    var mid := AfterT(hi, b, st);
    var two := AfterT(lo, b, mid);
    AfterTerm(hi, b, st);
    AfterTerm(lo, b, mid);
    AfterRange(r, b, st);
    RunT(hi, code, b, st);
    RunT(lo, code, b, mid);
    RunsTwice(code, b, st, mid, two, OkT(hi, b), FitsT(hi, |st.vs|, |st.hp|), OkT(lo, b),
      FitsT(lo, |st.vs| + 1, |st.hp|));
    RunSpan(code, b, two.pc, st.vs, EvalT(hi, b), EvalT(lo, b), st.hp);
    RunsTwice(code, b, st, two, AfterR(r, b, st), OkT(hi, b) && OkT(lo, b),
              FitsT(hi, |st.vs|, |st.hp|) && FitsT(lo, |st.vs| + 1, |st.hp|),
              InReach(EvalT(lo, b), EvalT(hi, b)), Room(|st.vs| + 2, |st.hp|));
  }

  lemma ByEval(op: ByOp, q: Range, t: Term, b: Args)
    ensures EvalR(By(op, q, t), b) == MovedBy(op, EvalR(q, b), EvalT(t, b))
  {
    hide MovedBy, EvalT;
  }

  lemma ByOk(op: ByOp, q: Range, t: Term, b: Args)
    ensures OkR(By(op, q, t), b) == (OkT(t, b) && OkR(q, b) && NumberFits(op, EvalT(t, b)))
  {
    hide EvalT, NumberFits, OkT;
  }

  lemma ByFits(op: ByOp, q: Range, t: Term, v: int, h: int)
    ensures FitsR(By(op, q, t), v, h) == (FitsT(t, v, h) && FitsR(q, v + 1, h) && Room(v + 2, h + 1))
  {
    hide Room, FitsT;
  }

  lemma ByCode(op: ByOp, q: Range, t: Term, pc: int)
    ensures CodeR(By(op, q, t), pc) == CodeT(t, pc) + CodeR(q, pc + |CodeT(t, pc)|) + [ByInstr(op)]
  {
    hide ByInstr, CodeT;
  }

  lemma ByFacts(op: ByOp, q: Range, t: Term, b: Args, pc: int, v: int, h: int)
    ensures var r := By(op, q, t);
            && EvalR(r, b) == MovedBy(op, EvalR(q, b), EvalT(t, b))
            && OkR(r, b) == (OkT(t, b) && OkR(q, b) && NumberFits(op, EvalT(t, b)))
            && FitsR(r, v, h) == (FitsT(t, v, h) && FitsR(q, v + 1, h) && Room(v + 2, h + 1))
            && CodeR(r, pc) == CodeT(t, pc) + CodeR(q, pc + |CodeT(t, pc)|) + [ByInstr(op)]
  {
    hide *;
    ByEval(op, q, t, b);
    ByOk(op, q, t, b);
    ByFits(op, q, t, v, h);
    ByCode(op, q, t, pc);
  }

  lemma {:induction false} RunRT(r: Range, op: ByOp, q: Range, t: Term, code: seq<int>, b: Args, st: St)
    requires r == By(op, q, t)
    requires Stores(b) && At(code, st.pc, CodeR(r, st.pc))
    ensures Runs(code, b, st, AfterR(r, b, st), OkR(r, b), FitsR(r, |st.vs|, |st.hp|))
    decreases r, 0
  {
    hide *;
    ByFacts(op, q, t, b, st.pc, |st.vs|, |st.hp|);
    var c := CodeT(t, st.pc);
    AtThree(code, st.pc, c, CodeR(q, st.pc + |c|), ByInstr(op));
    var mid := AfterT(t, b, st);
    var two := AfterR(q, b, mid);
    AfterTerm(t, b, st);
    AfterRange(q, b, mid);
    AfterRange(r, b, st);
    RunT(t, code, b, st);
    RunR(q, code, b, mid);
    RunsTwice(code, b, st, mid, two, OkT(t, b), FitsT(t, |st.vs|, |st.hp|), OkR(q, b), FitsR(q, |st.vs| + 1, |st.hp|));
    RunMove(code, b, two.pc, st.vs, EvalT(t, b), EvalR(q, b), st.hp, op);
    RunsTwice(code, b, st, two, AfterR(r, b, st), OkT(t, b) && OkR(q, b),
              FitsT(t, |st.vs|, |st.hp|) && FitsR(q, |st.vs| + 1, |st.hp|),
              NumberFits(op, EvalT(t, b)), Room(|st.vs| + 2, |st.hp| + 1));
  }

  lemma PairEval(op: PairOp, p: Range, q: Range, b: Args)
    ensures EvalR(Pair(op, p, q), b) == Combined(op, EvalR(p, b), EvalR(q, b))
  {
    hide Combined;
  }

  lemma PairOk(op: PairOp, p: Range, q: Range, b: Args)
    ensures OkR(Pair(op, p, q), b) == (OkR(q, b) && OkR(p, b))
  {
  }

  lemma PairFits(op: PairOp, p: Range, q: Range, v: int, h: int)
    ensures FitsR(Pair(op, p, q), v, h) == (FitsR(q, v, h) && FitsR(p, v + 1, h + 1) && Room(v + 2, h + 2))
  {
    hide Room;
  }

  lemma PairCode(op: PairOp, p: Range, q: Range, pc: int)
    ensures CodeR(Pair(op, p, q), pc) == CodeR(q, pc) + CodeR(p, pc + |CodeR(q, pc)|) + [PairInstr(op)]
  {
    hide PairInstr;
  }

  lemma PairFacts(op: PairOp, p: Range, q: Range, b: Args, pc: int, v: int, h: int)
    ensures var r := Pair(op, p, q);
            && EvalR(r, b) == Combined(op, EvalR(p, b), EvalR(q, b))
            && OkR(r, b) == (OkR(q, b) && OkR(p, b))
            && FitsR(r, v, h) == (FitsR(q, v, h) && FitsR(p, v + 1, h + 1) && Room(v + 2, h + 2))
            && CodeR(r, pc) == CodeR(q, pc) + CodeR(p, pc + |CodeR(q, pc)|) + [PairInstr(op)]
  {
    hide *;
    PairEval(op, p, q, b);
    PairOk(op, p, q, b);
    PairFits(op, p, q, v, h);
    PairCode(op, p, q, pc);
  }

  lemma {:induction false} RunRR(r: Range, op: PairOp, p: Range, q: Range, code: seq<int>, b: Args, st: St)
    requires r == Pair(op, p, q)
    requires Stores(b) && At(code, st.pc, CodeR(r, st.pc))
    ensures Runs(code, b, st, AfterR(r, b, st), OkR(r, b), FitsR(r, |st.vs|, |st.hp|))
    decreases r, 0
  {
    hide *;
    PairFacts(op, p, q, b, st.pc, |st.vs|, |st.hp|);
    var c := CodeR(q, st.pc);
    AtThree(code, st.pc, c, CodeR(p, st.pc + |c|), PairInstr(op));
    var mid := AfterR(q, b, st);
    var two := AfterR(p, b, mid);
    AfterRange(q, b, st);
    AfterRange(p, b, mid);
    AfterRange(r, b, st);
    RunR(q, code, b, st);
    RunR(p, code, b, mid);
    RunsTwice(code, b, st, mid, two, OkR(q, b), FitsR(q, |st.vs|, |st.hp|), OkR(p, b),
      FitsR(p, |st.vs| + 1, |st.hp| + 1));
    RunPair(code, b, two.pc, st.vs, EvalR(q, b), EvalR(p, b), st.hp, op);
    RunsTwice(code, b, st, two, AfterR(r, b, st), OkR(q, b) && OkR(p, b),
              FitsR(q, |st.vs|, |st.hp|) && FitsR(p, |st.vs| + 1, |st.hp| + 1),
              true, Room(|st.vs| + 2, |st.hp| + 2));
  }

  lemma GuardFacts(p: Range, q: Range, b: Args, pc: int, v: int, h: int)
    ensures EvalR(p, b) == {} ==>
              EvalR(Check(p, q), b) == EvalR(p, b) && OkR(Check(p, q), b) == OkR(p, b)
    ensures EvalR(p, b) != {} ==>
              EvalR(Check(p, q), b) == EvalR(q, b) && OkR(Check(p, q), b) == (OkR(p, b) && OkR(q, b))
    ensures FitsR(Check(p, q), v, h) == (FitsR(p, v, h) && Room(v + 1, h + 1) && FitsR(q, v, h))
  {
  }

  /** The range tested, and the check after it. */
  lemma {:induction false} RunTested(p: Range, q: Range, code: seq<int>, b: Args, st: St)
    requires Stores(b) && At(code, st.pc, CodeR(Check(p, q), st.pc))
    ensures var at := st.pc + |CodeR(p, st.pc)|;
            var d := CodeR(q, at + 2);
            && At(code, at + 2, d)
            && Runs(code, b, st,
                    AfterCheck(at, st.vs, EvalR(p, b), st.hp, at + 2 + |d|),
                    OkR(p, b), FitsR(p, |st.vs|, |st.hp|) && Room(|st.vs| + 1, |st.hp| + 1))
    decreases Check(p, q), 0, 0
  {
    var c := CodeR(p, st.pc);
    var at := st.pc + |c|;
    var d := CodeR(q, at + 2);
    var to := at + 2 + |d|;
    CheckCode(p, q, st.pc);
    hide *;
    GuardCode(code, st.pc, c, d, to);
    AfterRange(p, b, st);
    RunR(p, code, b, st);
    RunCheck(code, b, at, st.vs, EvalR(p, b), st.hp, to);
    var nx := AfterCheck(at, st.vs, EvalR(p, b), st.hp, to);
    RunsTwice(code, b, st, AfterR(p, b, st), nx, OkR(p, b), FitsR(p, |st.vs|, |st.hp|),
              true, Room(|st.vs| + 1, |st.hp| + 1));
  }

  lemma CheckLength(p: Range, q: Range, pc: int)
    ensures var at := pc + |CodeR(p, pc)|;
            pc + |CodeR(Check(p, q), pc)| == at + 2 + |CodeR(q, at + 2)|
  {
  }

  lemma CheckGoes(pc: int, vs: seq<int>, s: set<int>, hp: seq<set<int>>, to: int)
    ensures s != {} ==> AfterCheck(pc, vs, s, hp, to) == St(pc + 2, vs, hp)
    ensures s == {} ==> AfterCheck(pc, vs, s, hp, to) == St(to, vs + [8 * |hp|], hp + [s])
  {
  }

  lemma {:induction false} RunGuard(r: Range, p: Range, q: Range, code: seq<int>, b: Args, st: St)
    requires r == Check(p, q)
    requires Stores(b) && At(code, st.pc, CodeR(r, st.pc))
    ensures Runs(code, b, st, AfterR(r, b, st), OkR(r, b), FitsR(r, |st.vs|, |st.hp|))
    decreases r, 0
  {
    GuardFacts(p, q, b, st.pc, |st.vs|, |st.hp|);
    var at := st.pc + |CodeR(p, st.pc)|;
    var d := CodeR(q, at + 2);
    CheckLength(p, q, st.pc);
    CheckGoes(at, st.vs, EvalR(p, b), st.hp, at + 2 + |d|);
    hide *;
    AfterRange(r, b, st);
    RunTested(p, q, code, b, st);
    var fits := FitsR(p, |st.vs|, |st.hp|) && Room(|st.vs| + 1, |st.hp| + 1);
    if EvalR(p, b) == {} {
      RunsWeaken(code, b, st, AfterR(r, b, st), OkR(p, b), fits, FitsR(r, |st.vs|, |st.hp|));
    } else {
      var two := St(at + 2, st.vs, st.hp);
      AfterRange(q, b, two);
      RunR(q, code, b, two);
      RunsTwice(code, b, st, two, AfterR(r, b, st), OkR(p, b), fits, OkR(q, b), FitsR(q, |st.vs|, |st.hp|));
    }
  }

  lemma RunsWeaken(code: seq<int>, b: Args, st: St, nx: St, ok: bool, fits: bool, less: bool)
    requires Runs(code, b, st, nx, ok, fits) && (less ==> fits)
    ensures Runs(code, b, st, nx, ok, less)
  {
    hide Exec;
  }

  lemma GuardCode(code: seq<int>, p: int, c: seq<int>, d: seq<int>, to: int)
    requires At(code, p, Guarded(c, d, p)) && to == p + |c| + 2 + |d|
    ensures At(code, p, c) && At(code, p + |c| + 2, d)
    ensures 0 <= p && p + |c| + 1 < |code| && code[p + |c|] == FD_CHECK && code[p + |c| + 1] == to
  {
    AtParts(code, p, c + [FD_CHECK, to], d);
    AtParts(code, p, c, [FD_CHECK, to]);
    assert code[p + |c|] == code[p + |c|..p + |c| + 2][0] && code[p + |c| + 1] == code[p + |c|..p + |c| + 2][1];
  }

  /** What an outcome says about the domain asked for. */
  ghost function Denotes(o: Outcome): set<int> {
    match o
    case Fatal => {}
    case Bounds(lo, hi) => Interval(lo, hi)
    case Elems(s) => s
  }

  predicate FitsO(e: Outer) {
    match e
    case OuterSpan(lo, hi) => FitsT(hi, 0, 0) && FitsT(lo, 1, 0) && Room(2, 0)
    case Inner(r) => FitsR(r, 0, 0) && Room(1, 1)
    case Element(_, _) => true
  }

  /** The code of an indexical yields the set the indexical denotes, unless it
      stops fatally; and it does not stop fatally when the evaluation is defined
      and the two stacks are deep enough for the expression. */
  lemma RunIndexical(e: Outer, code: seq<int>, b: Args, pc: int)
    requires Stores(b) && At(code, pc, CodeO(e, pc)) && !e.Element?
    ensures var o := Exec(code, b, St(pc, [], []));
            && (o != Fatal ==> OkO(e, b) && Denotes(o) == EvalO(e, b) && (o.Bounds? <==> e.OuterSpan?))
            && (o.Bounds? ==> (o.lo == 1 && o.hi == 0) || 0 <= o.lo <= o.hi)
            && (OkO(e, b) && FitsO(e) ==> o != Fatal)
  {
    match e
    case OuterSpan(lo, hi) => RunOuterSpan(lo, hi, code, b, pc);
    case Inner(r) => RunInner(r, code, b, pc);
  }

  lemma RunOuterSpan(lo: Term, hi: Term, code: seq<int>, b: Args, pc: int)
    requires Stores(b) && At(code, pc, CodeO(OuterSpan(lo, hi), pc))
    ensures var o := Exec(code, b, St(pc, [], []));
            var x, y := EvalT(lo, b), EvalT(hi, b);
            && (o == Fatal || (OkT(lo, b) && OkT(hi, b) && o == Clip(x, y)))
            && (OkT(lo, b) && OkT(hi, b) && FitsO(OuterSpan(lo, hi)) ==> o == Clip(x, y))
  {
    hide Exec, EvalT, OkT, FitsT, CodeT, At;
    OuterOperands(lo, hi, code, b, pc);
    var p2 := pc + |CodeT(hi, pc)| + |CodeT(lo, pc + |CodeT(hi, pc)|)|;
    LastSpan(code, b, p2, EvalT(hi, b), EvalT(lo, b));
  }

  lemma OuterCode(lo: Term, hi: Term, pc: int)
    ensures var c := CodeT(hi, pc);
            CodeO(OuterSpan(lo, hi), pc) == c + CodeT(lo, pc + |c|) + [FD_OUTER_RANGE] + [FD_HALT]
  {
  }

  lemma OuterOperands(lo: Term, hi: Term, code: seq<int>, b: Args, pc: int)
    requires Stores(b) && At(code, pc, CodeO(OuterSpan(lo, hi), pc))
    ensures var p2 := pc + |CodeT(hi, pc)| + |CodeT(lo, pc + |CodeT(hi, pc)|)|;
            && 0 <= p2 < |code| && code[p2] == FD_OUTER_RANGE
            && Runs(code, b, St(pc, [], []), St(p2, [EvalT(hi, b), EvalT(lo, b)], []),
                    OkT(hi, b) && OkT(lo, b), FitsT(hi, 0, 0) && FitsT(lo, 1, 0))
  {
    var st := St(pc, [], []);
    var c := CodeT(hi, pc);
    var d := CodeT(lo, pc + |c|);
    OuterCode(lo, hi, pc);
    hide *;
    AtParts(code, pc, c + d + [FD_OUTER_RANGE], [FD_HALT]);
    AtThree(code, pc, c, d, FD_OUTER_RANGE);
    var mid := AfterT(hi, b, st);
    var two := AfterT(lo, b, mid);
    AfterTerm(hi, b, st);
    AfterTerm(lo, b, mid);
    RunT(hi, code, b, st);
    RunT(lo, code, b, mid);
    RunsTwice(code, b, st, mid, two, OkT(hi, b), FitsT(hi, 0, 0), OkT(lo, b), FitsT(lo, 1, 0));
    assert [] + [EvalT(hi, b)] + [EvalT(lo, b)] == [EvalT(hi, b), EvalT(lo, b)];
  }

  function Clip(x: int, y: int): Outcome {
    if x > y || y < 0 then Bounds(1, 0) else Bounds(if x < 0 then 0 else x, y)
  }

  lemma LastSpan(code: seq<int>, b: Args, pc: int, y: int, x: int)
    requires 0 <= pc < |code| && code[pc] == FD_OUTER_RANGE
    ensures Exec(code, b, St(pc, [y, x], [])) == Clip(x, y)
  {
    assert Step(code, b, St(pc, [y, x], [])) == Stop(Clip(x, y));
  }

  lemma RunInner(r: Range, code: seq<int>, b: Args, pc: int)
    requires Stores(b) && At(code, pc, CodeO(Inner(r), pc))
    ensures var o := Exec(code, b, St(pc, [], []));
            && (o == Fatal || (OkR(r, b) && o == Elems(EvalR(r, b))))
            && (OkR(r, b) && FitsO(Inner(r)) ==> o == Elems(EvalR(r, b)))
  {
    hide Exec;
    var st := St(pc, [], []);
    var c := CodeR(r, pc);
    AtTwo(code, pc, c, FD_HALT);
    var two := AfterR(r, b, st);
    RunR(r, code, b, st);
    LastHalt(code, b, pc + |c|, EvalR(r, b));
    assert two == St(pc + |c|, [0], [EvalR(r, b)]);
  }

  lemma LastHalt(code: seq<int>, b: Args, pc: int, s: set<int>)
    requires 0 <= pc < |code| && code[pc] == FD_HALT
    ensures Exec(code, b, St(pc, [0], [s])) == Elems(s)
  {
    hide StepLoad, StepTop, StepTwo;
    TopHalt(code, pc, [0], [s]);
    assert Step(code, b, St(pc, [0], [s])) == Stop(Elems(s));
  }

  lemma TopHalt(code: seq<int>, pc: int, vs: seq<int>, hp: seq<set<int>>)
    requires 0 <= pc < |code| && code[pc] == FD_HALT && |vs| == |hp| == 1 && vs[0] == 0
    ensures StepTop(code, St(pc, vs, hp)) == Stop(Elems(hp[0]))
  {
    assert IsAddr(0, hp);
  }

  /** An indexical that has been loaded lies in the code area at the old top,
      and what was there before is still there. */
  lemma LoadedAt(e: Outer, st: Loading, nx: Loading)
    requires st.Loading? && st.labels == [] && NestO(e) <= CheckDepth
    requires nx == LoadAll(st, ParseO(e) + [Put(FD_HALT)]) && nx != Full
    ensures nx.Loading? && nx.labels == [] && st.code <= nx.code
    ensures At(nx.code, |st.code|, CodeO(e, |st.code|))
  {
    hide LoadAll, ParseO, CodeO, NestO;
    LoadIndexical(e, st);
    var c := CodeO(e, |st.code|);
    assert (st.code + c)[|st.code|..|st.code| + |c|] == c;
  }
}
