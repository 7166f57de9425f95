/** The dictionary the printer keeps of the terms it is inside of: a table of
    positions that is to behave as a stack. */
module HashDict {
  import opened HashTable

  datatype Op = PushOp(x: nat) | PopOp(x: nat)

  /** The terms pushed and not popped, and those of them that are not seen. */
  datatype View = View(stack: seq<nat>, lost: set<nat>)

  /** How far below the top x lies, counted from one; zero if it is not there. */
  function Depth(stack: seq<nat>, x: nat): nat {
    if stack == [] then 0
    else if stack[|stack| - 1] == x then 1
    else var d := Depth(stack[..|stack| - 1], x); if d == 0 then 0 else d + 1
  }

  function Pushed(v: View, x: nat): View {
    View(v.stack + [x], v.lost - {x})
  }

  /** Popping a term that is on the stack a second time loses the first. */
  function Popped(v: View): View
    requires v.stack != []
  {
    var x, rest := v.stack[|v.stack| - 1], v.stack[..|v.stack| - 1];
    View(rest, if rest == [] then {} else if x in rest then v.lost + {x} else v.lost - {x})
  }

  /** What a lookup gives. */
  function Seen(v: View, x: nat): nat {
    if x in v.lost then 0 else Depth(v.stack, x)
  }

  lemma {:induction false} DepthIn(stack: seq<nat>, x: nat)
    ensures 0 <= Depth(stack, x) <= |stack| && (Depth(stack, x) > 0 <==> x in stack)
    ensures Depth(stack, x) > 0 ==> stack[|stack| - Depth(stack, x)] == x
    ensures forall i :: |stack| - Depth(stack, x) < i < |stack| ==> Depth(stack, x) == 0 || stack[i] != x
    decreases |stack|
  {
    if stack != [] {
      var rest := stack[..|stack| - 1];
      DepthIn(rest, x);
      assert stack == rest + [stack[|stack| - 1]];
    }
  }

  lemma DepthPushed(stack: seq<nat>, y: nat, x: nat)
    ensures Depth(stack + [y], x) == if x == y then 1 else if Depth(stack, x) == 0 then 0 else Depth(stack, x) + 1
  {
    assert (stack + [y])[..|stack|] == stack;
  }

  // ------------------------------------------------ runs

  /** Every pop is of the term on top. */
  predicate Lifo(ops: seq<Op>)
    decreases |ops|, 0
  {
    ops == [] ||
    var before := ops[..|ops| - 1];
    Lifo(before) && match ops[|ops| - 1]
                    case PushOp(_) => true
                    case PopOp(x) => var s := After(before).stack; s != [] && s[|s| - 1] == x
  }

  function After(ops: seq<Op>): View
    requires Lifo(ops)
    decreases |ops|, 1
  {
    if ops == [] then View([], {})
    else
      var before := After(ops[..|ops| - 1]);
      match ops[|ops| - 1]
      case PushOp(x) => Pushed(before, x)
      case PopOp(x) => Popped(before)
  }

  lemma OneMore(ops: seq<Op>, op: Op)
    requires Lifo(ops)
    requires op.PopOp? ==> After(ops).stack != [] && After(ops).stack[|After(ops).stack| - 1] == op.x
    ensures Lifo(ops + [op])
    ensures After(ops + [op]) == if op.PushOp? then Pushed(After(ops), op.x) else Popped(After(ops))
  {
    assert (ops + [op])[..|ops|] == ops;
  }

  /** The last operation on x was a pop. */
  predicate LastPopped(ops: seq<Op>, x: nat)
    decreases |ops|
  {
    ops != [] && if ops[|ops| - 1].x == x then ops[|ops| - 1].PopOp? else LastPopped(ops[..|ops| - 1], x)
  }

  /** Exactly the terms on the stack whose last operation was a pop are lost. */
  lemma {:induction false} LostExactly(ops: seq<Op>, x: nat)
    requires Lifo(ops)
    ensures x in After(ops).lost <==> x in After(ops).stack && LastPopped(ops, x)
    decreases |ops|
  {
    if ops != [] {
      var before := ops[..|ops| - 1];
      LostExactly(before, x);
      var v := After(before);
      if ops[|ops| - 1].PopOp? {
        assert v.stack == v.stack[..|v.stack| - 1] + [v.stack[|v.stack| - 1]];
      }
    }
  }

  /** A lookup tells the depth of x if and only if x is not on the stack or was
      last pushed. */
  lemma SeenExactly(ops: seq<Op>, x: nat)
    requires Lifo(ops)
    ensures Seen(After(ops), x) == Depth(After(ops).stack, x) <==> (x in After(ops).stack ==> !LastPopped(ops, x))
  {
    LostExactly(ops, x);
    DepthIn(After(ops).stack, x);
  }

  /** No term is pushed while it is on the stack. */
  predicate Simple(ops: seq<Op>)
    requires Lifo(ops)
    decreases |ops|
  {
    ops == [] ||
    var before := ops[..|ops| - 1];
    Simple(before) && (ops[|ops| - 1].PushOp? ==> ops[|ops| - 1].x !in After(before).stack)
  }

  predicate Distinct(s: seq<nat>) {
    forall i, j :: 0 <= i < j < |s| ==> s[i] != s[j]
  }

  /** Without duplicates the dictionary is a stack. */
  lemma {:induction false} SimpleSeen(ops: seq<Op>, x: nat)
    requires Lifo(ops) && Simple(ops)
    ensures After(ops).lost == {} && Distinct(After(ops).stack) && Seen(After(ops), x) == Depth(After(ops).stack, x)
    decreases |ops|
  {
    if ops != [] {
      SimpleSeen(ops[..|ops| - 1], x);
    }
  }

  /** With one it is not: a term pushed twice and popped once is on the stack,
      and is not seen. */
  lemma DuplicateLost(x: nat)
    ensures var ops := [PushOp(x), PushOp(x), PopOp(x)];
            Lifo(ops) && After(ops).stack == [x] && Depth(After(ops).stack, x) == 1 && Seen(After(ops), x) == 0
  {
    OneMore([], PushOp(x));
    OneMore([PushOp(x)], PushOp(x));
    OneMore([PushOp(x), PushOp(x)], PopOp(x));
    assert [] + [PushOp(x)] == [PushOp(x)] && [PushOp(x)] + [PushOp(x)] == [PushOp(x), PushOp(x)];
    assert [PushOp(x), PushOp(x)] + [PopOp(x)] == [PushOp(x), PushOp(x), PopOp(x)];
    assert [x, x][..1] == [x];
  }

  // ------------------------------------------------ the dictionary

  const DICT_TABLE_SIZE: nat := 16

  function HashValue(key: nat): nat {
    key / 16
  }

  class Dict {
    var count: int
    var table: Table<nat, int>
    ghost var v: View

    ghost predicate Valid()
      reads this, table, table.entry
    {
      table.Valid() && table.hash == HashValue && count == |v.stack| && Tells(table.Map(), v)
    }

    /** dict is reset. */
    method Reset()
      requires table.Valid() && table.hash == HashValue
      modifies this, table, table.entry
      ensures Valid() && v == View([], {}) && (table == old(table) || fresh(table))
      ensures table.entry == old(table.entry) || fresh(table.entry)
    {
      count, v := 0, View([], {});
      if table.entry.Length > DICT_TABLE_SIZE {
        table := new Table<nat, int>(HashValue, DICT_TABLE_SIZE);
      } else {
        table.Clear();
      }
    }

    constructor ()
      ensures Valid() && v == View([], {}) && fresh(table) && fresh(table.entry)
    {
      count, v := 0, View([], {});
      table := new Table<nat, int>(HashValue, DICT_TABLE_SIZE);
    }

    method Push(x: nat)
      requires Valid()
      modifies this, table, table.entry
      ensures Valid() && v == Pushed(old(v), x) && table == old(table)
      ensures table.entry == old(table.entry) || fresh(table.entry)
    {
      ghost var m, was := table.Map(), v;
      count := count + 1;
      var found, s := table.Lookup(x);
      if found {
        table.Overwrite(s, count);
      } else {
        table.Enter(s, x, count);
      }
      v := Pushed(v, x);
      PushTells(m, was, x);
    }

    /** A term that is not in the table cannot be popped. */
    method Pop(x: nat) returns (ok: bool)
      requires Valid() && (x in table.Map() ==> v.stack != [] && x == v.stack[|v.stack| - 1])
      modifies this, table, table.entry
      ensures Valid() && ok == (x in old(table.Map()))
      ensures v == if ok then Popped(old(v)) else old(v)
      ensures table == old(table) || fresh(table)
      ensures table.entry == old(table.entry) || fresh(table.entry)
    {
      ghost var m, was := table.Map(), v;
      var found, s := table.Lookup(x);
      if !found {
        return false;
      }
      count := count - 1;
      if count == 0 {
        Reset();
      } else {
        table.Overwrite(s, -1);
        v := Popped(v);
        PopTells(m, was);
      }
      return true;
    }

    method LookUp(x: nat) returns (dist: int)
      requires Valid()
      ensures dist == Seen(v, x)
    {
      var found, s := table.Lookup(x);
      assert TellsAt(table.Map(), v, x);
      DepthIn(v.stack, x);
      if !found {
        return 0;
      }
      var si := table.entry[s].value;
      return if si < 0 then 0 else count - si + 1;
    }
  }

  /** The table has the position of every term that is seen, and -1 for others
      it still holds. */
  ghost predicate Tells(m: map<nat, int>, v: View) {
    (forall x :: TellsAt(m, v, x)) && forall x :: x in v.lost ==> x in v.stack
  }

  ghost predicate TellsAt(m: map<nat, int>, v: View, x: nat) {
    && (x in v.stack ==> x in m)
    && (x in m ==> m[x] == if Seen(v, x) == 0 then -1 else |v.stack| + 1 - Seen(v, x))
  }

  lemma PushTells(m: map<nat, int>, v: View, x: nat)
    requires Tells(m, v)
    ensures Tells(m[x := |v.stack| + 1], Pushed(v, x))
  {
    var n, w := m[x := |v.stack| + 1], Pushed(v, x);
    forall y
      ensures TellsAt(n, w, y)
    {
      assert TellsAt(m, v, y);
      DepthPushed(v.stack, x, y);
    }
  }

  lemma PopTells(m: map<nat, int>, v: View)
    requires Tells(m, v) && |v.stack| > 1
    ensures Tells(m[v.stack[|v.stack| - 1] := -1], Popped(v))
  {
    var x, rest, w := v.stack[|v.stack| - 1], v.stack[..|v.stack| - 1], Popped(v);
    var n := m[x := -1];
    assert v.stack == rest + [x];
    forall y
      ensures TellsAt(n, w, y)
    {
      assert TellsAt(m, v, y);
      DepthPushed(rest, x, y);
      DepthIn(rest, y);
    }
  }
}
