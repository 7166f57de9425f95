/** A whole definition assembled, and its switches run: the target depends on
    what was written only. */
module CodeProgram {
  import opened CodeSort
  import opened CodeLabels
  import opened CodeAssembler
  import opened CodeSwitch

  /** What a definition is written as: words, references to labels, definitions
      of labels, and switches with their pairs and their else labels. */
  datatype Action = PutIt(w: Word) | ReferTo(l: nat) | Define(l: nat) | Switch(ps: seq<Pair>, other: nat)

  /** How many words an action puts into the code. */
  function Width(act: Action): nat {
    match act
    case PutIt(_) => 1
    case ReferTo(_) => 1
    case Define(_) => 0
    case Switch(ps, _) => 2 * |ps| + 1
  }

  /** Where the code of what comes after the actions begins. */
  function Offset(acts: seq<Action>): nat
    decreases |acts|
  {
    if acts == [] then 0 else Offset(acts[..|acts| - 1]) + Width(acts[|acts| - 1])
  }

  /** The definitions of the labels. */
  function Defs(acts: seq<Action>): (d: seq<int>)
    ensures |d| == MAXLABELS
    decreases |acts|
  {
    if acts == [] then Undefined()
    else
      var before, act := Defs(acts[..|acts| - 1]), acts[|acts| - 1];
      if act.Define? && act.l < MAXLABELS && before[act.l] == NOLABEL
      then before[act.l := Offset(acts[..|acts| - 1])] else before
  }

  /** A label stands for the place where it was defined first. */
  lemma {:induction false} FirstDefined(acts: seq<Action>, l: nat)
    requires l < MAXLABELS
    ensures Defs(acts)[l] == NOLABEL <==> Define(l) !in acts
    ensures forall i :: 0 <= i < |acts| && acts[i] == Define(l) && Define(l) !in acts[..i] ==>
              Defs(acts)[l] == Offset(acts[..i])
    decreases |acts|
  {
    if acts != [] {
      var before, act := acts[..|acts| - 1], acts[|acts| - 1];
      FirstDefined(before, l);
      assert acts == before + [act];
      forall i | 0 <= i < |acts| && acts[i] == Define(l) && Define(l) !in acts[..i]
        ensures Defs(acts)[l] == Offset(acts[..i])
      {
        if i < |before| {
          assert acts[..i] == before[..i] && before[i] == acts[i];
        }
      }
    }
  }

  /** Labels are defined within the table, and tables give numbers of labels. */
  predicate Sound(act: Action) {
    (act.Define? ==> act.l < MAXLABELS) && (act.Switch? ==> LabelNumbers(act.ps))
  }

  /** The labels the action refers to are within the table. */
  predicate InTable(act: Action) {
    match act
    case PutIt(_) => true
    case ReferTo(l) => l < MAXLABELS
    case Define(_) => true
    case Switch(ps, other) =>
      other < MAXLABELS && forall j :: 0 <= j < |ps| && ps[j].lab.Num? ==> ps[j].lab.n < MAXLABELS
  }

  lemma OneAction(acts: seq<Action>, j: nat)
    requires j < |acts|
    ensures Offset(acts[..j + 1]) == Offset(acts[..j]) + Width(acts[j])
    ensures acts[j].Define? && acts[j].l < MAXLABELS ==>
              Defs(acts[..j + 1]) == if Defs(acts[..j])[acts[j].l] == NOLABEL
                                     then Defs(acts[..j])[acts[j].l := Offset(acts[..j])] else Defs(acts[..j])
    ensures !acts[j].Define? ==> Defs(acts[..j + 1]) == Defs(acts[..j])
  {
    assert acts[..j + 1][..j] == acts[..j];
  }

  /** The assembler after the actions. */
  ghost predicate Assembled(a: Assembler, base: nat, acts: seq<Action>)
    reads a, a.labelt, a.labelrefs
  {
    a.Valid() && a.base == base && |a.items| == Offset(acts) && a.labelt[..] == Defs(acts)
  }

  /** One action; it fails when a label is too high. */
  method Emit(a: Assembler, act: Action, ghost base: nat, ghost acts: seq<Action>, ghost j: nat)
    returns (ok: bool, ghost qs: seq<Pair>)
    requires j < |acts| && acts[j] == act && Sound(act) && Assembled(a, base, acts[..j])
    modifies a, a.labelrefs, a.labelt
    ensures ok <==> InTable(act)
    ensures ok ==> Assembled(a, base, acts[..j + 1]) && old(a.items) <= a.items
    ensures ok && act.Switch? ==> SwitchAt(a.items, Offset(acts[..j]), act, qs)
  {
    hide AllLabels, AllWords, Sorted, Offset, Defs;
    OneAction(acts, j);
    qs := [];
    match act {
      case PutIt(w) =>
        a.PutWord(w);
        ok := true;
      case ReferTo(l) =>
        ok := a.PutLabel(l);
      case Define(l) =>
        var first := a.StoreLabel(l);
        ok := true;
      case Switch(ps, other) =>
        ok, qs := EmitSwitch(a, ps, other);
        if ok {
          SameCount(ps, qs);
        }
    }
  }

  /** The table of a switch, sorted, stands at m. */
  ghost predicate SwitchAt(items: seq<Item>, m: nat, act: Action, qs: seq<Pair>)
    requires act.Switch?
  {
    Sorted(qs) && multiset(qs) == multiset(act.ps) && TableAt(items, m, qs, act.other)
  }

  /** A definition is assembled behind the code there is, and its i-th action, a
      switch, is run: it goes to the place where the label was first defined that
      a linear search of the switch as it was written finds. */
  method RunSwitch(code: seq<Word>, acts: seq<Action>, failDec: int, i: nat, x: Word)
    returns (ok: bool, target: Word)
    requires forall j :: 0 <= j < |acts| ==> Sound(acts[j])
    requires i < |acts| && Sound(acts[i]) && acts[i].Switch? && Distinguished(|code|, acts, failDec, i, x)
    ensures ok <==> forall j :: 0 <= j < |acts| ==> InTable(acts[j])
    ensures ok ==> exists l :: 0 <= l < MAXLABELS && target == Num(Target(|code|, Defs(acts), failDec, l)) &&
                     Branches(acts[i].ps, x, acts[i].other, l)
    ensures ok && Agreeing(acts[i].ps) ==>
              var l := LinearLabel(acts[i].ps, x, acts[i].other);
              0 <= l < MAXLABELS && target == Num(Target(|code|, Defs(acts), failDec, l))
  {
    hide *;
    var a := new Assembler(code);
    var j := 0;
    ghost var table: seq<Pair> := [];
    target := Num(NOLABEL);
    StartAssembled(a, |code|, acts);
    while j < |acts|
      invariant 0 <= j <= |acts| && Assembled(a, |code|, acts[..j]) && fresh(a) && fresh(a.labelt) && fresh(a.labelrefs)
      invariant forall h :: 0 <= h < j ==> InTable(acts[h])
      invariant j > i ==> SwitchAt(a.items, Offset(acts[..i]), acts[i], table)
    {
      ghost var qs;
      ghost var items := a.items;
      ok, qs := Emit(a, acts[j], |code|, acts, j);
      if !ok {
        return;
      }
      if j == i {
        table := qs;
      } else if j > i {
        SwitchStays(items, a.items, Offset(acts[..i]), acts[i], table);
      }
      j := j + 1;
    }
    AllOf(acts);
    ok := true;
    ghost var l;
    target, l := Finish(a, |code|, acts, failDec, i, x, table);
  }

  /** With an empty table x is not the address of the else label. */
  predicate Distinguished(base: nat, acts: seq<Action>, failDec: int, i: nat, x: Word)
    requires i < |acts| && acts[i].Switch?
  {
    acts[i].ps == [] && acts[i].other < MAXLABELS ==>
      CompareConstants(x, Num(Target(base, Defs(acts), failDec, acts[i].other))) != 0
  }

  lemma AllOf(acts: seq<Action>)
    ensures acts[..|acts|] == acts
  {
  }

  lemma StartAssembled(a: Assembler, base: nat, acts: seq<Action>)
    requires a.Valid() && a.base == base && a.items == [] && a.labelt[..] == Undefined()
    ensures Assembled(a, base, acts[..0])
  {
  }

  lemma SwitchStays(items: seq<Item>, more: seq<Item>, m: nat, act: Action, qs: seq<Pair>)
    requires act.Switch? && SwitchAt(items, m, act, qs) && items <= more
    ensures SwitchAt(more, m, act, qs)
  {
    TableStays(items, more, m, qs, act.other);
  }

  /** The end of the definition, and the switch at run time. */
  method Finish(a: Assembler, ghost base: nat, acts: seq<Action>, failDec: int, i: nat, x: Word, ghost qs: seq<Pair>)
    returns (target: Word, ghost l: int)
    requires Assembled(a, base, acts) && i < |acts| && acts[i].Switch? && Sound(acts[i])
    requires Distinguished(base, acts, failDec, i, x) && SwitchAt(a.items, Offset(acts[..i]), acts[i], qs)
    modifies a`code
    ensures 0 <= l < MAXLABELS && target == Num(Target(base, Defs(acts), failDec, l))
    ensures Branches(acts[i].ps, x, acts[i].other, l)
    ensures Agreeing(acts[i].ps) ==> l == LinearLabel(acts[i].ps, x, acts[i].other)
  {
    hide AllLabels, AllWords, Sorted, Offset, Defs, TableAt, Fixed, Branches, Agreeing;
    ghost var was, items := a.code, a.items;
    var ps := acts[i].ps;
    SameCount(ps, qs);
    var errors := a.FixLabelrefs(failDec);
    var pc := a.base + Offset(acts[..i]);
    NumbersKept(ps, qs);
    FixedTable(was, a.code, base, items, Defs(acts), failDec, Offset(acts[..i]), qs, acts[i].other);
    target, l := Dispatch(a.code, pc, |ps|, x, was, base, items, Defs(acts), failDec, Offset(acts[..i]), ps, qs,
      acts[i].other);
  }
}
