/** The memory the search changes, word by word, and the value trail that puts
    it back. */
module FdStore {
  import opened FdWords

  /** The words of memory: a variable's cell and the fields of its record, the
      words of its domain blocks, the two list positions of an indexical, its
      method, and the entailment variables. */
  datatype Loc =
    | Cell(x: int)
    | Next(x: int)
    | Min(x: int)
    | Max(x: int)
    | InfoOf(x: int)
    | Stamp(x: int)
    | Domain(x: int)
    | DomainWord(x: int, block: int, i: int)
    | Mon(f: int)
    | Amon(f: int)
    | Method(f: int)
    | Ent(e: int)

  /** The packed word: change class, last mask, interval flag, time stamp. */
  datatype Info = Info(change: int, lm: int, interval: bool, time: int)

  datatype Val = N(n: int) | I(info: Info) | W(w: Word)

  type Mem = map<Loc, Val>

  const NULL: int := -1

  function Num(m: Mem, l: Loc): int {
    if l in m && m[l].N? then m[l].n else NULL
  }

  function InfoAt(m: Mem, x: int): Info {
    if InfoOf(x) in m && m[InfoOf(x)].I? then m[InfoOf(x)].info else Info(0, 0, true, 0)
  }

  function WordAt(m: Mem, l: Loc): Word {
    if l in m && m[l].W? then m[l].w else Zero()
  }

  /** An address and what it held. Two places of the trail array. */
  datatype Entry = Entry(l: Loc, v: Val)

  type Trail = seq<Entry>

  /** fd_cp: the search starts it at 1, and every entry takes two places. */
  function Cp(trail: Trail): int {
    1 + 2 * |trail|
  }

  /** The value of l when the trail was k entries long, if it was saved since. */
  function Saved(trail: Trail, k: int, l: Loc): (r: seq<Val>)
    ensures |r| <= 1
    decreases |trail| - k
  {
    if !(0 <= k < |trail|) then []
    else if trail[k].l == l then [trail[k].v]
    else Saved(trail, k + 1, l)
  }

  predicate IsSaved(trail: Trail, k: int, l: Loc) {
    Saved(trail, k, l) != []
  }

  /** Taking the entries above k back, last first. */
  function Undone(m: Mem, trail: Trail, k: int): Mem
    decreases |trail|
  {
    if !(0 <= k < |trail|) then m
    else
      var e := trail[|trail| - 1];
      Undone(m[e.l := e.v], trail[..|trail| - 1], k)
  }

  lemma {:induction false} SavedPush(trail: Trail, k: int, e: Entry, l: Loc)
    requires 0 <= k <= |trail|
    ensures Saved(trail + [e], k, l) ==
            if IsSaved(trail, k, l) then Saved(trail, k, l) else if e.l == l then [e.v] else []
    decreases |trail| - k
  {
    var t := trail + [e];
    if k < |trail| {
      assert t[k] == trail[k];
      SavedPush(trail, k + 1, e, l);
    } else {
      assert Saved(t, k + 1, l) == [];
    }
  }

  /** Undoing brings back the oldest value saved, and nothing else changes. */
  lemma {:induction false} UndoneAt(m: Mem, trail: Trail, k: int, l: Loc)
    requires 0 <= k <= |trail|
    ensures IsSaved(trail, k, l) ==> l in Undone(m, trail, k) && [Undone(m, trail, k)[l]] == Saved(trail, k, l)
    ensures !IsSaved(trail, k, l) ==> (l in Undone(m, trail, k) <==> l in m)
    ensures !IsSaved(trail, k, l) && l in m ==> Undone(m, trail, k)[l] == m[l]
    decreases |trail|
  {
    if k < |trail| {
      var e := trail[|trail| - 1];
      var rest := trail[..|trail| - 1];
      assert trail == rest + [e];
      SavedPush(rest, k, e, l);
      UndoneAt(m[e.l := e.v], rest, k, l);
    }
  }

  /** Undoing down to k entries gives back everything m0 held. */
  ghost predicate Restores(m: Mem, trail: Trail, k: int, m0: Mem) {
    forall l :: l in m0 ==> RestoresAt(m, trail, k, m0, l)
  }

  ghost predicate RestoresAt(m: Mem, trail: Trail, k: int, m0: Mem, l: Loc)
    requires l in m0
  {
    if IsSaved(trail, k, l) then Saved(trail, k, l) == [m0[l]] else l in m && m[l] == m0[l]
  }

  lemma UndoneRestores(m: Mem, trail: Trail, k: int, m0: Mem)
    requires 0 <= k <= |trail| && Restores(m, trail, k, m0)
    ensures forall l :: l in m0 ==> l in Undone(m, trail, k) && Undone(m, trail, k)[l] == m0[l]
  {
    hide Saved, Undone;
    forall l | l in m0
      ensures l in Undone(m, trail, k) && Undone(m, trail, k)[l] == m0[l]
    {
      assert RestoresAt(m, trail, k, m0, l);
      UndoneAt(m, trail, k, l);
    }
  }

  lemma RestoresStart(m: Mem, trail: Trail)
    ensures Restores(m, trail, |trail|, m)
  {
  }

  /** Saving the value of a word before it changes. */
  lemma PushRestores(m: Mem, trail: Trail, k: int, m0: Mem, l: Loc)
    requires 0 <= k <= |trail| && Restores(m, trail, k, m0) && l in m
    ensures Restores(m, trail + [Entry(l, m[l])], k, m0)
    ensures IsSaved(trail + [Entry(l, m[l])], k, l)
  {
    hide Saved;
    var e := Entry(l, m[l]);
    forall l0 | l0 in m0
      ensures RestoresAt(m, trail + [e], k, m0, l0)
    {
      assert RestoresAt(m, trail, k, m0, l0);
      SavedPush(trail, k, e, l0);
    }
    SavedPush(trail, k, e, l);
  }

  /** A word that is saved, or that did not exist, may be written at will. */
  lemma WriteRestores(m: Mem, trail: Trail, k: int, m0: Mem, l: Loc, v: Val)
    requires 0 <= k <= |trail| && Restores(m, trail, k, m0)
    requires IsSaved(trail, k, l) || l !in m0
    ensures Restores(m[l := v], trail, k, m0)
  {
    hide Saved;
    forall l0 | l0 in m0
      ensures RestoresAt(m[l := v], trail, k, m0, l0)
    {
      assert RestoresAt(m, trail, k, m0, l0);
    }
  }

  lemma {:induction false} SavedGrows(t: Trail, u: Trail, k: int, l: Loc)
    requires t <= u && IsSaved(t, k, l)
    ensures IsSaved(u, k, l)
    decreases |t| - k
  {
    if 0 <= k < |t| && t[k].l != l {
      SavedGrows(t, u, k + 1, l);
    }
  }

  // ------------------------------------------------ time-stamped records

  /** The five words of a record that fd_trail_value saves. */
  ghost predicate FieldsSaved(trail: Trail, k: int, x: int) {
    && IsSaved(trail, k, Next(x)) && IsSaved(trail, k, Min(x)) && IsSaved(trail, k, Max(x))
    && IsSaved(trail, k, InfoOf(x)) && IsSaved(trail, k, Stamp(x))
  }

  lemma FieldsGrow(t: Trail, u: Trail, k: int, x: int)
    requires t <= u && FieldsSaved(t, k, x)
    ensures FieldsSaved(u, k, x)
  {
    hide Saved, IsSaved;
    SavedGrows(t, u, k, Next(x));
    SavedGrows(t, u, k, Min(x));
    SavedGrows(t, u, k, Max(x));
    SavedGrows(t, u, k, InfoOf(x));
    SavedGrows(t, u, k, Stamp(x));
  }

  /** A record stamped at this choice point is saved, the others are stamped
      earlier. */
  ghost predicate Stamps(n: int, m: Mem, trail: Trail, k: int) {
    forall x :: 0 <= x < n ==> StampAt(m, trail, k, x)
  }

  ghost predicate StampAt(m: Mem, trail: Trail, k: int, x: int) {
    Num(m, Stamp(x)) < 1 + 2 * k || (Num(m, Stamp(x)) == 1 + 2 * k && FieldsSaved(trail, k, x))
  }

  lemma StampsGrow(n: int, m: Mem, t: Trail, u: Trail, k: int)
    requires t <= u && Stamps(n, m, t, k)
    ensures Stamps(n, m, u, k)
  {
    hide FieldsSaved, Num;
    forall x | 0 <= x < n
      ensures StampAt(m, u, k, x)
    {
      assert StampAt(m, t, k, x);
      if FieldsSaved(t, k, x) {
        FieldsGrow(t, u, k, x);
      }
    }
  }

  lemma StampsWrite(n: int, m: Mem, trail: Trail, k: int, l: Loc, v: Val)
    requires Stamps(n, m, trail, k) && !l.Stamp?
    ensures Stamps(n, m[l := v], trail, k)
  {
    hide FieldsSaved;
    var t := m[l := v];
    forall x | 0 <= x < n
      ensures StampAt(t, trail, k, x)
    {
      assert StampAt(m, trail, k, x);
    }
  }

  /** Stamping a saved record. */
  lemma StampsStamp(n: int, m: Mem, trail: Trail, k: int, x: int, v: Val)
    requires Stamps(n, m, trail, k) && FieldsSaved(trail, k, x) && v == N(1 + 2 * k)
    ensures Stamps(n, m[Stamp(x) := v], trail, k)
  {
    hide FieldsSaved;
    var t := m[Stamp(x) := v];
    forall y | 0 <= y < n
      ensures StampAt(t, trail, k, y)
    {
      assert StampAt(m, trail, k, y);
    }
  }

  /** Domain blocks are allocated from the number b on. */
  ghost predicate BlocksBelow(m: Mem, b: int) {
    forall l :: l in m && l.DomainWord? ==> l.block < b
  }

  /** Only words that exist have been saved. */
  ghost predicate Known(m: Mem, trail: Trail, k: int) {
    forall i :: 0 <= k <= i < |trail| ==> trail[i].l in m
  }

  /** Everything written since the trail was k entries long can be put back. */
  ghost predicate Journal(n: int, m: Mem, trail: Trail, brk: int, k: int, m0: Mem) {
    && 0 <= k <= |trail| && Restores(m, trail, k, m0) && Stamps(n, m, trail, k)
    && BlocksBelow(m, brk) && BlocksBelow(m0, brk) && Known(m, trail, k)
  }

  lemma JournalSave(n: int, m: Mem, trail: Trail, brk: int, k: int, m0: Mem, l: Loc)
    requires Journal(n, m, trail, brk, k, m0) && l in m
    ensures Journal(n, m, trail + [Entry(l, m[l])], brk, k, m0)
    ensures IsSaved(trail + [Entry(l, m[l])], k, l)
  {
    hide Saved, IsSaved, Restores, Stamps, BlocksBelow;
    PushRestores(m, trail, k, m0, l);
    StampsGrow(n, m, trail, trail + [Entry(l, m[l])], k);
  }

  lemma JournalWrite(n: int, m: Mem, trail: Trail, brk: int, k: int, m0: Mem, l: Loc, v: Val)
    requires Journal(n, m, trail, brk, k, m0) && (IsSaved(trail, k, l) || l !in m0)
    requires !l.Stamp? && (l.DomainWord? ==> l.block < brk)
    ensures Journal(n, m[l := v], trail, brk, k, m0)
  {
    hide Saved, IsSaved, Restores, Stamps;
    WriteRestores(m, trail, k, m0, l, v);
    StampsWrite(n, m, trail, k, l, v);
  }

  lemma JournalStamp(n: int, m: Mem, trail: Trail, brk: int, k: int, m0: Mem, x: int, v: Val)
    requires Journal(n, m, trail, brk, k, m0) && FieldsSaved(trail, k, x) && v == N(1 + 2 * k)
    ensures Journal(n, m[Stamp(x) := v], trail, brk, k, m0)
  {
    hide Saved, IsSaved, Restores, Stamps;
    WriteRestores(m, trail, k, m0, Stamp(x), v);
    StampsStamp(n, m, trail, k, x, v);
  }

  /** t holds everything m holds. */
  ghost predicate Within(m: Mem, t: Mem) {
    forall l :: l in m ==> l in t && t[l] == m[l]
  }

  /** No record is stamped at the choice point the trail has reached. */
  ghost predicate AllBefore(n: int, m: Mem, k: int) {
    forall x :: 0 <= x < n ==> Stamp(x) in m && Num(m, Stamp(x)) < 1 + 2 * k
  }

  /** A new choice point. */
  lemma JournalStart(n: int, m: Mem, trail: Trail, brk: int)
    requires AllBefore(n, m, |trail|) && BlocksBelow(m, brk)
    ensures Journal(n, m, trail, brk, |trail|, m)
  {
    hide BlocksBelow;
    RestoresStart(m, trail);
  }

  /** Once something is saved, a later choice point may follow. */
  lemma BeforeNext(n: int, m: Mem, trail: Trail, brk: int, k: int, m0: Mem)
    requires Journal(n, m, trail, brk, k, m0) && |trail| > k
    requires forall x :: 0 <= x < n ==> Stamp(x) in m
    ensures AllBefore(n, m, |trail|)
  {
    hide FieldsSaved, Restores;
    forall x | 0 <= x < n
      ensures Stamp(x) in m && Num(m, Stamp(x)) < 1 + 2 * |trail|
    {
      assert StampAt(m, trail, k, x);
    }
  }

  lemma {:induction false} SavedKnown(m: Mem, trail: Trail, k: int, l: Loc)
    requires Known(m, trail, k) && IsSaved(trail, k, l)
    ensures l in m
    decreases |trail| - k
  {
    if 0 <= k < |trail| && trail[k].l != l {
      SavedKnown(m, trail, k + 1, l);
    }
  }

  /** Memory in which the later choice point has been undone. */
  lemma JournalWithin(n: int, m: Mem, trail: Trail, brk: int, k: int, m0: Mem, t: Mem, b: int)
    requires Journal(n, m, trail, brk, k, m0) && Within(m, t) && BlocksBelow(t, b)
    requires forall x :: 0 <= x < n ==> Stamp(x) in m
    ensures Journal(n, t, trail, b, k, m0)
  {
    hide Saved, IsSaved, FieldsSaved;
    forall l | l in m0
      ensures RestoresAt(t, trail, k, m0, l) && l in m
    {
      assert RestoresAt(m, trail, k, m0, l);
      if IsSaved(trail, k, l) {
        SavedKnown(m, trail, k, l);
      }
    }
    forall x | 0 <= x < n
      ensures StampAt(t, trail, k, x)
    {
      assert StampAt(m, trail, k, x);
    }
  }

  /** Undoing writes only to words that exist. */
  lemma {:induction false} UndoneKeys(m: Mem, trail: Trail, k: int)
    requires 0 <= k <= |trail| && Known(m, trail, k)
    ensures Undone(m, trail, k).Keys == m.Keys
    decreases |trail|
  {
    if k < |trail| {
      var e := trail[|trail| - 1];
      var rest := trail[..|trail| - 1];
      assert m[e.l := e.v].Keys == m.Keys;
      UndoneKeys(m[e.l := e.v], rest, k);
    }
  }

  /** One step of undoing. */
  lemma UndoneStep(m: Mem, trail: Trail, k: int)
    requires 0 <= k < |trail|
    ensures var e := trail[|trail| - 1];
            Undone(m, trail, k) == Undone(m[e.l := e.v], trail[..|trail| - 1], k)
  {
  }
}
