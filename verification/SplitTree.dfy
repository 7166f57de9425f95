/** And-boxes and choice-boxes in memory, the trees they spell out, and how many
    ways there are to resolve a tree. */
module SplitTree {

  /** The links of a box, and what it holds: its continuation and constraints
      (load), whether untried clauses are left (open), whether it is dead. Both
      kinds of boxes have the same links. */
  datatype Box = Box(father: int, next: int, previous: int, tried: int, load: int, open: bool, dead: bool)

  type Mem = seq<Box>

  const NIL: int := -1

  /** What a box and everything below it are. */
  datatype Tree = Tree(id: int, load: int, open: bool, dead: bool, kids: seq<Tree>)

  function IdAt(kids: seq<Tree>, i: int): int {
    if 0 <= i < |kids| then kids[i].id else NIL
  }

  // ------------------------------------------------ the boxes of a tree

  function Ids(t: Tree): set<int>
    decreases t, 0
  {
    {t.id} + KidIds(t.kids)
  }

  function KidIds(kids: seq<Tree>): set<int>
    decreases kids, 1
  {
    if kids == [] then {} else Ids(kids[0]) + KidIds(kids[1..])
  }

  /** No box occurs twice. */
  predicate Unique(t: Tree)
    decreases t, 0
  {
    t.id !in KidIds(t.kids) && UniqueKids(t.kids)
  }

  predicate UniqueKids(kids: seq<Tree>)
    decreases kids, 1
  {
    kids != [] ==> Unique(kids[0]) && Ids(kids[0]) !! KidIds(kids[1..]) && UniqueKids(kids[1..])
  }

  lemma {:induction false} KidsApart(kids: seq<Tree>, i: int)
    requires 0 <= i < |kids|
    ensures Ids(kids[i]) <= KidIds(kids) && kids[i].id in Ids(kids[i])
    ensures UniqueKids(kids) ==> Unique(kids[i])
    ensures UniqueKids(kids) ==> forall j :: 0 <= j < |kids| && j != i ==> Ids(kids[i]) !! Ids(kids[j])
    decreases |kids|
  {
    if i > 0 {
      KidsApart(kids[1..], i - 1);
      assert kids[1..][i - 1] == kids[i];
    }
    forall j | 0 <= j < |kids| && j != i
      ensures UniqueKids(kids) ==> Ids(kids[i]) !! Ids(kids[j])
    {
      if i == 0 {
        KidsApart(kids[1..], j - 1);
        assert kids[1..][j - 1] == kids[j];
      } else if j > 0 {
        assert kids[1..][j - 1] == kids[j] && kids[1..][i - 1] == kids[i];
      }
    }
  }

  lemma {:induction false} InKids(kids: seq<Tree>, b: int)
    ensures b in KidIds(kids) <==> exists i :: 0 <= i < |kids| && b in Ids(kids[i])
    decreases |kids|
  {
    if kids != [] {
      InKids(kids[1..], b);
      if i :| 0 <= i < |kids[1..]| && b in Ids(kids[1..][i]) {
        assert kids[i + 1] == kids[1..][i];
      }
      if i :| 0 <= i < |kids| && b in Ids(kids[i]) {
        if i > 0 {
          assert kids[1..][i - 1] == kids[i];
        }
      }
    }
  }

  /** Lists with distinct boxes can be made out of lists whose trees are apart. */
  lemma {:induction false} MakeUnique(kids: seq<Tree>)
    requires forall i :: 0 <= i < |kids| ==> Unique(kids[i])
    requires forall i, j :: 0 <= i < j < |kids| ==> Ids(kids[i]) !! Ids(kids[j])
    ensures UniqueKids(kids)
    decreases |kids|
  {
    if kids != [] {
      var rest := kids[1..];
      assert forall i :: 0 <= i < |rest| ==> rest[i] == kids[i + 1];
      MakeUnique(rest);
      forall b
        ensures !(b in Ids(kids[0]) && b in KidIds(rest))
      {
        InKids(rest, b);
      }
    }
  }

  // ------------------------------------------------ links

  predicate Content(m: Mem, t: Tree) {
    0 <= t.id < |m| && m[t.id].load == t.load && m[t.id].open == t.open && m[t.id].dead == t.dead
  }

  /** Following tried and next spells out the tree. */
  ghost predicate Forward(m: Mem, t: Tree)
    decreases t
  {
    && Content(m, t) && m[t.id].tried == IdAt(t.kids, 0)
    && forall i :: 0 <= i < |t.kids| ==> Forward(m, t.kids[i]) && m[t.kids[i].id].next == IdAt(t.kids, i + 1)
  }

  /** father and previous of every box below t are right. */
  ghost predicate Backward(m: Mem, t: Tree)
    decreases t
  {
    forall i :: 0 <= i < |t.kids| ==>
      && 0 <= t.kids[i].id < |m| && m[t.kids[i].id].father == t.id && m[t.kids[i].id].previous == IdAt(t.kids, i - 1)
      && Backward(m, t.kids[i])
  }

  /** All links at and below t are well formed. */
  ghost predicate Linked(m: Mem, t: Tree) {
    Forward(m, t) && Backward(m, t)
  }

  /** Every box below t is marked as copied and tells its copy in u. */
  ghost predicate Marked(m: Mem, t: Tree, u: Tree)
    decreases t
  {
    |t.kids| == |u.kids| && forall i :: 0 <= i < |t.kids| ==>
      && 0 <= t.kids[i].id < |m| && m[t.kids[i].id].father == NIL && m[t.kids[i].id].previous == u.kids[i].id
      && Marked(m, t.kids[i], u.kids[i])
  }

  /** The same tree but for the names of the boxes. */
  ghost predicate SameTree(t: Tree, u: Tree)
    decreases t
  {
    && t.load == u.load && t.open == u.open && t.dead == u.dead && |t.kids| == |u.kids|
    && forall i :: 0 <= i < |t.kids| ==> SameTree(t.kids[i], u.kids[i])
  }

  /** The boxes of s are in place and unchanged. */
  ghost predicate Keeps(m: Mem, w: Mem, s: set<int>) {
    |m| <= |w| && forall b :: b in s && 0 <= b < |m| ==> w[b] == m[b]
  }

  /** The boxes of s have kept everything but father and previous. */
  ghost predicate KeepsForward(m: Mem, w: Mem, s: set<int>) {
    |m| <= |w| && forall b :: b in s && 0 <= b < |m| ==> w[b] == m[b].(father := w[b].father, previous := w[b].previous)
  }

  lemma {:induction false} ForwardKeeps(m: Mem, w: Mem, t: Tree)
    requires Forward(m, t) && KeepsForward(m, w, Ids(t))
    ensures Forward(w, t)
    decreases t
  {
    forall i | 0 <= i < |t.kids|
      ensures Forward(w, t.kids[i]) && w[t.kids[i].id].next == IdAt(t.kids, i + 1)
    {
      KidsApart(t.kids, i);
      ForwardKeeps(m, w, t.kids[i]);
      assert Content(m, t.kids[i]);
    }
  }

  lemma {:induction false} BackwardKeeps(m: Mem, w: Mem, t: Tree)
    requires Backward(m, t) && Keeps(m, w, KidIds(t.kids))
    ensures Backward(w, t)
    decreases t
  {
    forall i | 0 <= i < |t.kids|
      ensures && 0 <= t.kids[i].id < |w| && w[t.kids[i].id].father == t.id
              && w[t.kids[i].id].previous == IdAt(t.kids, i - 1) && Backward(w, t.kids[i])
    {
      KidsApart(t.kids, i);
      BackwardKeeps(m, w, t.kids[i]);
    }
  }

  lemma {:induction false} MarkedKeeps(m: Mem, w: Mem, t: Tree, u: Tree)
    requires Marked(m, t, u) && Keeps(m, w, KidIds(t.kids))
    ensures Marked(w, t, u)
    decreases t
  {
    forall i | 0 <= i < |t.kids|
      ensures && 0 <= t.kids[i].id < |w| && w[t.kids[i].id].father == NIL
              && w[t.kids[i].id].previous == u.kids[i].id && Marked(w, t.kids[i], u.kids[i])
    {
      KidsApart(t.kids, i);
      MarkedKeeps(m, w, t.kids[i], u.kids[i]);
    }
  }

  lemma LinkedKeeps(m: Mem, w: Mem, t: Tree)
    requires Linked(m, t) && Keeps(m, w, Ids(t))
    ensures Linked(w, t)
  {
    ForwardKeeps(m, w, t);
    BackwardKeeps(m, w, t);
  }

  lemma ForwardKid(m: Mem, t: Tree, i: int)
    requires Forward(m, t) && 0 <= i < |t.kids|
    ensures Forward(m, t.kids[i]) && Content(m, t.kids[i]) && m[t.kids[i].id].next == IdAt(t.kids, i + 1)
    ensures 0 <= t.kids[i].id < |m|
  {
    assert Forward(m, t.kids[i]);
  }

  lemma IdsParts(t: Tree)
    ensures KidIds(t.kids) <= Ids(t) && t.id in Ids(t) && Ids(t) == {t.id} + KidIds(t.kids)
    ensures Unique(t) ==> t.id !in KidIds(t.kids) && UniqueKids(t.kids)
  {
  }

  lemma {:induction false} ForwardInside(m: Mem, t: Tree, b: int)
    requires Forward(m, t) && b in Ids(t)
    ensures 0 <= b < |m|
    decreases t
  {
    if b != t.id {
      InKids(t.kids, b);
      var i :| 0 <= i < |t.kids| && b in Ids(t.kids[i]);
      ForwardInside(m, t.kids[i], b);
    }
  }

  /** The box has kept its contents and its first kid. */
  predicate RootKeeps(m: Mem, w: Mem, b: int) {
    0 <= b < |m| <= |w| && w[b] == m[b].(father := w[b].father, previous := w[b].previous, next := w[b].next)
  }

  lemma LinkedBelow(m: Mem, w: Mem, t: Tree)
    requires Linked(m, t) && Keeps(m, w, KidIds(t.kids)) && RootKeeps(m, w, t.id)
    ensures Linked(w, t)
  {
    BackwardKeeps(m, w, t);
    forall i | 0 <= i < |t.kids|
      ensures Forward(w, t.kids[i]) && w[t.kids[i].id].next == IdAt(t.kids, i + 1)
    {
      KidsApart(t.kids, i);
      ForwardKid(m, t, i);
      ForwardKeeps(m, w, t.kids[i]);
    }
  }

  // ------------------------------------------------ rows of kids

  /** The links of the i-th kid among its siblings. */
  predicate KidOk(m: Mem, t: Tree, i: int)
    requires 0 <= i < |t.kids|
  {
    var b := t.kids[i].id;
    0 <= b < |m| && m[b].father == t.id && m[b].previous == IdAt(t.kids, i - 1) && m[b].next == IdAt(t.kids, i + 1)
  }

  lemma KidOkRow(m: Mem, t: Tree, i: int)
    requires 0 <= i < |t.kids|
    ensures |Row(t.kids)| == |t.kids| && Row(t.kids)[i] == t.kids[i].id
    ensures KidOk(m, t, i) <==> PlaceOk(m, t.id, Row(t.kids), i)
  {
  }

  /** The names of a row of kids. */
  function Row(kids: seq<Tree>): (r: seq<int>)
    ensures |r| == |kids| && forall i :: 0 <= i < |kids| ==> r[i] == kids[i].id
  {
    seq(|kids|, i requires 0 <= i < |kids| => kids[i].id)
  }

  function BoxAt(row: seq<int>, i: int): int {
    if 0 <= i < |row| then row[i] else NIL
  }

  /** The links of the i-th box of a row below f. */
  predicate PlaceOk(m: Mem, f: int, row: seq<int>, i: int)
    requires 0 <= i < |row|
  {
    && 0 <= row[i] < |m| && m[row[i]].father == f
    && m[row[i]].previous == BoxAt(row, i - 1) && m[row[i]].next == BoxAt(row, i + 1)
  }

  /** Everything below t is linked and so is the row of its kids; t itself need
      not point to the row. */
  ghost predicate RowOk(m: Mem, t: Tree) {
    forall i :: 0 <= i < |t.kids| ==> Linked(m, t.kids[i]) && KidOk(m, t, i)
  }

  lemma LinkedRow(m: Mem, t: Tree)
    ensures Linked(m, t) <==> RowOk(m, t) && Content(m, t) && m[t.id].tried == IdAt(t.kids, 0)
  {
    if Linked(m, t) {
      forall i | 0 <= i < |t.kids|
        ensures Linked(m, t.kids[i]) && KidOk(m, t, i)
      {
        ForwardKid(m, t, i);
      }
    }
    if RowOk(m, t) && Content(m, t) && m[t.id].tried == IdAt(t.kids, 0) {
      forall i | 0 <= i < |t.kids|
        ensures Forward(m, t.kids[i]) && Backward(m, t.kids[i]) && KidOk(m, t, i)
      {
      }
    }
  }

  lemma RowKeeps(m: Mem, w: Mem, t: Tree)
    requires RowOk(m, t) && Keeps(m, w, KidIds(t.kids))
    ensures RowOk(w, t)
  {
    hide Linked, Ids, KidIds;
    forall i | 0 <= i < |t.kids|
      ensures Linked(w, t.kids[i]) && KidOk(w, t, i)
    {
      KidsApart(t.kids, i);
      assert KidOk(m, t, i);
      LinkedKeeps(m, w, t.kids[i]);
    }
  }
}
