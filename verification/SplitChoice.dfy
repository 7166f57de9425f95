/** Choice splitting: the and-box above a fork is copied with one alternative of
    the fork only, and keeps the other alternatives itself. */
module SplitChoice {
  import opened SplitTree
  import opened SplitCopy

  function Put(t: Tree, i: int, k: Tree): Tree
    requires 0 <= i < |t.kids|
  {
    t.(kids := t.kids[i := k])
  }

  function Without(kids: seq<Tree>, c: int): seq<Tree>
    requires 0 <= c < |kids|
  {
    kids[..c] + kids[c + 1..]
  }

  /** A fork with the one alternative c, and with all others. */
  function Only(f: Tree, c: int): Tree
    requires 0 <= c < |f.kids|
  {
    f.(kids := [f.kids[c]])
  }

  function Others(f: Tree, c: int): Tree
    requires 0 <= c < |f.kids|
  {
    f.(kids := Without(f.kids, c))
  }

  predicate IsFork(a: Tree, q: int, c: int) {
    0 <= q < |a.kids| && 0 <= c < |a.kids[q].kids|
  }

  /** An and-box whose q-th fork has only the alternative c, or all but c. */
  function Chosen(a: Tree, q: int, c: int): Tree
    requires IsFork(a, q, c)
  {
    Put(a, q, Only(a.kids[q], c))
  }

  function Rest(a: Tree, q: int, c: int): Tree
    requires IsFork(a, q, c)
  {
    Put(a, q, Others(a.kids[q], c))
  }

  /** The p-th kid replaced by two. */
  function Beside(t: Tree, p: int, u: Tree, k: Tree): Tree
    requires 0 <= p < |t.kids|
  {
    t.(kids := t.kids[..p] + [u, k] + t.kids[p + 1..])
  }

  // ------------------------------------------------ distinct boxes

  lemma {:induction false} UniqueSplit(a: seq<Tree>, b: seq<Tree>)
    ensures KidIds(a + b) == KidIds(a) + KidIds(b)
    ensures UniqueKids(a + b) <==> UniqueKids(a) && UniqueKids(b) && KidIds(a) !! KidIds(b)
    decreases |a|
  {
    if a == [] {
      assert a + b == b;
    } else {
      assert (a + b)[1..] == a[1..] + b;
      UniqueSplit(a[1..], b);
    }
  }

  lemma OneKid(k: Tree)
    ensures KidIds([k]) == Ids(k) && (UniqueKids([k]) <==> Unique(k))
  {
    assert [k][1..] == [];
  }

  /** The boxes of a row around one of them. */
  lemma Around(a: seq<Tree>, k: Tree, b: seq<Tree>)
    ensures KidIds(a + ([k] + b)) == KidIds(a) + Ids(k) + KidIds(b)
    ensures UniqueKids(a + ([k] + b)) <==>
              UniqueKids(a) && Unique(k) && UniqueKids(b) && KidIds(a) !! Ids(k) && KidIds(a) !! KidIds(b)
                && Ids(k) !! KidIds(b)
  {
    hide *;
    UniqueSplit(a, [k] + b);
    UniqueSplit([k], b);
    OneKid(k);
  }

  lemma Parts(kids: seq<Tree>, i: int, k: Tree)
    requires 0 <= i < |kids|
    ensures kids == kids[..i] + ([kids[i]] + kids[i + 1..])
    ensures kids[i := k] == kids[..i] + ([k] + kids[i + 1..])
    ensures Without(kids, i) == kids[..i] + kids[i + 1..]
  {
  }

  lemma UniqueReplace(kids: seq<Tree>, i: int, k: Tree)
    requires UniqueKids(kids) && 0 <= i < |kids| && Unique(k) && Ids(k) <= Ids(kids[i])
    ensures UniqueKids(kids[i := k]) && KidIds(kids[i := k]) <= KidIds(kids)
  {
    hide *;
    Parts(kids, i, k);
    Around(kids[..i], kids[i], kids[i + 1..]);
    Around(kids[..i], k, kids[i + 1..]);
  }

  lemma WithoutUnique(kids: seq<Tree>, c: int)
    requires UniqueKids(kids) && 0 <= c < |kids|
    ensures UniqueKids(Without(kids, c)) && KidIds(Without(kids, c)) !! Ids(kids[c]) && Unique(kids[c])
    ensures KidIds(kids) == KidIds(Without(kids, c)) + Ids(kids[c])
  {
    hide *;
    Parts(kids, c, kids[c]);
    Around(kids[..c], kids[c], kids[c + 1..]);
    UniqueSplit(kids[..c], kids[c + 1..]);
  }

  /** Putting a tree of new boxes beside a kid. */
  lemma BesideUnique(kids: seq<Tree>, p: int, u: Tree, k: Tree)
    requires UniqueKids(kids) && 0 <= p < |kids| && Unique(u) && Unique(k) && Ids(k) <= Ids(kids[p])
             && Ids(u) !! KidIds(kids)
    ensures UniqueKids(kids[..p] + [u, k] + kids[p + 1..])
    ensures KidIds(kids[..p] + [u, k] + kids[p + 1..]) <= KidIds(kids) + Ids(u)
  {
    hide *;
    var a, b := kids[..p], kids[p + 1..];
    Parts(kids, p, k);
    Around(a, kids[p], b);
    Around(a, k, b);
    UniqueReplace(kids, p, k);
    assert a + [u, k] + b == a + ([u] + ([k] + b));
    Around(a, u, [k] + b);
    UniqueSplit(a, [k] + b);
    Around([], k, b);
    assert [] + ([k] + b) == [k] + b;
    EmptyRow();
  }

  lemma EmptyRow()
    ensures KidIds([]) == {} && UniqueKids([])
  {
  }

  // ------------------------------------------------ rows by name

  predicate DistinctRow(f: int, row: seq<int>) {
    && (forall i :: 0 <= i < |row| ==> row[i] != f && row[i] != NIL)
    && (forall i, j :: 0 <= i < j < |row| ==> row[i] != row[j])
  }

  lemma RowDistinct(m: Mem, t: Tree)
    requires RowOk(m, t) && Unique(t)
    ensures DistinctRow(t.id, Row(t.kids))
  {
    IdsParts(t);
    forall i | 0 <= i < |t.kids|
      ensures t.kids[i].id != t.id && t.kids[i].id != NIL
    {
      KidsApart(t.kids, i);
      assert KidOk(m, t, i);
    }
    hide Ids, KidIds, Unique, UniqueKids, Linked;
    forall i, j | 0 <= i < j < |t.kids|
      ensures t.kids[i].id != t.kids[j].id
    {
      KidsApart(t.kids, i);
      KidsApart(t.kids, j);
    }
  }

  /** From m to w the box at c has been unlinked from the row below f. */
  ghost predicate Unlinked(m: Mem, w: Mem, f: int, row: seq<int>, c: int)
    requires 0 <= c < |row|
  {
    var prev, cand, next := BoxAt(row, c - 1), row[c], BoxAt(row, c + 1);
    && |w| == |m| && 0 <= cand < |m| && w[cand] == m[cand].(next := NIL, previous := NIL)
    && (prev != NIL ==> 0 <= prev < |m| && w[prev] == m[prev].(next := next))
    && (next != NIL ==> 0 <= next < |m| && w[next] == m[next].(previous := prev))
    && (0 <= f < |m| && w[f] == if prev == NIL then m[f].(tried := next) else m[f])
    && (forall b :: 0 <= b < |m| && b != cand && b != prev && b != next && b != f ==> w[b] == m[b])
  }

  function Cut(row: seq<int>, c: int): seq<int>
    requires 0 <= c < |row|
  {
    row[..c] + row[c + 1..]
  }

  lemma UnlinkedPlace(m: Mem, w: Mem, f: int, row: seq<int>, c: int, i: int)
    requires 0 <= c < |row| && DistinctRow(f, row) && Unlinked(m, w, f, row, c) && 0 <= i < |row| - 1
    requires forall j :: 0 <= j < |row| ==> PlaceOk(m, f, row, j)
    ensures PlaceOk(w, f, Cut(row, c), i)
  {
    var cut, j := Cut(row, c), if i < c then i else i + 1;
    assert cut[i] == row[j] && PlaceOk(m, f, row, j);
    assert BoxAt(cut, i - 1) == if i - 1 < c then BoxAt(row, i - 1) else BoxAt(row, i);
    assert BoxAt(cut, i + 1) == if i + 1 < c then BoxAt(row, i + 1) else BoxAt(row, i + 2);
  }

  /** The box taken out keeps its father. */
  lemma UnlinkedOut(m: Mem, w: Mem, f: int, row: seq<int>, c: int)
    requires 0 <= c < |row| && DistinctRow(f, row) && Unlinked(m, w, f, row, c) && PlaceOk(m, f, row, c)
    requires m[f].tried == BoxAt(row, 0)
    ensures PlaceOk(w, f, [row[c]], 0) && w[f].tried == BoxAt(Cut(row, c), 0)
    ensures w[f] == m[f].(tried := w[f].tried)
  {
  }

  /** Unlinking changes no more than the places of the row. */
  lemma UnlinkedAt(m: Mem, w: Mem, f: int, row: seq<int>, c: int, b: int)
    requires 0 <= c < |row| && Unlinked(m, w, f, row, c) && 0 <= b < |m|
    ensures b != f && b !in row ==> w[b] == m[b]
    ensures b != f ==> RootKeeps(m, w, b)
    ensures |w| == |m|
  {
    assert BoxAt(row, c - 1) == NIL || BoxAt(row, c - 1) in row;
    assert BoxAt(row, c + 1) == NIL || BoxAt(row, c + 1) in row;
  }

  // ------------------------------------------------ taking the candidate out

  lemma RowAt(m: Mem, t: Tree, i: int)
    requires RowOk(m, t) && 0 <= i < |t.kids|
    ensures Linked(m, t.kids[i]) && PlaceOk(m, t.id, Row(t.kids), i) && 0 <= t.kids[i].id < |m|
  {
    assert KidOk(m, t, i);
    KidOkRow(m, t, i);
  }

  lemma FoldRow(m: Mem, t: Tree, row: seq<int>)
    requires row == Row(t.kids) && forall i :: 0 <= i < |t.kids| ==> Linked(m, t.kids[i]) && PlaceOk(m, t.id, row, i)
    ensures RowOk(m, t)
  {
    hide Linked;
    forall i | 0 <= i < |t.kids|
      ensures Linked(m, t.kids[i]) && KidOk(m, t, i)
    {
      KidOkRow(m, t, i);
      assert PlaceOk(m, t.id, row, i);
    }
  }

  lemma RowMember(kids: seq<Tree>, b: int)
    requires b in Row(kids)
    ensures exists j :: 0 <= j < |kids| && kids[j].id == b
  {
  }

  /** Nothing below the kids of a row changes when only places in the row do. */
  lemma KidLinked(m: Mem, w: Mem, t: Tree, i: int)
    requires RowOk(m, t) && Unique(t) && 0 <= i < |t.kids| && |m| <= |w|
    requires forall b :: 0 <= b < |m| && b in KidIds(t.kids) && b !in Row(t.kids) ==> w[b] == m[b]
    requires forall b :: 0 <= b < |m| && b in Row(t.kids) ==> RootKeeps(m, w, b)
    ensures Linked(w, t.kids[i])
  {
    hide *;
    var k := t.kids[i];
    RowAt(m, t, i);
    IdsParts(t);
    IdsParts(k);
    KidsApart(t.kids, i);
    LinkedIds(m, k);
    forall b | b in KidIds(k.kids) && 0 <= b < |m|
      ensures w[b] == m[b]
    {
      if b in Row(t.kids) {
        RowMember(t.kids, b);
        var j :| 0 <= j < |t.kids| && t.kids[j].id == b;
        KidsApart(t.kids, j);
      }
    }
    KeepsFrom(m, w, KidIds(k.kids));
    LinkedBelow(m, w, k);
  }

  lemma LinkedIds(m: Mem, t: Tree)
    requires Linked(m, t)
    ensures Unique(t) ==> UniqueKids(t.kids) && t.id !in KidIds(t.kids)
    ensures 0 <= t.id < |m| && Content(m, t)
  {
  }

  lemma CutRow(kids: seq<Tree>, c: int)
    requires 0 <= c < |kids|
    ensures Row(Without(kids, c)) == Cut(Row(kids), c) && |Without(kids, c)| == |kids| - 1
    ensures forall i :: 0 <= i < |kids| - 1 ==> Without(kids, c)[i] == kids[if i < c then i else i + 1]
    ensures BoxAt(Row(Without(kids, c)), 0) == IdAt(Without(kids, c), 0) && BoxAt(Row(kids), 0) == IdAt(kids, 0)
  {
  }

  /** Unlinking leaves two rows: that of the other kids, and the kid. */
  lemma UnlinkedRow(m: Mem, w: Mem, f: Tree, c: int)
    requires 0 <= c < |f.kids| && Linked(m, f) && Unique(f) && Unlinked(m, w, f.id, Row(f.kids), c)
    ensures RowOk(w, Others(f, c)) && RowOk(w, Only(f, c))
    ensures 0 <= f.id < |m| && w[f.id].tried == IdAt(Others(f, c).kids, 0)
            && w[f.id] == m[f.id].(tried := w[f.id].tried)
  {
    hide *;
    LinkedRow(m, f);
    LinkedIds(m, f);
    RowDistinct(m, f);
    CutRow(f.kids, c);
    OthersAre(f, c);
    var row := Row(f.kids);
    UnlinkedAt(m, w, f.id, row, c, f.id);
    forall b | 0 <= b < |m|
      ensures b in KidIds(f.kids) && b !in row ==> w[b] == m[b]
      ensures b in row ==> RootKeeps(m, w, b)
    {
      UnlinkedAt(m, w, f.id, row, c, b);
      NotInRow(f, b);
    }
    forall i | 0 <= i < |f.kids|
      ensures Linked(w, f.kids[i]) && PlaceOk(m, f.id, row, i)
    {
      RowAt(m, f, i);
      KidLinked(m, w, f, i);
    }
    forall i | 0 <= i < |f.kids| - 1
      ensures Linked(w, Others(f, c).kids[i]) && PlaceOk(w, f.id, Cut(row, c), i)
    {
      UnlinkedPlace(m, w, f.id, row, c, i);
    }
    FoldRow(w, Others(f, c), Cut(row, c));
    UnlinkedOut(m, w, f.id, row, c);
    FoldRow(w, Only(f, c), [row[c]]);
  }

  lemma OthersAre(f: Tree, c: int)
    requires 0 <= c < |f.kids|
    ensures Others(f, c).kids == Without(f.kids, c) && Others(f, c).id == f.id
    ensures Only(f, c).kids == [f.kids[c]] && Only(f, c).id == f.id && Row(Only(f, c).kids) == [Row(f.kids)[c]]
    ensures |Row(f.kids)| == |f.kids|
  {
  }

  lemma NotInRow(f: Tree, b: int)
    requires Unique(f)
    ensures b in Row(f.kids) ==> b != f.id && b in KidIds(f.kids)
    ensures b in KidIds(f.kids) ==> b != f.id
  {
    if b in Row(f.kids) {
      var j :| 0 <= j < |f.kids| && f.kids[j].id == b;
      KidsApart(f.kids, j);
    }
  }

  // ------------------------------------------------ replacing a kid

  /** A box still has the links it had to its father and its siblings. */
  predicate SamePlace(m: Mem, w: Mem, b: int) {
    0 <= b < |m| <= |w| && w[b].father == m[b].father && w[b].next == m[b].next && w[b].previous == m[b].previous
  }

  lemma PlaceKeeps(m: Mem, w: Mem, f: int, row: seq<int>, i: int)
    requires 0 <= i < |row| && PlaceOk(m, f, row, i) && SamePlace(m, w, row[i])
    ensures PlaceOk(w, f, row, i)
  {
  }

  lemma PutRow(t: Tree, i: int, k: Tree)
    requires 0 <= i < |t.kids| && k.id == t.kids[i].id
    ensures Row(Put(t, i, k).kids) == Row(t.kids) && Put(t, i, k).id == t.id && |Put(t, i, k).kids| == |t.kids|
    ensures forall j :: 0 <= j < |t.kids| ==> Put(t, i, k).kids[j] == if j == i then k else t.kids[j]
    ensures IdAt(Put(t, i, k).kids, 0) == IdAt(t.kids, 0)
  {
  }

  lemma SameBox(m: Mem, w: Mem, b: int)
    requires 0 <= b < |m| <= |w| && w[b] == m[b]
    ensures SamePlace(m, w, b)
  {
  }

  lemma RowName(kids: seq<Tree>, i: int)
    requires 0 <= i < |kids|
    ensures |Row(kids)| == |kids| && Row(kids)[i] == kids[i].id
  {
  }

  lemma PutContent(m: Mem, w: Mem, t: Tree, i: int, k: Tree)
    requires Content(m, t) && |m| <= |w| && w[t.id] == m[t.id] && 0 <= i < |t.kids|
    ensures Content(w, Put(t, i, k)) && 0 <= t.id < |m|
  {
  }

  /** A kid is replaced by another tree under the same box, and nothing changes
      outside the kid. */
  lemma LinkedPut(m: Mem, w: Mem, t: Tree, i: int, k: Tree)
    requires Linked(m, t) && Unique(t) && 0 <= i < |t.kids| && k.id == t.kids[i].id
    requires Linked(w, k) && SamePlace(m, w, k.id) && |m| <= |w|
    requires forall b :: 0 <= b < |m| && b in Ids(t) && b !in Ids(t.kids[i]) ==> w[b] == m[b]
    ensures Linked(w, Put(t, i, k))
  {
    hide *;
    var z, row := Put(t, i, k), Row(t.kids);
    LinkedRow(m, t);
    LinkedIds(m, t);
    IdsParts(t);
    PutRow(t, i, k);
    forall j | 0 <= j < |t.kids|
      ensures Linked(w, z.kids[j]) && PlaceOk(w, t.id, row, j)
    {
      RowAt(m, t, j);
      RowName(t.kids, j);
      KidsApart(t.kids, j);
      if j != i {
        KeepsFrom(m, w, Ids(t.kids[j]));
        LinkedKeeps(m, w, t.kids[j]);
        SameBox(m, w, t.kids[j].id);
      }
      PlaceKeeps(m, w, t.id, row, j);
    }
    FoldRow(w, z, row);
    KidsApart(t.kids, i);
    PutContent(m, w, t, i, k);
    LinkedRow(w, z);
  }

  lemma UniquePut(t: Tree, i: int, k: Tree)
    requires Unique(t) && 0 <= i < |t.kids| && Unique(k) && Ids(k) <= Ids(t.kids[i])
    ensures Unique(Put(t, i, k)) && Ids(Put(t, i, k)) <= Ids(t)
  {
    hide KidIds, UniqueKids;
    UniqueReplace(t.kids, i, k);
  }

  lemma ForkUnique(f: Tree, c: int)
    requires Unique(f) && 0 <= c < |f.kids|
    ensures Unique(Only(f, c)) && Unique(Others(f, c)) && Unique(f.kids[c])
    ensures Ids(Only(f, c)) <= Ids(f) && Ids(Others(f, c)) <= Ids(f) && KidIds(Only(f, c).kids) == Ids(f.kids[c])
    ensures Ids(Only(f, c)) !! KidIds(Others(f, c).kids)
    ensures Ids(f) == Ids(Only(f, c)) + KidIds(Others(f, c).kids)
  {
    WithoutUnique(f.kids, c);
    OneKid(f.kids[c]);
    hide KidIds, UniqueKids, Without;
    assert Ids(f) == {f.id} + KidIds(f.kids);
    assert Ids(Only(f, c)) == {f.id} + KidIds([f.kids[c]]);
    assert Ids(Others(f, c)) == {f.id} + KidIds(Without(f.kids, c));
  }
}
