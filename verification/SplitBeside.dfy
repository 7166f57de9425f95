/** The whole of choice splitting: the copy is put to the left of the and-box it
    is a copy of. */
module SplitBeside {
  import opened SplitTree
  import opened SplitCopy
  import opened SplitChoice

  // ------------------------------------------------ a box put into a row

  function More(row: seq<int>, p: int, n: int): seq<int>
    requires 0 <= p < |row|
  {
    row[..p] + [n] + row[p..]
  }

  /** From m to w the new box n has been put before the p-th box of a row, and
      that box is marked as copied. */
  ghost predicate Inserted(m: Mem, w: Mem, f: int, row: seq<int>, p: int, n: int)
    requires 0 <= p < |row|
  {
    var prev, mother := BoxAt(row, p - 1), row[p];
    && n == |m| == |w| - 1 && 0 <= mother < |m| && 0 <= f < |m| && mother != prev && mother != f
    && w[n].father == f && w[n].next == mother && w[n].previous == prev
    && w[n].load == m[mother].load && w[n].open == m[mother].open && w[n].dead == m[mother].dead
    && w[mother] == m[mother].(father := NIL, previous := n)
    && (prev != NIL ==> 0 <= prev < |m| && w[prev] == m[prev].(next := n))
    && (prev == NIL ==> w[f] == m[f].(tried := n))
    && (forall b :: 0 <= b < |m| && b != mother && b != prev && (prev != NIL || b != f) ==> w[b] == m[b])
  }

  /** From m to z the row has got n before its p-th box, and all links are set. */
  ghost predicate Placed(m: Mem, z: Mem, f: int, row: seq<int>, p: int, n: int)
    requires 0 <= p < |row|
  {
    var prev, mother := BoxAt(row, p - 1), row[p];
    && n == |m| < |z| && 0 <= mother < |m| && 0 <= f < |m|
    && z[n].father == f && z[n].next == mother && z[n].previous == prev
    && z[mother].father == f && z[mother].next == m[mother].next && z[mother].previous == n
    && (prev != NIL ==> 0 <= prev < |m| && z[prev] == m[prev].(next := n) && z[f] == m[f])
    && (prev == NIL ==> z[f] == m[f].(tried := n))
    && (forall i :: 0 <= i < |row| && i != p && i != p - 1 ==> 0 <= row[i] < |m| && z[row[i]] == m[row[i]])
  }

  lemma PlacedRow(m: Mem, z: Mem, f: int, row: seq<int>, p: int, n: int, i: int)
    requires 0 <= p < |row| && Placed(m, z, f, row, p, n) && DistinctRow(f, row) && 0 <= i <= |row|
    requires forall j :: 0 <= j < |row| ==> PlaceOk(m, f, row, j)
    ensures PlaceOk(z, f, More(row, p, n), i)
  {
    var more := More(row, p, n);
    assert BoxAt(more, i - 1) == if i - 1 < p then BoxAt(row, i - 1) else if i - 1 == p then n else BoxAt(row, i - 2);
    assert BoxAt(more, i + 1) == if i + 1 < p then BoxAt(row, i + 1) else if i + 1 == p then n else BoxAt(row, i);
    if i < p {
      assert more[i] == row[i] && PlaceOk(m, f, row, i);
    } else if i > p {
      assert more[i] == row[i - 1] && PlaceOk(m, f, row, i - 1);
    }
  }

  lemma PlacedFirst(m: Mem, z: Mem, f: int, row: seq<int>, p: int, n: int)
    requires 0 <= p < |row| && Placed(m, z, f, row, p, n) && DistinctRow(f, row) && m[f].tried == BoxAt(row, 0)
    ensures z[f].tried == BoxAt(More(row, p, n), 0) && z[f] == m[f].(tried := z[f].tried)
  {
  }

  lemma PlacedAt(m: Mem, z: Mem, f: int, row: seq<int>, p: int, n: int, i: int)
    requires 0 <= p < |row| && DistinctRow(f, row) && Placed(m, z, f, row, p, n) && 0 <= i < |row| && i != p
    ensures 0 <= row[i] < |m| && RootKeeps(m, z, row[i])
  {
    assert i == p - 1 ==> BoxAt(row, p - 1) == row[i];
  }

  lemma MoreRow(t: Tree, p: int, u: Tree, k: Tree)
    requires 0 <= p < |t.kids| && k.id == t.kids[p].id
    ensures |Row(t.kids)| == |t.kids| && Row(Beside(t, p, u, k).kids) == More(Row(t.kids), p, u.id)
    ensures |Beside(t, p, u, k).kids| == |t.kids| + 1 && Beside(t, p, u, k).id == t.id
    ensures forall i :: 0 <= i <= |t.kids| ==> Beside(t, p, u, k).kids[i] == BesideKidOf(t.kids, p, u, k, i)
    ensures IdAt(Beside(t, p, u, k).kids, 0) == BoxAt(More(Row(t.kids), p, u.id), 0)
    ensures Beside(t, p, u, k).load == t.load && Beside(t, p, u, k).open == t.open && Beside(t, p, u, k).dead == t.dead
  {
    var w, more := Beside(t, p, u, k).kids, More(Row(t.kids), p, u.id);
    forall i | 0 <= i <= |t.kids|
      ensures w[i] == BesideKidOf(t.kids, p, u, k, i) && more[i] == w[i].id
    {
    }
    assert |w| == |t.kids| + 1 == |more|;
    assert Row(w) == more;
    assert w[0].id == more[0];
  }

  function BesideKidOf(kids: seq<Tree>, p: int, u: Tree, k: Tree, i: int): Tree
    requires 0 <= p < |kids| && 0 <= i <= |kids|
  {
    if i < p then kids[i] else if i == p then u else if i == p + 1 then k else kids[i - 1]
  }

  lemma BesideOf(kids: seq<Tree>, p: int, u: Tree, k: Tree, i: int)
    requires 0 <= p < |kids| && 0 <= i <= |kids|
    ensures i < p ==> BesideKidOf(kids, p, u, k, i) == kids[i]
    ensures i == p ==> BesideKidOf(kids, p, u, k, i) == u
    ensures i == p + 1 ==> BesideKidOf(kids, p, u, k, i) == k
    ensures i > p + 1 ==> BesideKidOf(kids, p, u, k, i) == kids[i - 1]
  {
  }

  lemma TopContent(m: Mem, z: Mem, t: Tree, u: Tree)
    requires Content(m, t) && |m| <= |z| && z[t.id] == m[t.id].(tried := z[t.id].tried)
    requires u.id == t.id && u.load == t.load && u.open == t.open && u.dead == t.dead
    ensures Content(z, u)
  {
  }

  lemma FirstName(kids: seq<Tree>)
    ensures IdAt(kids, 0) == BoxAt(Row(kids), 0)
  {
  }

  /** The tree with the copy in it is linked. */
  lemma BesideLinked(m: Mem, z: Mem, t: Tree, p: int, u: Tree, k: Tree)
    requires Linked(m, t) && Unique(t) && 0 <= p < |t.kids| && k.id == t.kids[p].id && Linked(z, k) && Linked(z, u)
    requires Placed(m, z, t.id, Row(t.kids), p, u.id)
    requires forall b :: 0 <= b < |m| && b in KidIds(t.kids) && b !in Ids(t.kids[p]) && b !in Row(t.kids) ==>
             z[b] == m[b]
    requires |m| <= |z|
    ensures Linked(z, Beside(t, p, u, k))
  {
    hide *;
    var w, row := Beside(t, p, u, k), Row(t.kids);
    LinkedRow(m, t);
    LinkedIds(m, t);
    IdsParts(t);
    RowDistinct(m, t);
    MoreRow(t, p, u, k);
    FirstName(t.kids);
    PlacedFirst(m, z, t.id, row, p, u.id);
    forall j | 0 <= j < |t.kids|
      ensures PlaceOk(m, t.id, row, j) && (j != p ==> Linked(z, t.kids[j]))
    {
      RowAt(m, t, j);
      if j != p {
        BesideKid(m, z, t, p, u, j);
      }
    }
    forall i | 0 <= i <= |t.kids|
      ensures Linked(z, w.kids[i]) && PlaceOk(z, t.id, More(row, p, u.id), i)
    {
      PlacedRow(m, z, t.id, row, p, u.id, i);
      BesideOf(t.kids, p, u, k, i);
    }
    FoldRow(z, w, More(row, p, u.id));
    TopContent(m, z, t, w);
    LinkedRow(z, w);
  }

  lemma BesideKid(m: Mem, z: Mem, t: Tree, p: int, u: Tree, j: int)
    requires Linked(m, t) && Unique(t) && 0 <= p < |t.kids| && 0 <= j < |t.kids| && j != p && Linked(m, t.kids[j])
    requires Placed(m, z, t.id, Row(t.kids), p, u.id) && |m| <= |z|
    requires forall b :: 0 <= b < |m| && b in KidIds(t.kids) && b !in Ids(t.kids[p]) && b !in Row(t.kids) ==>
             z[b] == m[b]
    ensures Linked(z, t.kids[j])
  {
    hide *;
    var k := t.kids[j];
    IdsParts(t);
    IdsParts(k);
    LinkedIds(m, t);
    LinkedIds(m, k);
    KidsApart(t.kids, j);
    KidsApart(t.kids, p);
    RowName(t.kids, j);
    forall b | b in KidIds(k.kids) && 0 <= b < |m|
      ensures z[b] == m[b]
    {
      if b in Row(t.kids) {
        RowMember(t.kids, b);
        var i :| 0 <= i < |t.kids| && t.kids[i].id == b;
        KidsApart(t.kids, i);
      }
    }
    KeepsFrom(m, z, KidIds(k.kids));
    LinkedRow(m, t);
    RowDistinct(m, t);
    PlacedAt(m, z, t.id, Row(t.kids), p, u.id, j);
    LinkedBelow(m, z, k);
  }

  // ------------------------------------------------ the copy is made

  /** The and-box that is about to be copied: its links below are right, and the
      new box has its contents. */
  lemma CopyReady(m: Mem, w: Mem, t: Tree, p: int, n: int)
    requires Linked(m, t) && Unique(t) && 0 <= p < |t.kids| && Inserted(m, w, t.id, Row(t.kids), p, n)
    ensures Forward(w, t.kids[p]) && Unique(t.kids[p]) && 0 <= n < |w| && n !in Ids(t.kids[p])
            && Content(w, t.kids[p].(id := n))
  {
    hide *;
    var k := t.kids[p];
    LinkedRow(m, t);
    LinkedIds(m, t);
    IdsParts(t);
    RowAt(m, t, p);
    RowName(t.kids, p);
    KidsApart(t.kids, p);
    InsertedNot(m, w, t, p, n);
    InsertedForward(m, w, t.id, Row(t.kids), p, n, Ids(k));
    LinkedForward(m, k);
    ForwardKeeps(m, w, k);
    InsertedContent(m, w, t.id, Row(t.kids), p, n, k);
    forall b | b in Ids(k)
      ensures b != n
    {
      ForwardInside(m, k, b);
      InsertedSize(m, w, t.id, Row(t.kids), p, n);
    }
    InsertedSize(m, w, t.id, Row(t.kids), p, n);
  }

  lemma LinkedForward(m: Mem, t: Tree)
    requires Linked(m, t)
    ensures Forward(m, t)
  {
  }

  lemma InsertedSize(m: Mem, w: Mem, f: int, row: seq<int>, p: int, n: int)
    requires 0 <= p < |row| && Inserted(m, w, f, row, p, n)
    ensures n == |m| == |w| - 1 && 0 <= row[p] < |m| && 0 <= f < |m|
  {
  }

  /** Neither the box before nor the father is below the p-th kid. */
  lemma InsertedNot(m: Mem, w: Mem, t: Tree, p: int, n: int)
    requires Unique(t) && 0 <= p < |t.kids|
    ensures t.id !in Ids(t.kids[p]) && (BoxAt(Row(t.kids), p - 1) != NIL ==>
            BoxAt(Row(t.kids), p - 1) !in Ids(t.kids[p]))
  {
    IdsParts(t);
    KidsApart(t.kids, p);
    if p > 0 {
      KidsApart(t.kids, p - 1);
    }
  }

  lemma InsertedForward(m: Mem, w: Mem, f: int, row: seq<int>, p: int, n: int, s: set<int>)
    requires 0 <= p < |row| && Inserted(m, w, f, row, p, n) && f !in s
             && (BoxAt(row, p - 1) != NIL ==> BoxAt(row, p - 1) !in s)
    ensures KeepsForward(m, w, s)
  {
  }

  lemma InsertedContent(m: Mem, w: Mem, f: int, row: seq<int>, p: int, n: int, k: Tree)
    requires 0 <= p < |row| && Inserted(m, w, f, row, p, n) && k.id == row[p] && Content(m, k)
    ensures Content(w, k.(id := n))
  {
  }

  lemma TouchesAt(m: Mem, w: Mem, s: set<int>, n: int, b: int)
    requires Touches(m, w, s, n) && 0 <= b < |m|
    ensures |m| <= |w| && (b !in s && b != n ==> w[b] == m[b]) && (b == n ==> w[b] == m[b].(tried := w[b].tried))
  {
  }

  /** From the insertion to the end of the copy, box by box. */
  lemma CopyDone(m: Mem, w: Mem, z: Mem, f: int, row: seq<int>, p: int, n: int, s: set<int>)
    requires 0 <= p < |row| && DistinctRow(f, row) && Inserted(m, w, f, row, p, n) && |w| <= |z|
    requires forall i :: 0 <= i < |row| ==> 0 <= row[i] < |m|
    requires forall b :: 0 <= b < |w| && b !in s && b != n && b != row[p] ==> z[b] == w[b]
    requires z[n] == w[n].(tried := z[n].tried) && z[row[p]] == w[row[p]].(father := f)
    requires f !in s && n !in s && forall i :: 0 <= i < |row| ==> row[i] !in s
    ensures Placed(m, z, f, row, p, n)
    ensures forall b :: 0 <= b < |m| && b !in s && b != f && b !in row ==> z[b] == m[b]
  {
    assert BoxAt(row, p - 1) == NIL || BoxAt(row, p - 1) in row;
    assert BoxAt(row, p - 1) != NIL ==> BoxAt(row, p - 1) == row[p - 1];
  }

  // ------------------------------------------------ the operation

  /** The boxes of the candidate, of its fork, of the and-box above, and of the
      choice-box above that. */
  predicate Candidate(rt: Tree, p: int, q: int, c: int, cand: int) {
    0 <= p < |rt.kids| && IsFork(rt.kids[p], q, c) && rt.kids[p].kids[q].kids[c].id == cand
  }

  lemma Fathers(m: Mem, rt: Tree, p: int, q: int, c: int, cand: int)
    requires Linked(m, rt) && Unique(rt) && Candidate(rt, p, q, c, cand)
    ensures var a := rt.kids[p];
            var f := a.kids[q];
            && Linked(m, a) && Linked(m, f) && Unique(a) && Unique(f)
            && 0 <= cand < |m| && m[cand].father == f.id && 0 <= f.id < |m| && m[f.id].father == a.id
            && 0 <= a.id < |m| && m[a.id].father == rt.id && 0 <= rt.id < |m|
            && Ids(f) <= Ids(a) && Ids(a) <= Ids(rt) && a.id !in Ids(f) && rt.id !in Ids(a)
  {
    hide *;
    CandidateIs(rt, p, q, c, cand);
    var a := rt.kids[p];
    var f := a.kids[q];
    LinkedRow(m, rt);
    LinkedIds(m, rt);
    IdsParts(rt);
    RowAt(m, rt, p);
    PlaceFather(m, rt, p);
    KidsApart(rt.kids, p);
    LinkedRow(m, a);
    LinkedIds(m, a);
    IdsParts(a);
    RowAt(m, a, q);
    PlaceFather(m, a, q);
    KidsApart(a.kids, q);
    LinkedRow(m, f);
    LinkedIds(m, f);
    RowAt(m, f, c);
    PlaceFather(m, f, c);
  }

  lemma CandidateIs(rt: Tree, p: int, q: int, c: int, cand: int)
    requires Candidate(rt, p, q, c, cand)
    ensures 0 <= p < |rt.kids| && 0 <= q < |rt.kids[p].kids| && 0 <= c < |rt.kids[p].kids[q].kids|
    ensures IsFork(rt.kids[p], q, c) && rt.kids[p].kids[q].kids[c].id == cand
  {
  }

  lemma PlaceFather(m: Mem, t: Tree, i: int)
    requires 0 <= i < |t.kids| && PlaceOk(m, t.id, Row(t.kids), i)
    ensures 0 <= t.kids[i].id < |m| && m[t.kids[i].id].father == t.id
    ensures m[t.kids[i].id].previous == BoxAt(Row(t.kids), i - 1) && m[t.kids[i].id].next == BoxAt(Row(t.kids), i + 1)
  {
  }

  /** The candidate is unlinked from the alternatives of its fork. */
  method Unlink(v: Config, fork: int, cand: int, ghost f: Tree, ghost c: int)
    requires Linked(v.m, f) && Unique(f) && 0 <= c < |f.kids| && f.kids[c].id == cand && f.id == fork
    modifies v
    ensures |Row(f.kids)| == |f.kids| && Unlinked(old(v.m), v.m, f.id, Row(f.kids), c)
  {
    hide *;
    ghost var m, row := v.m, Row(f.kids);
    UnlinkReady(m, f, c);
    if v.m[cand].previous != NIL {
      v.SetNext(v.m[cand].previous, v.m[cand].next);
    } else {
      v.SetTried(fork, v.m[cand].next);
    }
    if v.m[cand].next != NIL {
      v.SetPrevious(v.m[cand].next, v.m[cand].previous);
    }
    v.SetNext(cand, NIL);
    v.SetPrevious(cand, NIL);
    FoldUnlinked(m, v.m, f.id, row, c, BoxAt(row, c - 1), BoxAt(row, c + 1));
  }

  lemma UnlinkReady(m: Mem, f: Tree, c: int)
    requires Linked(m, f) && Unique(f) && 0 <= c < |f.kids|
    ensures var row := Row(f.kids);
            var prev, cand, next := BoxAt(row, c - 1), f.kids[c].id, BoxAt(row, c + 1);
            && |row| == |f.kids| && row[c] == cand && 0 <= cand < |m| && 0 <= f.id < |m| && cand != f.id && cand != prev
            && m[cand].previous == prev && m[cand].next == next
            && (prev != NIL ==> 0 <= prev < |m| && prev != cand && prev != f.id && prev != next)
            && (next != NIL ==> 0 <= next < |m| && next != cand && next != f.id)
  {
    hide *;
    LinkedRow(m, f);
    LinkedIds(m, f);
    RowDistinct(m, f);
    RowAt(m, f, c);
    PlaceFather(m, f, c);
    RowName(f.kids, c);
    if c > 0 {
      RowAt(m, f, c - 1);
    }
    if c + 1 < |f.kids| {
      RowAt(m, f, c + 1);
    }
    Neighbours(m, f.id, Row(f.kids), c);
  }

  lemma Neighbours(m: Mem, f: int, row: seq<int>, c: int)
    requires 0 <= c < |row| && DistinctRow(f, row) && (c > 0 ==> PlaceOk(m, f, row, c - 1))
             && (c + 1 < |row| ==> PlaceOk(m, f, row, c + 1))
    ensures var prev, next := BoxAt(row, c - 1), BoxAt(row, c + 1);
            && row[c] != f && row[c] != prev
            && (prev != NIL ==> 0 <= prev < |m| && prev != row[c] && prev != f && prev != next)
            && (next != NIL ==> 0 <= next < |m| && next != row[c] && next != f)
  {
  }

  lemma FoldUnlinked(m: Mem, w: Mem, f: int, row: seq<int>, c: int, prev: int, next: int)
    requires 0 <= c < |row| && prev == BoxAt(row, c - 1) && next == BoxAt(row, c + 1) && |w| == |m|
             && 0 <= row[c] < |m| && 0 <= f < |m|
    requires w[row[c]] == m[row[c]].(next := NIL, previous := NIL)
    requires prev != NIL ==> 0 <= prev < |m| && w[prev] == m[prev].(next := next)
    requires next != NIL ==> 0 <= next < |m| && w[next] == m[next].(previous := prev)
    requires w[f] == if prev == NIL then m[f].(tried := next) else m[f]
    requires forall b :: 0 <= b < |m| && b != row[c] && b != prev && b != next && b != f ==> w[b] == m[b]
    ensures Unlinked(m, w, f, row, c)
  {
  }

  /** A box for the copy of mother, to the left of it; mother is marked. */
  method InsertCopy(v: Config, mother: int, ghost t: Tree, ghost p: int) returns (n: int)
    requires Linked(v.m, t) && Unique(t) && 0 <= p < |t.kids| && t.kids[p].id == mother
    modifies v
    ensures |Row(t.kids)| == |t.kids| && Inserted(old(v.m), v.m, t.id, Row(t.kids), p, n)
  {
    hide *;
    ghost var m, row := v.m, Row(t.kids);
    UnlinkReady(m, t, p);
    Fathered(m, t, p);
    n := v.NewBox();
    v.CopyContent(mother, n);
    v.SetFather(n, v.m[mother].father);
    v.SetNext(n, mother);
    v.SetPrevious(n, v.m[mother].previous);
    if v.m[mother].previous != NIL {
      v.SetNext(v.m[mother].previous, n);
    } else {
      v.SetTried(v.m[mother].father, n);
    }
    v.SetPrevious(mother, n);
    v.SetFather(mother, NIL);
    FoldInserted(m, v.m, t.id, row, p, n, BoxAt(row, p - 1));
  }

  lemma Fathered(m: Mem, t: Tree, p: int)
    requires Linked(m, t) && 0 <= p < |t.kids|
    ensures 0 <= t.kids[p].id < |m| && m[t.kids[p].id].father == t.id
  {
    hide *;
    LinkedRow(m, t);
    RowAt(m, t, p);
    PlaceFather(m, t, p);
  }

  lemma FoldInserted(m: Mem, w: Mem, f: int, row: seq<int>, p: int, n: int, prev: int)
    requires 0 <= p < |row| && prev == BoxAt(row, p - 1) && n == |m| == |w| - 1 && 0 <= row[p] < |m| && 0 <= f < |m|
             && row[p] != prev && row[p] != f
    requires w[n].father == f && w[n].next == row[p] && w[n].previous == prev
    requires w[n].load == m[row[p]].load && w[n].open == m[row[p]].open && w[n].dead == m[row[p]].dead
    requires w[row[p]] == m[row[p]].(father := NIL, previous := n)
    requires prev != NIL ==> 0 <= prev < |m| && w[prev] == m[prev].(next := n)
    requires prev == NIL ==> w[f] == m[f].(tried := n)
    requires forall b :: 0 <= b < |m| && b != row[p] && b != prev && (prev != NIL || b != f) ==> w[b] == m[b]
    ensures Inserted(m, w, f, row, p, n)
  {
  }

  // ------------------------------------------------ putting it together

  /** After the candidate has been unlinked and is the only one at its fork: the
      tree with that fork is linked, and so is the row of the other
      alternatives, which stands aside. */
  lemma Detached(m: Mem, w: Mem, z: Mem, rt: Tree, p: int, q: int, c: int, cand: int)
    requires Linked(m, rt) && Unique(rt) && Candidate(rt, p, q, c, cand)
    requires var f := rt.kids[p].kids[q];
             && Unlinked(m, w, f.id, Row(f.kids), c) && 0 <= f.id < |w|
             && z == w[f.id := w[f.id].(tried := cand)]
    ensures var f := rt.kids[p].kids[q];
            && Linked(z, Put(rt, p, Chosen(rt.kids[p], q, c))) && RowOk(z, Others(f, c)) && |z| == |m|
            && w[f.id].tried == IdAt(Others(f, c).kids, 0)
            && (forall b :: 0 <= b < |m| && b !in Ids(f) ==> z[b] == m[b])
  {
    hide *;
    CandidateIs(rt, p, q, c, cand);
    Fathers(m, rt, p, q, c, cand);
    var a := rt.kids[p];
    var f := a.kids[q];
    var g, h := Only(f, c), Chosen(a, q, c);
    UnlinkedRow(m, w, f, c);
    LinkedIds(m, f);
    IdsParts(f);
    ForkUnique(f, c);
    OthersAre(f, c);
    ChosenIs(a, q, c);
    IdsParts(g);
    UnlinkedAt(m, w, f.id, Row(f.kids), c, f.id);
    forall b | 0 <= b < |m| && b !in Ids(f)
      ensures z[b] == m[b]
    {
      UnlinkedAt(m, w, f.id, Row(f.kids), c, b);
      NotInRow(f, b);
    }
    KeepsFrom(w, z, KidIds(Others(f, c).kids));
    RowKeeps(w, z, Others(f, c));
    KeepsFrom(w, z, KidIds(g.kids));
    RowKeeps(w, z, g);
    OnlyContent(m, z, f, c);
    LinkedRow(z, g);
    SetTriedPlace(m, z, f.id);
    LinkedPut(m, z, a, q, g);
    SameBox(m, z, a.id);
    LinkedPut(m, z, rt, p, h);
  }

  lemma ChosenIs(a: Tree, q: int, c: int)
    requires IsFork(a, q, c)
    ensures 0 <= q < |a.kids| && 0 <= c < |a.kids[q].kids|
    ensures Chosen(a, q, c) == Put(a, q, Only(a.kids[q], c)) && Chosen(a, q, c).id == a.id
    ensures Rest(a, q, c) == Put(a, q, Others(a.kids[q], c)) && Rest(a, q, c).id == a.id
    ensures |Chosen(a, q, c).kids| == |a.kids| && Chosen(a, q, c).kids[q] == Only(a.kids[q], c)
    ensures Put(Chosen(a, q, c), q, Others(a.kids[q], c)) == Rest(a, q, c)
  {
  }

  lemma OnlyContent(m: Mem, z: Mem, f: Tree, c: int)
    requires Content(m, f) && 0 <= c < |f.kids| && |m| <= |z| && z[f.id] == m[f.id].(tried := f.kids[c].id)
    ensures Content(z, Only(f, c)) && z[f.id].tried == IdAt(Only(f, c).kids, 0)
  {
  }

  lemma SetTriedPlace(m: Mem, z: Mem, b: int)
    requires 0 <= b < |m| <= |z| && z[b] == m[b].(tried := z[b].tried)
    ensures SamePlace(m, z, b)
  {
  }

  /** After the copy has been made and the marks are gone: the tree with the copy
      beside the and-box is linked. */
  lemma Attached(m: Mem, w: Mem, y: Mem, x: Mem, z: Mem, t: Tree, p: int, n: int, u: Tree)
    requires Linked(m, t) && Unique(t) && 0 <= p < |t.kids| && Inserted(m, w, t.id, Row(t.kids), p, n)
    requires Copied(w, y, t.kids[p], n, u) && Unique(t.kids[p])
    requires Forward(x, t.kids[p]) && Backward(x, t.kids[p]) && |x| == |y|
    requires forall b :: 0 <= b < |x| && b !in KidIds(t.kids[p].kids) ==> x[b] == y[b]
    requires 0 <= t.kids[p].id < |x| && z == x[t.kids[p].id := x[t.kids[p].id].(father := t.id)]
    ensures Linked(z, Beside(t, p, u, t.kids[p])) && |m| < |z|
    ensures forall b :: 0 <= b < |m| && b !in Ids(t.kids[p]) && b != t.id && b !in Row(t.kids) ==> z[b] == m[b]
    ensures forall b :: b in Ids(u) ==> b >= |m|
  {
    hide *;
    var k, row := t.kids[p], Row(t.kids);
    LinkedRow(m, t);
    LinkedIds(m, t);
    RowDistinct(m, t);
    IdsParts(t);
    IdsParts(k);
    IdsParts(u);
    KidsApart(t.kids, p);
    RowName(t.kids, p);
    InsertedSize(m, w, t.id, row, p, n);
    CopiedParts(w, y, k, n, u);
    forall i | 0 <= i < |row|
      ensures 0 <= row[i] < |m| && row[i] !in KidIds(k.kids)
    {
      RowAt(m, t, i);
      RowName(t.kids, i);
      KidsApart(t.kids, i);
    }
    KidsInside(m, t, p, n);
    forall b | 0 <= b < |w|
      ensures b !in KidIds(k.kids) && b != n && b != row[p] ==> z[b] == w[b]
      ensures b == n ==> z[b] == w[b].(tried := z[b].tried)
      ensures b == row[p] ==> z[b] == w[b].(father := t.id)
    {
      TouchesAt(w, y, KidIds(k.kids), n, b);
    }
    CopyDone(m, w, z, t.id, row, p, n, KidIds(k.kids));
    KeepsFrom(x, z, KidIds(k.kids));
    RootOfMother(x, z, k.id, t.id);
    BothLinked(x, k);
    LinkedBelow(x, z, k);
    forall b | b in Ids(u) && 0 <= b < |y|
      ensures z[b] == y[b]
    {
    }
    KeepsFrom(y, z, Ids(u));
    LinkedKeeps(y, z, u);
    BesideLinked(m, z, t, p, u, k);
  }

  lemma CopiedParts(m0: Mem, m: Mem, t: Tree, n: int, u: Tree)
    requires Copied(m0, m, t, n, u)
    ensures u.id == n && SameTree(t, u) && Linked(m, u) && Unique(u) && Forward(m, t) && Marked(m, t, u)
    ensures forall b :: b in KidIds(u.kids) ==> |m0| <= b < |m|
    ensures Touches(m0, m, KidIds(t.kids), n) && |m0| <= |m|
  {
  }

  lemma KidsInside(m: Mem, t: Tree, p: int, n: int)
    requires Linked(m, t) && Unique(t) && 0 <= p < |t.kids| && n == |m|
    ensures t.id !in KidIds(t.kids[p].kids) && n !in Ids(t.kids[p]) && n !in KidIds(t.kids[p].kids)
    ensures forall b :: b in Ids(t) ==> 0 <= b < |m|
  {
    hide *;
    IdsParts(t);
    IdsParts(t.kids[p]);
    KidsApart(t.kids, p);
    LinkedForward(m, t);
    forall b | b in Ids(t)
      ensures 0 <= b < |m|
    {
      ForwardInside(m, t, b);
    }
  }

  lemma RootOfMother(x: Mem, z: Mem, b: int, f: int)
    requires 0 <= b < |x| && z == x[b := x[b].(father := f)]
    ensures RootKeeps(x, z, b)
  {
  }

  lemma BothLinked(m: Mem, t: Tree)
    requires Forward(m, t) && Backward(m, t)
    ensures Linked(m, t)
  {
  }

  /** Where the fork and the candidate are, and where they are not. */
  lemma ForkSets(a: Tree, q: int, c: int)
    requires IsFork(a, q, c) && Unique(a)
    ensures 0 <= q < |a.kids| && 0 <= c < |a.kids[q].kids|
    ensures var f := a.kids[q];
            var g, h, o := Only(f, c), Chosen(a, q, c), Others(f, c);
            && |h.kids| == |a.kids| && h.kids[q] == g && g.id == f.id == o.id && h.id == a.id
            && f.id in Ids(g) && f.kids[c].id in Ids(g) && f.id != f.kids[c].id && f.kids[c].id in KidIds(g.kids)
            && Ids(g) <= Ids(h) && h.id !in Ids(g) && Unique(h) && Unique(g) && KidIds(o.kids) !! Ids(g)
            && UniqueKids(h.kids) && Ids(h) <= Ids(a)
  {
    hide *;
    ChosenIs(a, q, c);
    var f := a.kids[q];
    var g, h := Only(f, c), Chosen(a, q, c);
    IdsParts(a);
    KidsApart(a.kids, q);
    ForkUnique(f, c);
    OthersAre(f, c);
    UniquePut(a, q, g);
    IdsParts(g);
    IdsParts(h);
    IdsParts(f.kids[c]);
    KidsApart(h.kids, q);
  }

  /** The fork has its tried link back, and the candidate is dead. */
  function Ended2(x: Mem, f: Tree, c: int): Mem
    requires 0 <= c < |f.kids| && 0 <= f.id < |x| && 0 <= f.kids[c].id < |x|
  {
    x[f.id := x[f.id].(tried := IdAt(Others(f, c).kids, 0))][f.kids[c].id := x[f.kids[c].id].(dead := true)]
  }

  lemma EndedOther(x: Mem, f: Tree, c: int, b: int)
    requires 0 <= c < |f.kids| && 0 <= f.id < |x| && 0 <= f.kids[c].id < |x| && 0 <= b < |x|
    ensures |Ended2(x, f, c)| == |x| && (b != f.id && b != f.kids[c].id ==> Ended2(x, f, c)[b] == x[b])
  {
  }

  /** The fork with the alternatives that stood aside. */
  lemma AsideBack(m: Mem, x: Mem, a: Tree, q: int, c: int)
    requires IsFork(a, q, c) && Unique(a) && Linked(x, Chosen(a, q, c)) && RowOk(m, Others(a.kids[q], c)) && |m| <= |x|
    requires var f := a.kids[q]; 0 <= f.id < |x| && 0 <= f.kids[c].id < |x|
    requires forall b :: 0 <= b < |m| && b in KidIds(Others(a.kids[q], c).kids) ==> x[b] == m[b]
    ensures Linked(Ended2(x, a.kids[q], c), Rest(a, q, c)) && SamePlace(x, Ended2(x, a.kids[q], c), a.id)
  {
    hide *;
    ForkSets(a, q, c);
    ChosenIs(a, q, c);
    var f := a.kids[q];
    var g, h, o, z := Only(f, c), Chosen(a, q, c), Others(f, c), Ended2(x, f, c);
    LinkedIds(x, h);
    EndedOther(x, f, c, h.id);
    forall b | 0 <= b < |m| && b in KidIds(o.kids)
      ensures z[b] == m[b]
    {
      EndedOther(x, f, c, b);
    }
    KeepsFrom(m, z, KidIds(o.kids));
    RowKeeps(m, z, o);
    LinkedRow(x, h);
    RowAt(x, h, q);
    LinkedIds(x, g);
    OthersContent(x, z, f, c);
    LinkedRow(z, o);
    SetTriedPlace(x, z, f.id);
    forall b | 0 <= b < |x| && b in Ids(h) && b !in Ids(g)
      ensures z[b] == x[b]
    {
      EndedOther(x, f, c, b);
    }
    LinkedPut(x, z, h, q, o);
    SameBox(x, z, a.id);
  }

  /** Everything that stood aside is back, and the candidate is dead. */
  lemma Finished(m: Mem, x: Mem, t: Tree, p: int, q: int, c: int, u: Tree, a: Tree)
    requires 0 <= p < |t.kids| && IsFork(a, q, c) && t.kids[p] == Chosen(a, q, c) && Unique(a) && Unique(t) && Unique(u)
    requires Linked(x, Beside(t, p, u, t.kids[p])) && RowOk(m, Others(a.kids[q], c)) && |m| <= |x|
    requires (forall b :: b in Ids(u) ==> b >= |m|) && forall b :: b in Ids(t) ==> 0 <= b < |m|
    requires forall b :: 0 <= b < |m| && b !in Ids(t.kids[p]) && b != t.id && b !in Row(t.kids) ==> x[b] == m[b]
    requires KidIds(Others(a.kids[q], c).kids) !! Ids(t)
    requires var f := a.kids[q]; 0 <= f.id < |x| && 0 <= f.kids[c].id < |x|
    ensures Linked(Ended2(x, a.kids[q], c), Beside(t, p, u, Rest(a, q, c)))
  {
    hide *;
    ChosenIs(a, q, c);
    var f := a.kids[q];
    var h, z := Chosen(a, q, c), Ended2(x, f, c);
    var w := Beside(t, p, u, h);
    IdsParts(t);
    KidsApart(t.kids, p);
    MoreRow(t, p, u, h);
    BesideOf(t.kids, p, u, h, p + 1);
    forall b | 0 <= b < |m| && b in KidIds(Others(f, c).kids)
      ensures x[b] == m[b]
    {
      RowInside(t.kids, b);
    }
    LinkedRow(x, w);
    RowAt(x, w, p + 1);
    AsideBack(m, x, a, q, c);
    UniqueBeside(t, p, u, |m|);
    PutBeside(t, p, u, h, Rest(a, q, c));
    ForkSets(a, q, c);
    LinkedIds(x, h);
    EndedOther(x, f, c, h.id);
    forall b | 0 <= b < |x| && b in Ids(w) && b !in Ids(h)
      ensures z[b] == x[b]
    {
      EndedOther(x, f, c, b);
    }
    LinkedPut(x, z, w, p + 1, Rest(a, q, c));
  }

  lemma UniqueBeside(t: Tree, p: int, u: Tree, size: int)
    requires 0 <= p < |t.kids| && Unique(t) && Unique(u)
    requires (forall b :: b in Ids(u) ==> b >= size) && forall b :: b in Ids(t) ==> 0 <= b < size
    ensures Unique(Beside(t, p, u, t.kids[p]))
  {
    hide *;
    IdsParts(t);
    KidsApart(t.kids, p);
    forall b
      ensures !(b in Ids(u) && b in KidIds(t.kids))
    {
    }
    BesideUnique(t.kids, p, u, t.kids[p]);
    BesideKids(t, p, u, t.kids[p]);
    BesideWhole(t, p, u, t.kids[p]);
  }

  lemma RowInside(kids: seq<Tree>, b: int)
    ensures b in Row(kids) ==> b in KidIds(kids)
  {
    if b in Row(kids) {
      var j :| 0 <= j < |kids| && kids[j].id == b;
      KidsApart(kids, j);
    }
  }

  lemma OthersContent(x: Mem, z: Mem, f: Tree, c: int)
    requires 0 <= c < |f.kids| && Content(x, Only(f, c)) && f.id != f.kids[c].id && 0 <= f.kids[c].id < |x|
             && 0 <= f.id < |x|
    requires z == Ended2(x, f, c)
    ensures Content(z, Others(f, c)) && z[f.id].tried == IdAt(Others(f, c).kids, 0)
            && z[f.id] == x[f.id].(tried := z[f.id].tried)
  {
  }

  lemma BesideWhole(t: Tree, p: int, u: Tree, k: Tree)
    requires 0 <= p < |t.kids| && UniqueKids(Beside(t, p, u, k).kids)
             && KidIds(Beside(t, p, u, k).kids) <= KidIds(t.kids) + Ids(u)
    requires t.id !in KidIds(t.kids) && t.id !in Ids(u)
    ensures Unique(Beside(t, p, u, k))
  {
  }

  lemma BesideKids(t: Tree, p: int, u: Tree, k: Tree)
    requires 0 <= p < |t.kids|
    ensures Beside(t, p, u, k).kids == t.kids[..p] + [u, k] + t.kids[p + 1..]
  {
  }

  lemma PutBeside(t: Tree, p: int, u: Tree, k: Tree, r: Tree)
    requires 0 <= p < |t.kids|
    ensures |Beside(t, p, u, k).kids| == |t.kids| + 1 && Put(Beside(t, p, u, k), p + 1, r) == Beside(t, p, u, r)
  {
    assert Put(Beside(t, p, u, k), p + 1, r).kids == Beside(t, p, u, r).kids;
  }

  /** What a split comes to: below the choice-box rt the copy stands immediately
      to the left of the and-box a, all links are well formed, the copy has the
      candidate only, a has the other alternatives in their order, and nothing
      outside the tree has changed. */
  ghost predicate IsSplit(m: Mem, z: Mem, rt: Tree, p: int, q: int, c: int, u: Tree)
    requires 0 <= p < |rt.kids| && IsFork(rt.kids[p], q, c)
  {
    && Linked(z, Beside(rt, p, u, Rest(rt.kids[p], q, c))) && Unique(Beside(rt, p, u, Rest(rt.kids[p], q, c)))
    && SameTree(Chosen(rt.kids[p], q, c), u)
    && (forall b :: b in Ids(u) ==> |m| <= b < |z|)
    && (forall b :: 0 <= b < |m| && b !in Ids(rt) ==> z[b] == m[b])
  }

  /** copy: the and-box above the fork of the candidate is split in two; the
      result is the copy of the candidate. */
  method Copy(v: Config, cand: int, ghost rt: Tree, ghost p: int, ghost q: int, ghost c: int)
    returns (promoted: int, ghost u: Tree)
    requires Linked(v.m, rt) && Unique(rt) && Candidate(rt, p, q, c, cand)
    modifies v
    ensures 0 <= p < |rt.kids| && IsFork(rt.kids[p], q, c) && IsSplit(old(v.m), v.m, rt, p, q, c, u)
    ensures 0 <= q < |u.kids| && |u.kids[q].kids| == 1 && promoted == u.kids[q].kids[0].id
    ensures 0 <= cand < |v.m| && v.m[cand].dead
  {
    hide *;
    ghost var m0 := v.m;
    CandidateIs(rt, p, q, c, cand);
    Fathers(v.m, rt, p, q, c, cand);
    ghost var a := rt.kids[p];
    ghost var f := a.kids[q];
    var fork := v.m[cand].father;
    var mother := v.m[fork].father;
    Unlink(v, fork, cand, f, c);
    ghost var m1 := v.m;
    UnlinkedSize(m0, v.m, f.id, Row(f.kids), c);
    var tried := v.m[fork].tried;
    v.SetTried(fork, cand);
    Detached(m0, m1, v.m, rt, p, q, c, cand);
    ghost var m2 := v.m;
    ghost var t := Put(rt, p, Chosen(a, q, c));
    SplitSets(m0, rt, p, q, c);
    var copy := InsertCopy(v, mother, t, p);
    ghost var w := v.m;
    InsertedSize(m2, w, t.id, Row(t.kids), p, copy);
    CopyReady(m2, w, t, p, copy);
    u := v.CopyTree(mother, copy, t.kids[p]);
    ghost var y := v.m;
    CopiedParts(w, y, t.kids[p], copy, u);
    promoted := v.m[cand].previous;
    PromotedIs(v.m, a, q, c, u);
    v.ResetTree(mother, t.kids[p]);
    ghost var x := v.m;
    MotherInside(m2, w, y, x, t, p, copy, t.kids[p]);
    v.SetFather(mother, v.m[copy].father);
    Attached(m2, w, y, x, v.m, t, p, copy, u);
    ghost var z := v.m;
    v.SetTried(fork, tried);
    v.SetDead(cand);
    ForkSets(a, q, c);
    FoldEnded2(z, v.m, f, c, tried);
    Finished(m2, z, t, p, q, c, u, a);
    SplitDone(m0, m2, z, v.m, rt, t, p, q, c, u);
  }

  lemma UnlinkedSize(m: Mem, w: Mem, f: int, row: seq<int>, c: int)
    requires 0 <= c < |row| && Unlinked(m, w, f, row, c)
    ensures |w| == |m| && 0 <= f < |m|
  {
  }

  /** The names of the trees in between, and their boxes. */
  lemma SplitSets(m: Mem, rt: Tree, p: int, q: int, c: int)
    requires Linked(m, rt) && Unique(rt) && 0 <= p < |rt.kids| && IsFork(rt.kids[p], q, c)
    ensures var a, t := rt.kids[p], Put(rt, p, Chosen(rt.kids[p], q, c));
            && |t.kids| == |rt.kids| && t.kids[p] == Chosen(a, q, c) && t.id == rt.id && t.kids[p].id == a.id
            && Unique(a) && Unique(t) && Ids(t) <= Ids(rt)
            && KidIds(Others(a.kids[q], c).kids) !! Ids(t)
            && (forall b :: b in Ids(rt) ==> 0 <= b < |m|)
            && (forall u, r :: Beside(t, p, u, r) == Beside(rt, p, u, r))
  {
    hide *;
    var a, h := rt.kids[p], Chosen(rt.kids[p], q, c);
    ChosenIs(a, q, c);
    IdsParts(rt);
    KidsApart(rt.kids, p);
    ForkSets(a, q, c);
    PutRow(rt, p, h);
    UniquePut(rt, p, h);
    KidsInside(m, rt, p, |m|);
    AsideApart(rt, p, q, c);
    forall u, r
      ensures Beside(Put(rt, p, h), p, u, r) == Beside(rt, p, u, r)
    {
      BesidePut(rt, p, h, u, r);
    }
  }

  lemma BesidePut(t: Tree, p: int, h: Tree, u: Tree, r: Tree)
    requires 0 <= p < |t.kids|
    ensures |Put(t, p, h).kids| == |t.kids| && Beside(Put(t, p, h), p, u, r) == Beside(t, p, u, r)
  {
  }

  /** The alternatives that stand aside are in no other place of the tree. */
  lemma AsideApart(rt: Tree, p: int, q: int, c: int)
    requires Unique(rt) && 0 <= p < |rt.kids| && IsFork(rt.kids[p], q, c)
    ensures KidIds(Others(rt.kids[p].kids[q], c).kids) !! Ids(Put(rt, p, Chosen(rt.kids[p], q, c)))
  {
    hide *;
    var a, h := rt.kids[p], Chosen(rt.kids[p], q, c);
    ChosenIs(a, q, c);
    var f := a.kids[q];
    var o, t := Others(f, c), Put(rt, p, h);
    IdsParts(rt);
    IdsParts(t);
    IdsParts(a);
    IdsParts(f);
    IdsParts(o);
    KidsApart(rt.kids, p);
    KidsApart(a.kids, q);
    ForkUnique(f, c);
    OthersAre(f, c);
    ForkSets(a, q, c);
    PutIds(rt.kids, p, h);
    PutIds(a.kids, q, Only(f, c));
    PutRow(rt, p, h);
    PutKids(rt, p, h);
    PutKids(a, q, Only(f, c));
    IdsParts(h);
  }

  lemma PutKids(t: Tree, i: int, k: Tree)
    requires 0 <= i < |t.kids|
    ensures Put(t, i, k).kids == t.kids[i := k] && Put(t, i, k).id == t.id
  {
  }

  /** The boxes of a row with one kid replaced. */
  lemma PutIds(kids: seq<Tree>, i: int, k: Tree)
    requires UniqueKids(kids) && 0 <= i < |kids|
    ensures KidIds(kids[i := k]) == KidIds(Without(kids, i)) + Ids(k)
    ensures KidIds(Without(kids, i)) !! Ids(kids[i])
  {
    hide *;
    Parts(kids, i, k);
    Around(kids[..i], kids[i], kids[i + 1..]);
    Around(kids[..i], k, kids[i + 1..]);
    UniqueSplit(kids[..i], kids[i + 1..]);
  }

  lemma PromotedIs(m: Mem, a: Tree, q: int, c: int, u: Tree)
    requires IsFork(a, q, c) && Marked(m, Chosen(a, q, c), u)
    ensures 0 <= a.kids[q].kids[c].id < |m| && 0 <= q < |u.kids| && |u.kids[q].kids| == 1
    ensures m[a.kids[q].kids[c].id].previous == u.kids[q].kids[0].id
  {
    var h := Chosen(a, q, c);
    assert Marked(m, h.kids[q], u.kids[q]) && h.kids[q] == Only(a.kids[q], c);
    assert Marked(m, h.kids[q].kids[0], u.kids[q].kids[0]);
  }

  /** The copy tells the father of the and-box it stands beside. */
  lemma MotherInside(m: Mem, w: Mem, y: Mem, x: Mem, t: Tree, p: int, n: int, k: Tree)
    requires Linked(m, t) && Unique(t) && 0 <= p < |t.kids| && k == t.kids[p] && Inserted(m, w, t.id, Row(t.kids), p, n)
    requires Touches(w, y, KidIds(k.kids), n) && |x| == |y| && |w| <= |y|
    requires forall b :: 0 <= b < |x| && b !in KidIds(k.kids) ==> x[b] == y[b]
    ensures 0 <= k.id < |x| && 0 <= n < |x| && x[n].father == t.id
  {
    hide *;
    InsertedSize(m, w, t.id, Row(t.kids), p, n);
    KidsInside(m, t, p, n);
    InsertedFather(m, w, t.id, Row(t.kids), p, n);
    RowName(t.kids, p);
    TouchesAt(w, y, KidIds(k.kids), n, n);
  }

  lemma InsertedFather(m: Mem, w: Mem, f: int, row: seq<int>, p: int, n: int)
    requires 0 <= p < |row| && Inserted(m, w, f, row, p, n)
    ensures w[n].father == f
  {
  }

  lemma SplitDone(m0: Mem, m2: Mem, x: Mem, z: Mem, rt: Tree, t: Tree, p: int, q: int, c: int, u: Tree)
    requires Linked(m0, rt) && Unique(rt) && 0 <= p < |rt.kids| && IsFork(rt.kids[p], q, c)
             && t == Put(rt, p, Chosen(rt.kids[p], q, c))
    requires 0 <= rt.kids[p].kids[q].id < |x| && 0 <= rt.kids[p].kids[q].kids[c].id < |x|
    requires z == Ended2(x, rt.kids[p].kids[q], c) && |m0| == |m2| <= |x|
    requires Linked(z, Beside(rt, p, u, Rest(rt.kids[p], q, c))) && SameTree(Chosen(rt.kids[p], q, c), u) && Unique(u)
    requires forall b :: b in Ids(u) ==> b >= |m2|
    requires forall b :: 0 <= b < |m0| && b !in Ids(rt.kids[p].kids[q]) ==> m2[b] == m0[b]
    requires |t.kids| == |rt.kids|
    requires forall b :: 0 <= b < |m2| && b !in Ids(t.kids[p]) && b != t.id && b !in Row(t.kids) ==> x[b] == m2[b]
    ensures IsSplit(m0, z, rt, p, q, c, u)
  {
    hide *;
    var a := rt.kids[p];
    SplitSets(m0, rt, p, q, c);
    ChosenIs(a, q, c);
    IdsParts(rt);
    IdsParts(t);
    KidsApart(rt.kids, p);
    KidsApart(t.kids, p);
    IdsParts(a);
    KidsApart(a.kids, q);
    ForkSets(a, q, c);
    IdsParts(a.kids[q]);
    KidsApart(a.kids[q].kids, c);
    IdsParts(a.kids[q].kids[c]);
    EndedOther(x, a.kids[q], c, a.kids[q].id);
    forall b | 0 <= b < |m0| && b !in Ids(rt)
      ensures z[b] == m0[b]
    {
      RowInside(t.kids, b);
      EndedOther(x, a.kids[q], c, b);
    }
    RestUnique(rt, p, q, c, u, |m0|);
    LinkedForward(z, Beside(rt, p, u, Rest(a, q, c)));
    UInside(z, rt, p, u, Rest(a, q, c));
    FoldSplit(m0, z, rt, p, q, c, u);
  }

  lemma FoldEnded2(x: Mem, z: Mem, f: Tree, c: int, tried: int)
    requires 0 <= c < |f.kids| && 0 <= f.id < |x| && 0 <= f.kids[c].id < |x| && f.id != f.kids[c].id
    requires tried == IdAt(Others(f, c).kids, 0)
    requires var w := x[f.id := x[f.id].(tried := tried)]; z == w[f.kids[c].id := w[f.kids[c].id].(dead := true)]
    ensures z == Ended2(x, f, c)
  {
  }

  lemma RestUnique(rt: Tree, p: int, q: int, c: int, u: Tree, size: int)
    requires Unique(rt) && Unique(u) && 0 <= p < |rt.kids| && IsFork(rt.kids[p], q, c)
    requires (forall b :: b in Ids(u) ==> b >= size) && forall b :: b in Ids(rt) ==> 0 <= b < size
    ensures Unique(Beside(rt, p, u, Rest(rt.kids[p], q, c)))
  {
    hide *;
    var a, r := rt.kids[p], Rest(rt.kids[p], q, c);
    ChosenIs(a, q, c);
    IdsParts(rt);
    IdsParts(a);
    KidsApart(rt.kids, p);
    KidsApart(a.kids, q);
    ForkUnique(a.kids[q], c);
    UniquePut(a, q, Others(a.kids[q], c));
    forall b
      ensures !(b in Ids(u) && b in KidIds(rt.kids))
    {
    }
    BesideUnique(rt.kids, p, u, r);
    BesideKids(rt, p, u, r);
    BesideWhole(rt, p, u, r);
  }

  lemma UInside(z: Mem, rt: Tree, p: int, u: Tree, k: Tree)
    requires 0 <= p < |rt.kids| && Forward(z, Beside(rt, p, u, k)) && k.id == rt.kids[p].id
    ensures forall b :: b in Ids(u) ==> 0 <= b < |z|
  {
    hide *;
    MoreRow(rt, p, u, k);
    BesideOf(rt.kids, p, u, k, p);
    ForwardKid(z, Beside(rt, p, u, k), p);
    forall b | b in Ids(u)
      ensures 0 <= b < |z|
    {
      ForwardInside(z, u, b);
    }
  }

  lemma FoldSplit(m: Mem, z: Mem, rt: Tree, p: int, q: int, c: int, u: Tree)
    requires 0 <= p < |rt.kids| && IsFork(rt.kids[p], q, c) && |m| <= |z|
    requires Linked(z, Beside(rt, p, u, Rest(rt.kids[p], q, c))) && Unique(Beside(rt, p, u, Rest(rt.kids[p], q, c)))
    requires SameTree(Chosen(rt.kids[p], q, c), u) && forall b :: b in Ids(u) ==> |m| <= b < |z|
    requires forall b :: 0 <= b < |m| && b !in Ids(rt) ==> z[b] == m[b]
    ensures IsSplit(m, z, rt, p, q, c, u)
  {
  }
}
