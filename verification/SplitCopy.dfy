/** Copying the boxes below an and-box, with the old boxes marked and pointing
    to their copies, and taking the marks away again. */
module SplitCopy {
  import opened SplitTree

  /** From m0 to m only boxes of s lost their father and previous links, the box
      n got another tried link, and boxes were added. */
  ghost predicate Touches(m0: Mem, m: Mem, s: set<int>, n: int) {
    && |m0| <= |m|
    && (forall b :: 0 <= b < |m0| && b !in s && b != n ==> m[b] == m0[b])
    && (forall b :: 0 <= b < |m0| && b in s && b != n ==>
       m[b] == m0[b].(father := m[b].father, previous := m[b].previous))
    && (0 <= n < |m0| ==> m[n] == m0[n].(tried := m[n].tried))
  }

  /** The copy u of the kid k has been hung below n as its j-th kid. */
  ghost predicate Hung(m: Mem, k: Tree, u: Tree, n: int, prev: int) {
    && SameTree(k, u) && Linked(m, u) && Unique(u) && m[u.id].father == n && m[u.id].previous == prev
    && 0 <= k.id < |m| && m[k.id].father == NIL && m[k.id].previous == u.id && Marked(m, k, u)
  }

  ghost predicate Newer(m0: Mem, m: Mem, u: Tree) {
    forall b :: b in Ids(u) ==> |m0| <= b < |m|
  }

  /** The first |us| kids of t have been copied. */
  ghost predicate Copying(m0: Mem, m: Mem, t: Tree, n: int, us: seq<Tree>) {
    && |us| <= |t.kids| && Forward(m, t) && 0 <= n < |m0| && (forall b :: b in Ids(t) ==> 0 <= b < |m0|)
       && Touches(m0, m, KidIds(t.kids), n)
    && (forall j :: 0 <= j < |us| ==> Hung(m, t.kids[j], us[j], n, IdAt(us, j - 1)) && Newer(m0, m, us[j]))
    && (forall j :: 0 <= j < |us| - 1 ==> m[us[j].id].next == us[j + 1].id)
    && (forall i, j :: 0 <= i < j < |us| ==> Ids(us[i]) !! Ids(us[j]))
    && (us != [] ==> m[n].tried == us[0].id)
  }

  /** What copying the kids of t below n comes to. */
  ghost predicate Copied(m0: Mem, m: Mem, t: Tree, n: int, u: Tree) {
    && u.id == n && SameTree(t, u) && Linked(m, u) && Unique(u) && Forward(m, t) && Marked(m, t, u)
    && (forall b :: b in KidIds(u.kids) ==> |m0| <= b < |m|)
    && Touches(m0, m, KidIds(t.kids), n)
  }

  /** The box c has been made for the kid k of n and put behind prev; k is
      marked. */
  ghost predicate Prepared(m: Mem, w: Mem, k: int, n: int, c: int, prev: int) {
    && c == |m| == |w| - 1 && 0 <= k < |m| && 0 <= n < |m| && k != n && k != prev
    && w[c].father == n && w[c].previous == prev
    && w[c].load == m[k].load && w[c].open == m[k].open && w[c].dead == m[k].dead
    && w[k] == m[k].(father := NIL, previous := c)
    && (prev != NIL ==> 0 <= prev < |m| && w[prev] == m[prev].(next := c))
    && (prev == NIL ==> w[n] == m[n].(tried := c))
    && (forall b :: 0 <= b < |m| && b != k && b != prev && (prev != NIL || b != n) ==> w[b] == m[b])
  }

  lemma StartIsCopying(m: Mem, t: Tree, n: int)
    requires Forward(m, t) && 0 <= n < |m|
    ensures Copying(m, m, t, n, [])
    ensures 0 <= t.id < |m| && m[t.id].tried == IdAt(t.kids, 0) && IdAt([], -1) == NIL
  {
    forall b | b in Ids(t)
      ensures 0 <= b < |m|
    {
      ForwardInside(m, t, b);
    }
  }

  /** Where the loop is: the next kid and the last copy. */
  lemma Position(m0: Mem, m: Mem, t: Tree, n: int, us: seq<Tree>)
    requires Copying(m0, m, t, n, us) && Unique(t) && n !in Ids(t)
    ensures IdAt(t.kids, |us|) != NIL <==> |us| < |t.kids|
    ensures |us| < |t.kids| ==> var k := t.kids[|us|]; IdAt(t.kids, |us|) == k.id && 0 <= k.id < |m0| && k.id != n
    ensures |us| < |t.kids| ==> m[t.kids[|us|].id].next == IdAt(t.kids, |us| + 1)
    ensures IdAt(us, |us| - 1) != NIL <==> us != []
    ensures us != [] ==> IdAt(us, |us| - 1) == us[|us| - 1].id && |m0| <= us[|us| - 1].id < |m|
    ensures |m0| <= |m| && 0 <= n < |m0|
  {
    if |us| < |t.kids| {
      KidsApart(t.kids, |us|);
      ForwardKid(m, t, |us|);
    }
    if us != [] {
      var v := us[|us| - 1];
      assert Newer(m0, m, v) && v.id in Ids(v);
    }
  }

  /** A prepared kid can be copied. */
  lemma KidReady(m0: Mem, m: Mem, w: Mem, t: Tree, n: int, us: seq<Tree>)
    requires Copying(m0, m, t, n, us) && Unique(t) && n !in Ids(t) && |us| < |t.kids|
    requires Prepared(m, w, t.kids[|us|].id, n, |m|, IdAt(us, |us| - 1))
    ensures var k := t.kids[|us|];
            Forward(w, k) && Unique(k) && |m| !in Ids(k) && Content(w, k.(id := |m|)) && 0 <= |m| < |w|
  {
    hide *;
    var k := t.kids[|us|];
    Position(m0, m, t, n, us);
    CopyingParts(m0, m, t, n, us);
    KidsApart(t.kids, |us|);
    IdsParts(t);
    ForwardKid(m, t, |us|);
    PreparedKeeps(m, w, k.id, n, |m|, IdAt(us, |us| - 1), Ids(k));
    ForwardKeeps(m, w, k);
    PreparedContent(m, w, k, n, |m|, IdAt(us, |us| - 1));
  }

  lemma CopyingParts(m0: Mem, m: Mem, t: Tree, n: int, us: seq<Tree>)
    requires Copying(m0, m, t, n, us)
    ensures |us| <= |t.kids| && Forward(m, t) && 0 <= n < |m0| <= |m| && (forall b :: b in Ids(t) ==> 0 <= b < |m0|)
    ensures Touches(m0, m, KidIds(t.kids), n)
    ensures us == [] ==> IdAt(us, |us| - 1) == NIL == -1
    ensures forall i, j :: 0 <= i < j < |us| ==> Ids(us[i]) !! Ids(us[j])
    ensures us != [] ==> m[n].tried == us[0].id
  {
  }

  lemma HungAt(m0: Mem, m: Mem, t: Tree, n: int, us: seq<Tree>, j: int)
    requires Copying(m0, m, t, n, us) && 0 <= j < |us|
    ensures Hung(m, t.kids[j], us[j], n, IdAt(us, j - 1)) && Newer(m0, m, us[j]) && |m0| <= us[j].id < |m|
    ensures j < |us| - 1 ==> m[us[j].id].next == us[j + 1].id
    ensures forall b :: b in KidIds(us[j].kids) ==> |m0| <= b < |m| && b != us[j].id
  {
    assert Newer(m0, m, us[j]) && Hung(m, t.kids[j], us[j], n, IdAt(us, j - 1));
    IdsParts(us[j]);
  }

  lemma PreparedKeeps(m: Mem, w: Mem, k: int, n: int, c: int, prev: int, s: set<int>)
    requires Prepared(m, w, k, n, c, prev) && n !in s && (prev == -1 || prev !in s)
    ensures KeepsForward(m, w, s) && |w| == |m| + 1
  {
  }

  lemma PreparedContent(m: Mem, w: Mem, k: Tree, n: int, c: int, prev: int)
    requires Prepared(m, w, k.id, n, c, prev) && Content(m, k)
    ensures Content(w, k.(id := c))
  {
  }

  /** What copying one kid has done to the boxes elsewhere. */
  lemma KidElsewhere(m0: Mem, m: Mem, w: Mem, z: Mem, t: Tree, n: int, us: seq<Tree>, v: Tree)
    requires Copying(m0, m, t, n, us) && Unique(t) && n !in Ids(t) && |us| < |t.kids|
    requires Prepared(m, w, t.kids[|us|].id, n, |m|, IdAt(us, |us| - 1)) && Copied(w, z, t.kids[|us|], |m|, v)
    ensures |m| < |z|
    ensures forall b :: 0 <= b < |m| && b !in Ids(t.kids[|us|]) && b != IdAt(us, |us| - 1) && b != n ==> z[b] == m[b]
    ensures forall b :: 0 <= b < |m| && b in Ids(t.kids[|us|]) ==>
            z[b] == m[b].(father := z[b].father, previous := z[b].previous)
    ensures us == [] ==> z[n] == m[n].(tried := |m|)
    ensures us != [] ==>
            0 <= us[|us| - 1].id < |m| && z[n] == m[n] && z[us[|us| - 1].id] == m[us[|us| - 1].id].(next := |m|)
    ensures z[|m|].father == n && z[|m|].previous == IdAt(us, |us| - 1)
    ensures var k := t.kids[|us|]; 0 <= k.id < |m| && z[k.id].father == -1 && z[k.id].previous == |m|
  {
    hide *;
    var k := t.kids[|us|];
    Position(m0, m, t, n, us);
    CopyingParts(m0, m, t, n, us);
    KidsApart(t.kids, |us|);
    IdsParts(t);
    IdsParts(k);
    CopiedIs(w, z, k, |m|, v);
    PreparedTouched(m, w, z, k.id, n, |m|, IdAt(us, |us| - 1), KidIds(k.kids));
  }

  lemma PreparedTouched(m: Mem, w: Mem, z: Mem, k: int, n: int, c: int, prev: int, s: set<int>)
    requires Prepared(m, w, k, n, c, prev) && Touches(w, z, s, c) && n !in s && (prev == -1 || prev !in s) && k !in s
             && c !in s
    ensures |m| < |z| && 0 <= k < |m| && 0 <= n < |m|
    ensures forall b :: 0 <= b < |m| && b !in s && b != k && b != prev && b != n ==> z[b] == m[b]
    ensures forall b :: 0 <= b < |m| && (b in s || b == k) ==>
            z[b] == m[b].(father := z[b].father, previous := z[b].previous)
    ensures prev == -1 ==> z[n] == m[n].(tried := c)
    ensures prev != -1 && n != prev ==> z[n] == m[n]
    ensures prev != -1 ==> 0 <= prev < |m| && z[prev] == m[prev].(next := c)
    ensures z[c].father == n && z[c].previous == prev
    ensures z[k].father == -1 && z[k].previous == c
  {
  }

  lemma KidTouches(m0: Mem, m: Mem, z: Mem, t: Tree, n: int, us: seq<Tree>)
    requires Copying(m0, m, t, n, us) && |us| < |t.kids| && |m| < |z|
    requires forall b :: 0 <= b < |m| && b !in Ids(t.kids[|us|]) && b != IdAt(us, |us| - 1) && b != n ==> z[b] == m[b]
    requires forall b :: 0 <= b < |m| && b in Ids(t.kids[|us|]) ==>
             z[b] == m[b].(father := z[b].father, previous := z[b].previous)
    requires z[n] == m[n].(tried := z[n].tried) && (us != [] ==> IdAt(us, |us| - 1) >= |m0|)
    ensures Touches(m0, z, KidIds(t.kids), n)
  {
    KidsApart(t.kids, |us|);
  }

  /** A copy that was hung before is still. */
  lemma StillHung(m0: Mem, m: Mem, z: Mem, t: Tree, n: int, us: seq<Tree>, j: int)
    requires Copying(m0, m, t, n, us) && Unique(t) && n !in Ids(t) && 0 <= j < |us| < |t.kids| && |m| < |z|
             && 0 <= us[|us| - 1].id < |m|
    requires forall b :: 0 <= b < |m| && b !in Ids(t.kids[|us|]) && b != us[|us| - 1].id && b != n ==> z[b] == m[b]
    requires z[us[|us| - 1].id] == m[us[|us| - 1].id].(next := |m|)
    ensures Hung(z, t.kids[j], us[j], n, IdAt(us, j - 1)) && Newer(m0, z, us[j])
  {
    var v, k, last := us[j], t.kids[j], us[|us| - 1];
    hide *;
    CopyingParts(m0, m, t, n, us);
    KidsApart(t.kids, |us|);
    KidsApart(t.kids, j);
    HungAt(m0, m, t, n, us, j);
    HungAt(m0, m, t, n, us, |us| - 1);
    IdsParts(t);
    IdsParts(k);
    IdsParts(v);
    IdsParts(last);
    var e := t.kids[|us|];
    forall b | b in KidIds(v.kids)
      ensures b !in Ids(e) && b != last.id && b != n
    {
    }
    Elsewhere(m, z, KidIds(v.kids), Ids(e), last.id, n);
    forall b | b in Ids(k)
      ensures b !in Ids(e) && b != last.id && b != n
    {
    }
    Elsewhere(m, z, Ids(k), Ids(e), last.id, n);
    assert z[v.id] == m[v.id].(next := z[v.id].next) by {
      if v.id != last.id {
        assert v.id !in Ids(e);
      }
    }
    KeepsHung(m, z, k, v, n, IdAt(us, j - 1));
    NewerMore(m0, m, z, v);
  }

  lemma Elsewhere(m: Mem, z: Mem, s: set<int>, e: set<int>, last: int, n: int)
    requires |m| < |z| && forall b :: 0 <= b < |m| && b !in e && b != last && b != n ==> z[b] == m[b]
    requires forall b :: b in s ==> b !in e && b != last && b != n
    ensures forall b :: b in s && 0 <= b < |m| ==> z[b] == m[b]
  {
  }

  lemma KidHung(m0: Mem, m: Mem, w: Mem, z: Mem, t: Tree, n: int, us: seq<Tree>, v: Tree)
    requires Copying(m0, m, t, n, us) && |us| < |t.kids| && |m0| <= |m| == |w| - 1
    requires Copied(w, z, t.kids[|us|], |m|, v)
    requires z[|m|].father == n && z[|m|].previous == IdAt(us, |us| - 1)
    requires var k := t.kids[|us|]; 0 <= k.id < |m| && z[k.id].father == -1 && z[k.id].previous == |m|
    ensures Hung(z, t.kids[|us|], v, n, IdAt(us, |us| - 1)) && Newer(m0, z, v)
    ensures forall b :: b in Ids(v) ==> b >= |m|
  {
    assert Content(z, v);
  }

  lemma ForwardStays(m0: Mem, m: Mem, z: Mem, t: Tree, n: int, us: seq<Tree>)
    requires Copying(m0, m, t, n, us) && |us| < |t.kids| && n !in Ids(t) && |m| < |z|
    requires forall b :: 0 <= b < |m| && b !in Ids(t.kids[|us|]) && b != IdAt(us, |us| - 1) && b != n ==> z[b] == m[b]
    requires forall b :: 0 <= b < |m| && b in Ids(t.kids[|us|]) ==>
             z[b] == m[b].(father := z[b].father, previous := z[b].previous)
    requires us != [] ==> IdAt(us, |us| - 1) >= |m0|
    ensures Forward(z, t)
  {
    forall b | b in Ids(t) && 0 <= b < |m|
      ensures z[b] == m[b].(father := z[b].father, previous := z[b].previous)
    {
      assert us == [] ==> IdAt(us, |us| - 1) == NIL;
    }
    ForwardKeeps(m, z, t);
  }

  /** One more kid has been copied. */
  lemma KidCopied(m0: Mem, m: Mem, w: Mem, z: Mem, t: Tree, n: int, us: seq<Tree>, v: Tree)
    requires Copying(m0, m, t, n, us) && Unique(t) && n !in Ids(t) && |us| < |t.kids|
    requires Prepared(m, w, t.kids[|us|].id, n, |m|, IdAt(us, |us| - 1)) && Copied(w, z, t.kids[|us|], |m|, v)
    ensures Copying(m0, z, t, n, us + [v]) && v.id == |m|
  {
    hide *;
    PreparedIs(m, w, t.kids[|us|].id, n, |m|, IdAt(us, |us| - 1));
    Position(m0, m, t, n, us);
    KidElsewhere(m0, m, w, z, t, n, us, v);
    KidTouches(m0, m, z, t, n, us);
    ForwardStays(m0, m, z, t, n, us);
    KidHung(m0, m, w, z, t, n, us, v);
    forall j | 0 <= j < |us|
      ensures Hung(z, t.kids[j], us[j], n, IdAt(us, j - 1)) && Newer(m0, z, us[j])
    {
      StillHung(m0, m, z, t, n, us, j);
    }
    CopiedIs(w, z, t.kids[|us|], |m|, v);
    MakeCopying(m0, m, z, t, n, us, v);
  }

  lemma PreparedIs(m: Mem, w: Mem, k: int, n: int, c: int, prev: int)
    requires Prepared(m, w, k, n, c, prev)
    ensures c == |m| == |w| - 1
  {
  }

  lemma CopiedIs(m0: Mem, m: Mem, t: Tree, n: int, u: Tree)
    requires Copied(m0, m, t, n, u)
    ensures u.id == n && |m0| <= |m| && Touches(m0, m, KidIds(t.kids), n)
  {
  }

  lemma MakeCopying(m0: Mem, m: Mem, z: Mem, t: Tree, n: int, us: seq<Tree>, v: Tree)
    requires Copying(m0, m, t, n, us) && |us| < |t.kids| && |m| < |z| && v.id == |m| && n !in Ids(t)
    requires Touches(m0, z, KidIds(t.kids), n) && Forward(z, t)
    requires Hung(z, t.kids[|us|], v, n, IdAt(us, |us| - 1)) && Newer(m0, z, v) && forall b :: b in Ids(v) ==> b >= |m|
    requires forall j :: 0 <= j < |us| ==> Hung(z, t.kids[j], us[j], n, IdAt(us, j - 1)) && Newer(m0, z, us[j])
    requires us == [] ==> z[n] == m[n].(tried := |m|)
    requires us != [] ==>
             z[n] == m[n] && 0 <= us[|us| - 1].id < |m| && z[us[|us| - 1].id] == m[us[|us| - 1].id].(next := |m|)
    requires forall b :: 0 <= b < |m| && b !in Ids(t.kids[|us|]) && b != IdAt(us, |us| - 1) && b != n ==> z[b] == m[b]
    ensures Copying(m0, z, t, n, us + [v])
  {
    hide *;
    CopyingParts(m0, m, t, n, us);
    var vs := us + [v];
    forall j | 0 <= j < |vs| - 1
      ensures 0 <= vs[j].id < |z| && z[vs[j].id].next == vs[j + 1].id
    {
      NextKept(m0, m, z, t, n, us, v, j);
    }
    forall j | 0 <= j < |vs|
      ensures Hung(z, t.kids[j], vs[j], n, IdAt(vs, j - 1)) && Newer(m0, z, vs[j])
    {
      IdAtMore(us, v, j - 1);
    }
    forall i, j | 0 <= i < j < |vs|
      ensures Ids(vs[i]) !! Ids(vs[j])
    {
      if j == |us| {
        HungAt(m0, m, t, n, us, i);
        NewerApart(m0, m, us[i], v);
      }
    }
    TriedFirst(m0, m, z, t, n, us, v);
    FoldCopying(m0, z, t, n, vs);
  }

  lemma IdAtMore(us: seq<Tree>, v: Tree, j: int)
    requires j < |us|
    ensures IdAt(us + [v], j) == IdAt(us, j)
  {
  }

  lemma NewerApart(m0: Mem, m: Mem, u: Tree, v: Tree)
    requires (forall b :: b in Ids(v) ==> b >= |m|) && Newer(m0, m, u)
    ensures Ids(u) !! Ids(v)
  {
    hide Ids;
    forall b
      ensures !(b in Ids(u) && b in Ids(v))
    {
    }
  }

  lemma TriedFirst(m0: Mem, m: Mem, z: Mem, t: Tree, n: int, us: seq<Tree>, v: Tree)
    requires Copying(m0, m, t, n, us) && |m| < |z| && v.id == |m|
    requires us == [] ==> z[n] == m[n].(tried := |m|)
    requires us != [] ==> z[n] == m[n]
    ensures z[n].tried == (us + [v])[0].id
  {
  }

  lemma FoldCopying(m0: Mem, m: Mem, t: Tree, n: int, us: seq<Tree>)
    requires |us| <= |t.kids| && Forward(m, t) && 0 <= n < |m0| <= |m| && (forall b :: b in Ids(t) ==> 0 <= b < |m0|)
             && Touches(m0, m, KidIds(t.kids), n)
    requires forall j :: 0 <= j < |us| ==> Hung(m, t.kids[j], us[j], n, IdAt(us, j - 1)) && Newer(m0, m, us[j])
    requires forall j :: 0 <= j < |us| - 1 ==> 0 <= us[j].id < |m| && m[us[j].id].next == us[j + 1].id
    requires forall i, j :: 0 <= i < j < |us| ==> Ids(us[i]) !! Ids(us[j])
    requires us != [] ==> m[n].tried == us[0].id
    ensures Copying(m0, m, t, n, us)
  {
  }

  lemma NextKept(m0: Mem, m: Mem, z: Mem, t: Tree, n: int, us: seq<Tree>, v: Tree, j: int)
    requires Copying(m0, m, t, n, us) && |us| < |t.kids| && |m| < |z| && v.id == |m| && 0 <= j < |us|
    requires 0 <= us[|us| - 1].id < |m| && z[us[|us| - 1].id] == m[us[|us| - 1].id].(next := |m|)
    requires forall b :: 0 <= b < |m| && b !in Ids(t.kids[|us|]) && b != IdAt(us, |us| - 1) && b != n ==> z[b] == m[b]
    ensures 0 <= us[j].id < |z| && z[us[j].id].next == (us + [v])[j + 1].id
  {
    assert Newer(m0, m, us[j]) && us[j].id in Ids(us[j]);
    KidsApart(t.kids, |us|);
    if j < |us| - 1 {
      assert us[|us| - 1].id in Ids(us[|us| - 1]) && Ids(us[j]) !! Ids(us[|us| - 1]);
      assert forall b :: b in Ids(t.kids[|us|]) ==> b in Ids(t);
      assert m[us[j].id].next == us[j + 1].id;
    }
  }

  /** The end of the list of copies is set. */
  ghost predicate Ended(m: Mem, z: Mem, n: int, us: seq<Tree>) {
    if us == [] then 0 <= n < |m| && z == m[n := m[n].(tried := NIL)]
    else 0 <= us[|us| - 1].id < |m| && z == m[us[|us| - 1].id := m[us[|us| - 1].id].(next := NIL)]
  }

  lemma AllCopied(m0: Mem, m: Mem, z: Mem, t: Tree, n: int, us: seq<Tree>)
    requires Copying(m0, m, t, n, us) && Unique(t) && n !in Ids(t) && |us| == |t.kids| && Ended(m, z, n, us)
    requires Content(m0, t.(id := n))
    ensures Copied(m0, z, t, n, Tree(n, t.load, t.open, t.dead, us))
  {
    hide *;
    var u := Tree(n, t.load, t.open, t.dead, us);
    forall j | 0 <= j < |us|
      ensures Hung(z, t.kids[j], us[j], n, IdAt(us, j - 1)) && Newer(m0, z, us[j])
    {
      HungAtEnd(m0, m, z, t, n, us, j);
    }
    EndForward(m0, m, z, t, n, us);
    EndParts(m0, m, z, t, n, us);
    EndIds(m0, z, us);
    MakeCopied(m0, z, t, n, us);
  }

  lemma HungAtEnd(m0: Mem, m: Mem, z: Mem, t: Tree, n: int, us: seq<Tree>, j: int)
    requires Copying(m0, m, t, n, us) && Unique(t) && n !in Ids(t) && 0 <= j < |us| == |t.kids| && Ended(m, z, n, us)
    ensures Hung(z, t.kids[j], us[j], n, IdAt(us, j - 1)) && Newer(m0, z, us[j])
  {
    hide *;
    var v, k := us[j], t.kids[j];
    HungAt(m0, m, t, n, us, j);
    EndOutside(m0, m, t, n, us, j);
    EndedAt(m, z, n, us);
    KeepsHung(m, z, k, v, n, IdAt(us, j - 1));
    NewerMore(m0, m, z, v);
  }

  /** The last copy is none of the boxes below another, and none of the old
      ones. */
  lemma EndOutside(m0: Mem, m: Mem, t: Tree, n: int, us: seq<Tree>, j: int)
    requires Copying(m0, m, t, n, us) && Unique(t) && n !in Ids(t) && 0 <= j < |us| == |t.kids|
    ensures us[|us| - 1].id !in KidIds(us[j].kids) && us[|us| - 1].id !in Ids(t.kids[j])
  {
    hide *;
    CopyingParts(m0, m, t, n, us);
    HungAt(m0, m, t, n, us, |us| - 1);
    IdsParts(us[|us| - 1]);
    OldKid(m0, m, t, n, us, j);
    if j < |us| - 1 {
      IdsParts(us[j]);
    }
  }

  lemma OldKid(m0: Mem, m: Mem, t: Tree, n: int, us: seq<Tree>, j: int)
    requires Copying(m0, m, t, n, us) && 0 <= j < |t.kids|
    ensures forall b :: b in Ids(t.kids[j]) ==> 0 <= b < |m0|
  {
    CopyingParts(m0, m, t, n, us);
    hide *;
    KidsApart(t.kids, j);
    IdsParts(t);
  }

  lemma EndedAt(m: Mem, z: Mem, n: int, us: seq<Tree>)
    requires Ended(m, z, n, us) && us != []
    ensures var e := us[|us| - 1].id; |m| == |z| && 0 <= e < |m| && z[e] == m[e].(next := -1)
    ensures forall b :: 0 <= b < |m| && b != us[|us| - 1].id ==> z[b] == m[b]
  {
  }

  lemma NewerMore(m0: Mem, m: Mem, z: Mem, u: Tree)
    requires Newer(m0, m, u) && |m| <= |z|
    ensures Newer(m0, z, u)
  {
  }

  /** A hung copy stays hung when nothing below it or below the original changes
      and its own box at most gets another next link. */
  lemma KeepsHung(m: Mem, z: Mem, k: Tree, u: Tree, n: int, prev: int)
    requires Hung(m, k, u, n, prev) && |m| <= |z| && 0 <= u.id < |m|
    requires z[u.id] == m[u.id].(next := z[u.id].next)
    requires forall b :: b in KidIds(u.kids) && 0 <= b < |m| ==> z[b] == m[b]
    requires forall b :: b in Ids(k) && 0 <= b < |m| ==> z[b] == m[b]
    ensures Hung(z, k, u, n, prev)
  {
    IdsParts(k);
    hide Ids, KidIds, SameTree, Unique, Forward, Backward;
    LinkedBelow(m, z, u);
    MarkedKeeps(m, z, k, u);
  }

  lemma EndForward(m0: Mem, m: Mem, z: Mem, t: Tree, n: int, us: seq<Tree>)
    requires Copying(m0, m, t, n, us) && n !in Ids(t) && Ended(m, z, n, us)
    ensures Forward(z, t)
  {
    if us != [] {
      assert Newer(m0, m, us[|us| - 1]) && us[|us| - 1].id in Ids(us[|us| - 1]);
    }
    ForwardKeeps(m, z, t);
  }

  lemma EndParts(m0: Mem, m: Mem, z: Mem, t: Tree, n: int, us: seq<Tree>)
    requires Copying(m0, m, t, n, us) && |us| == |t.kids| && Ended(m, z, n, us) && n !in Ids(t)
             && Content(m0, t.(id := n))
    ensures Touches(m0, z, KidIds(t.kids), n) && Content(z, Tree(n, t.load, t.open, t.dead, us))
            && z[n].tried == IdAt(us, 0)
    ensures forall j :: 0 <= j < |us| ==> 0 <= us[j].id < |z| && z[us[j].id].next == IdAt(us, j + 1)
    ensures forall i, j :: 0 <= i < j < |us| ==> Ids(us[i]) !! Ids(us[j])
    ensures 0 <= n < |m0|
  {
    hide *;
    CopyingParts(m0, m, t, n, us);
    forall j | 0 <= j < |us|
      ensures |m0| <= us[j].id < |m|
    {
      HungAt(m0, m, t, n, us, j);
    }
    forall j | 0 <= j < |us| - 1
      ensures us[j].id != us[|us| - 1].id && m[us[j].id].next == us[j + 1].id
    {
      HungAt(m0, m, t, n, us, j);
      IdsParts(us[j]);
      IdsParts(us[|us| - 1]);
    }
    if us != [] {
      EndedAt(m, z, n, us);
    }
    TouchesEnd(m0, m, z, KidIds(t.kids), n, us);
    NextEnd(m, z, n, us);
    ContentEnd(m0, z, KidIds(t.kids), t, n, us);
    IdsParts(t);
    TriedEnd(m, z, n, us);
  }

  lemma TouchesEnd(m0: Mem, m: Mem, z: Mem, s: set<int>, n: int, us: seq<Tree>)
    requires Touches(m0, m, s, n) && Ended(m, z, n, us) && (us != [] ==> us[|us| - 1].id >= |m0|)
    ensures Touches(m0, z, s, n)
  {
  }

  lemma NextEnd(m: Mem, z: Mem, n: int, us: seq<Tree>)
    requires Ended(m, z, n, us) && forall j :: 0 <= j < |us| ==> 0 <= us[j].id < |m|
    requires forall j :: 0 <= j < |us| - 1 ==> us[j].id != us[|us| - 1].id && m[us[j].id].next == us[j + 1].id
    ensures forall j :: 0 <= j < |us| ==> 0 <= us[j].id < |z| && z[us[j].id].next == IdAt(us, j + 1)
  {
  }

  lemma ContentEnd(m0: Mem, z: Mem, s: set<int>, t: Tree, n: int, us: seq<Tree>)
    requires Touches(m0, z, s, n) && Content(m0, t.(id := n))
    ensures Content(z, Tree(n, t.load, t.open, t.dead, us))
  {
  }

  lemma TriedEnd(m: Mem, z: Mem, n: int, us: seq<Tree>)
    requires Ended(m, z, n, us) && 0 <= n < |m| && (us != [] ==> m[n].tried == us[0].id && n != us[|us| - 1].id)
    ensures |z| == |m| && z[n].tried == IdAt(us, 0)
  {
  }

  lemma EndIds(m0: Mem, z: Mem, us: seq<Tree>)
    requires forall j :: 0 <= j < |us| ==> Newer(m0, z, us[j])
    ensures forall b :: b in KidIds(us) ==> |m0| <= b < |z|
  {
    forall b | b in KidIds(us)
      ensures |m0| <= b < |z|
    {
      InKids(us, b);
      var j :| 0 <= j < |us| && b in Ids(us[j]);
      assert Newer(m0, z, us[j]);
    }
  }

  lemma MakeCopied(m0: Mem, z: Mem, t: Tree, n: int, us: seq<Tree>)
    requires |us| == |t.kids| && Forward(z, t) && Touches(m0, z, KidIds(t.kids), n) && 0 <= n < |m0|
    requires Content(z, Tree(n, t.load, t.open, t.dead, us)) && z[n].tried == IdAt(us, 0)
    requires forall j :: 0 <= j < |us| ==> Hung(z, t.kids[j], us[j], n, IdAt(us, j - 1))
    requires forall j :: 0 <= j < |us| ==> 0 <= us[j].id < |z| && z[us[j].id].next == IdAt(us, j + 1)
    requires forall i, j :: 0 <= i < j < |us| ==> Ids(us[i]) !! Ids(us[j])
    requires forall b :: b in KidIds(us) ==> |m0| <= b < |z|
    ensures Copied(m0, z, t, n, Tree(n, t.load, t.open, t.dead, us))
  {
    hide *;
    var u := Tree(n, t.load, t.open, t.dead, us);
    forall j | 0 <= j < |us|
      ensures SameTree(t.kids[j], us[j]) && Linked(z, us[j]) && Unique(us[j])
    {
      HungIs(z, t.kids[j], us[j], n, IdAt(us, j - 1));
    }
    MakeUnique(us);
    LinkUp(z, u, t);
    FoldCopied(m0, z, t, n, u);
  }

  lemma HungIs(m: Mem, k: Tree, u: Tree, n: int, prev: int)
    requires Hung(m, k, u, n, prev)
    ensures SameTree(k, u) && Linked(m, u) && Unique(u)
  {
  }

  /** The kids hung below a box make a tree. */
  lemma LinkUp(z: Mem, u: Tree, t: Tree)
    requires |u.kids| == |t.kids| && Content(z, u) && z[u.id].tried == IdAt(u.kids, 0)
    requires t.load == u.load && t.open == u.open && t.dead == u.dead
    requires forall j :: 0 <= j < |u.kids| ==> Hung(z, t.kids[j], u.kids[j], u.id, IdAt(u.kids, j - 1))
    requires forall j :: 0 <= j < |u.kids| ==> 0 <= u.kids[j].id < |z| && z[u.kids[j].id].next == IdAt(u.kids, j + 1)
    ensures Linked(z, u) && SameTree(t, u) && Marked(z, t, u)
  {
    forall j | 0 <= j < |u.kids|
      ensures Linked(z, u.kids[j]) && SameTree(t.kids[j], u.kids[j]) && Marked(z, t.kids[j], u.kids[j])
      ensures z[u.kids[j].id].father == u.id && z[u.kids[j].id].previous == IdAt(u.kids, j - 1)
      ensures 0 <= t.kids[j].id < |z| && z[t.kids[j].id].father == NIL && z[t.kids[j].id].previous == u.kids[j].id
    {
      assert Hung(z, t.kids[j], u.kids[j], u.id, IdAt(u.kids, j - 1));
    }
  }

  lemma FoldCopied(m0: Mem, z: Mem, t: Tree, n: int, u: Tree)
    requires u.id == n && SameTree(t, u) && Linked(z, u) && UniqueKids(u.kids) && Forward(z, t) && Marked(z, t, u)
    requires (forall b :: b in KidIds(u.kids) ==> |m0| <= b < |z|) && 0 <= n < |m0|
    requires Touches(m0, z, KidIds(t.kids), n)
    ensures Copied(m0, z, t, n, u)
  {
  }

  class Config {
    var m: Mem

    /** A box that has just been allocated: its words are whatever they were. */
    method NewBox() returns (n: int)
      modifies this
      ensures n == |old(m)| && |m| == |old(m)| + 1 && m[..n] == old(m)
    {
      n := |m|;
      var father, next, previous, tried, load: int := *, *, *, *, *;
      var open, dead: bool := *, *;
      m := m + [Box(father, next, previous, tried, load, open, dead)];
    }

    method SetFather(b: int, x: int)
      requires 0 <= b < |m|
      modifies this
      ensures m == old(m)[b := old(m)[b].(father := x)]
    {
      m := m[b := m[b].(father := x)];
    }

    method SetPrevious(b: int, x: int)
      requires 0 <= b < |m|
      modifies this
      ensures m == old(m)[b := old(m)[b].(previous := x)]
    {
      m := m[b := m[b].(previous := x)];
    }

    method SetNext(b: int, x: int)
      requires 0 <= b < |m|
      modifies this
      ensures m == old(m)[b := old(m)[b].(next := x)]
    {
      m := m[b := m[b].(next := x)];
    }

    method SetTried(b: int, x: int)
      requires 0 <= b < |m|
      modifies this
      ensures m == old(m)[b := old(m)[b].(tried := x)]
    {
      m := m[b := m[b].(tried := x)];
    }

    method SetDead(b: int)
      requires 0 <= b < |m|
      modifies this
      ensures m == old(m)[b := old(m)[b].(dead := true)]
    {
      m := m[b := m[b].(dead := true)];
    }

    /** What is copied of a box besides its links. */
    method CopyContent(a: int, b: int)
      requires 0 <= a < |m| && 0 <= b < |m|
      modifies this
      ensures m == old(m)[b := old(m)[b].(load := old(m)[a].load, open := old(m)[a].open, dead := old(m)[a].dead)]
    {
      m := m[b := m[b].(load := m[a].load, open := m[a].open, dead := m[a].dead)];
    }

    /** A box for the kid k of n, behind prevc; k is marked as copied, and its
        previous link tells the copy. */
    method NewKid(templc: int, n: int, prevc: int) returns (chb: int)
      requires 0 <= templc < |m| && 0 <= n < |m| && templc != n && templc != prevc
               && (prevc != NIL ==> 0 <= prevc < |m| && prevc != n)
      modifies this
      ensures Prepared(old(m), m, templc, n, chb, prevc)
    {
      chb := NewBox();
      SetPrevious(chb, prevc);
      if prevc != NIL {
        SetNext(prevc, chb);
      } else {
        SetTried(n, chb);
      }
      CopyContent(templc, chb);
      SetFather(chb, n);
      SetFather(templc, NIL);
      SetPrevious(templc, chb);
    }

    /** copy_tree: copies everything below the box x below the box n. */
    method CopyTree(x: int, n: int, ghost t: Tree) returns (ghost u: Tree)
      requires t.id == x && Forward(m, t) && Unique(t) && 0 <= n < |m| && n !in Ids(t) && Content(m, t.(id := n))
      modifies this
      ensures Copied(old(m), m, t, n, u)
      decreases t
    {
      hide *;
      ghost var m0 := m;
      ghost var us: seq<Tree> := [];
      var prevc := NIL;
      StartIsCopying(m, t, n);
      var templc := m[x].tried;
      while templc != NIL
        invariant Copying(m0, m, t, n, us) && templc == IdAt(t.kids, |us|) && prevc == IdAt(us, |us| - 1)
        decreases |t.kids| - |us|
      {
        ghost var m1 := m;
        Position(m0, m, t, n, us);
        ghost var k := t.kids[|us|];
        KidsApart(t.kids, |us|);
        IdsParts(t);
        KidIsNot(m0, m, t, n, us);
        var chb := NewKid(templc, n, prevc);
        ghost var m2 := m;
        KidReady(m0, m1, m2, t, n, us);
        ghost var v := CopyTree(templc, chb, k);
        KidCopied(m0, m1, m2, m, t, n, us, v);
        Position(m0, m, t, n, us + [v]);
        KidNext(m0, m, t, n, us, v);
        us := us + [v];
        prevc := chb;
        templc := m[templc].next;
      }
      Position(m0, m, t, n, us);
      ghost var m1 := m;
      if prevc != NIL {
        SetNext(prevc, NIL);
      } else {
        SetTried(n, NIL);
      }
      u := Tree(n, t.load, t.open, t.dead, us);
      FoldEnded(m1, m, n, us, prevc);
      CopyingParts(m0, m1, t, n, us);
      AllCopied(m0, m1, m, t, n, us);
    }

    /** reset_tree: sets the father and previous links of everything below x
        from the other links. */
    method ResetTree(x: int, ghost t: Tree)
      requires t.id == x && Forward(m, t) && Unique(t)
      modifies this
      ensures Forward(m, t) && Backward(m, t) && |m| == |old(m)|
      ensures KeepsForward(old(m), m, KidIds(t.kids))
      ensures forall b :: 0 <= b < |m| && b !in KidIds(t.kids) ==> m[b] == old(m)[b]
      decreases t
    {
      hide *;
      ghost var m0, i := m, 0;
      var prevc := NIL;
      StartResetting(m, t);
      var tempc := m[x].tried;
      while tempc != NIL
        invariant 0 <= i && Resetting(m0, m, t, i) && tempc == IdAt(t.kids, i) && prevc == IdAt(t.kids, i - 1)
        decreases |t.kids| - i
      {
        ghost var m1 := m;
        NextKid(m0, m, t, i);
        ghost var k := t.kids[i];
        SetFather(tempc, x);
        SetPrevious(tempc, prevc);
        prevc := tempc;
        ghost var m2 := m;
        ResetReady(m0, m1, m2, t, i);
        if m[tempc].tried != NIL {
          ResetTree(tempc, k);
        } else {
          Childless(m, k);
        }
        KidReset(m0, m1, m2, m, t, i);
        i := i + 1;
        ResetNext(m0, m, t, i);
        tempc := m[tempc].next;
      }
      NextKid(m0, m, t, i);
      ResettingParts(m0, m, t, i);
      AllReset(m0, m, t, i);
    }
  }

  /** The first i kids of t have their links again. */
  ghost predicate Resetting(m0: Mem, m: Mem, t: Tree, i: int) {
    && i <= |t.kids| && Forward(m, t) && |m| == |m0| && KeepsForward(m0, m, KidIds(t.kids))
    && (forall b :: 0 <= b < |m| && b !in KidIds(t.kids) ==> m[b] == m0[b])
    && (forall j :: 0 <= j < i && j < |t.kids| ==> KidOk(m, t, j) && Backward(m, t.kids[j]))
  }

  lemma StartResetting(m: Mem, t: Tree)
    requires Forward(m, t)
    ensures Resetting(m, m, t, 0) && 0 <= t.id < |m| && m[t.id].tried == IdAt(t.kids, 0) && IdAt(t.kids, -1) == NIL
  {
  }

  lemma NextKid(m0: Mem, m: Mem, t: Tree, i: int)
    requires Resetting(m0, m, t, i) && i >= 0
    ensures IdAt(t.kids, i) != NIL <==> i < |t.kids|
    ensures i < |t.kids| ==> IdAt(t.kids, i) == t.kids[i].id && 0 <= t.kids[i].id < |m|
  {
    if i < |t.kids| {
      ForwardKid(m, t, i);
    }
  }

  lemma ResetReady(m0: Mem, m: Mem, w: Mem, t: Tree, i: int)
    requires Resetting(m0, m, t, i) && 0 <= i < |t.kids| && Unique(t) && 0 <= t.kids[i].id < |m|
    requires w == m[t.kids[i].id := m[t.kids[i].id].(father := t.id, previous := IdAt(t.kids, i - 1))]
    ensures Forward(w, t.kids[i]) && Unique(t.kids[i])
  {
    IdsParts(t);
    KidsApart(t.kids, i);
    ForwardKid(m, t, i);
    hide Ids, KidIds;
    ForwardKeeps(m, w, t.kids[i]);
  }

  lemma Childless(m: Mem, t: Tree)
    requires Forward(m, t) && m[t.id].tried == NIL
    ensures t.kids == [] && Backward(m, t) && KidIds(t.kids) == {} && KeepsForward(m, m, {})
  {
    if t.kids != [] {
      ForwardKid(m, t, 0);
    }
  }

  lemma KidReset(m0: Mem, m: Mem, w: Mem, z: Mem, t: Tree, i: int)
    requires Resetting(m0, m, t, i) && 0 <= i < |t.kids| && Unique(t) && 0 <= t.kids[i].id < |m|
    requires w == m[t.kids[i].id := m[t.kids[i].id].(father := t.id, previous := IdAt(t.kids, i - 1))]
    requires Forward(z, t.kids[i]) && Backward(z, t.kids[i]) && |z| == |w| && KeepsForward(w, z, KidIds(t.kids[i].kids))
    requires forall b :: 0 <= b < |z| && b !in KidIds(t.kids[i].kids) ==> z[b] == w[b]
    ensures Resetting(m0, z, t, i + 1)
  {
    hide *;
    var k := t.kids[i];
    ResettingParts(m0, m, t, i);
    IdsParts(t);
    IdsParts(k);
    KidsApart(t.kids, i);
    ForwardKid(m, t, i);
    forall b | 0 <= b < |m|
      ensures z[b] == m[b].(father := z[b].father, previous := z[b].previous)
      ensures b !in Ids(k) ==> z[b] == m[b]
    {
      KeepsAt(w, z, KidIds(k.kids), b);
    }
    MakeKeeps(m0, m, z, KidIds(t.kids));
    MakeKeeps(m, m, z, Ids(t));
    ForwardKeeps(m, z, t);
    forall j | 0 <= j < i
      ensures KidOk(z, t, j) && Backward(z, t.kids[j])
    {
      KidsApart(t.kids, j);
      IdsParts(t.kids[j]);
      ForwardKid(m, t, j);
      KidOkKeeps(m, z, t, j);
      KeepsFrom(m, z, KidIds(t.kids[j].kids));
      BackwardKeeps(m, z, t.kids[j]);
    }
    NewKidOk(m, z, t, i);
    FoldResetting(m0, z, t, i + 1);
  }

  lemma ResettingParts(m0: Mem, m: Mem, t: Tree, i: int)
    requires Resetting(m0, m, t, i)
    ensures i <= |t.kids| && Forward(m, t) && |m| == |m0| && KeepsForward(m0, m, KidIds(t.kids))
    ensures forall b :: 0 <= b < |m| && b !in KidIds(t.kids) ==> m[b] == m0[b]
    ensures forall j :: 0 <= j < i && j < |t.kids| ==> KidOk(m, t, j) && Backward(m, t.kids[j])
  {
  }

  lemma KeepsAt(m: Mem, w: Mem, s: set<int>, b: int)
    requires KeepsForward(m, w, s) && 0 <= b < |m|
    ensures |m| <= |w| && (b in s ==> w[b] == m[b].(father := w[b].father, previous := w[b].previous))
  {
  }

  lemma KeepsFrom(m: Mem, w: Mem, s: set<int>)
    requires |m| <= |w| && forall b :: b in s && 0 <= b < |m| ==> w[b] == m[b]
    ensures Keeps(m, w, s)
  {
  }

  lemma MakeKeeps(m0: Mem, m: Mem, z: Mem, s: set<int>)
    requires |z| == |m| && (m0 == m || KeepsForward(m0, m, s))
    requires forall b :: 0 <= b < |m| ==> z[b] == m[b].(father := z[b].father, previous := z[b].previous)
    ensures KeepsForward(m0, z, s)
  {
  }

  lemma KidOkKeeps(m: Mem, z: Mem, t: Tree, j: int)
    requires 0 <= j < |t.kids| && KidOk(m, t, j) && |z| == |m| && z[t.kids[j].id] == m[t.kids[j].id]
    ensures KidOk(z, t, j)
  {
  }

  lemma NewKidOk(m: Mem, z: Mem, t: Tree, i: int)
    requires 0 <= i < |t.kids| && 0 <= t.kids[i].id < |z| == |m|
    requires z[t.kids[i].id] == m[t.kids[i].id].(father := t.id, previous := IdAt(t.kids, i - 1))
    requires m[t.kids[i].id].next == IdAt(t.kids, i + 1)
    ensures KidOk(z, t, i)
  {
  }

  lemma FoldResetting(m0: Mem, m: Mem, t: Tree, i: int)
    requires i <= |t.kids| && Forward(m, t) && |m| == |m0| && KeepsForward(m0, m, KidIds(t.kids))
    requires forall b :: 0 <= b < |m| && b !in KidIds(t.kids) ==> m[b] == m0[b]
    requires forall j :: 0 <= j < i && j < |t.kids| ==> KidOk(m, t, j) && Backward(m, t.kids[j])
    ensures Resetting(m0, m, t, i)
  {
  }

  lemma ResetNext(m0: Mem, m: Mem, t: Tree, i: int)
    requires Resetting(m0, m, t, i) && 0 < i <= |t.kids|
    ensures 0 <= t.kids[i - 1].id < |m| && m[t.kids[i - 1].id].next == IdAt(t.kids, i)
            && t.kids[i - 1].id == IdAt(t.kids, i - 1)
  {
    ForwardKid(m, t, i - 1);
  }

  lemma AllReset(m0: Mem, m: Mem, t: Tree, i: int)
    requires Resetting(m0, m, t, i) && i == |t.kids|
    ensures Forward(m, t) && Backward(m, t) && |m| == |m0| && KeepsForward(m0, m, KidIds(t.kids))
    ensures forall b :: 0 <= b < |m| && b !in KidIds(t.kids) ==> m[b] == m0[b]
  {
    hide Forward, Ids, KidIds;
    forall j | 0 <= j < |t.kids|
      ensures KidOk(m, t, j) && Backward(m, t.kids[j])
    {
    }
  }

  lemma KidIsNot(m0: Mem, m: Mem, t: Tree, n: int, us: seq<Tree>)
    requires Copying(m0, m, t, n, us) && Unique(t) && n !in Ids(t) && |us| < |t.kids|
    ensures var k, prev := t.kids[|us|].id, IdAt(us, |us| - 1);
            0 <= k < |m| && k != n && k != prev && 0 <= n < |m| && (prev != NIL ==> 0 <= prev < |m| && prev != n)
  {
    Position(m0, m, t, n, us);
    if us != [] {
      HungAt(m0, m, t, n, us, |us| - 1);
    }
  }

  lemma KidNext(m0: Mem, m: Mem, t: Tree, n: int, us: seq<Tree>, v: Tree)
    requires Copying(m0, m, t, n, us + [v]) && |us| < |t.kids|
    ensures 0 <= t.kids[|us|].id < |m| && m[t.kids[|us|].id].next == IdAt(t.kids, |us + [v]|)
    ensures IdAt(us + [v], |us|) == v.id
  {
    ForwardKid(m, t, |us|);
  }

  lemma FoldEnded(m: Mem, z: Mem, n: int, us: seq<Tree>, prev: int)
    requires prev == IdAt(us, |us| - 1) && (us != [] ==> 0 <= us[|us| - 1].id < |m|) && 0 <= n < |m|
    requires prev != NIL ==> 0 <= prev < |m| && z == m[prev := m[prev].(next := NIL)]
    requires prev == NIL ==> z == m[n := m[n].(tried := NIL)]
    ensures Ended(m, z, n, us)
  {
  }
}
