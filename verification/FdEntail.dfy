/** Entailment: an indexical that is found to hold for every assignment left is
    marked, so that it is not run again and a constraint can tell it is true. */
module FdEntail {
  import opened FdWords
  import opened FdExpr
  import opened FdMono
  import opened FdDeps
  import opened FdProblem
  import opened FdFixpoint

  /** Run in this box, the indexical is to be marked: its range cannot shrink,
      and either cannot grow any more or has the whole domain in it. */
  ghost predicate Due(f: Indexical, box: Box) {
    && AllSingle(f.amon, box) && Dom1(box, f.d) != {}
    && (AllSingle(f.mon, box) || Settled(f, box))
  }

  /** What running f once leaves behind. */
  ghost predicate Recorded(p: Problem, s: Pass, f: int, r: Pass)
    requires 0 <= f < |p.fs|
  {
    && r.ran == s.ran[f := s.box] && |r.ent| == |s.ent|
    && (forall e :: 0 <= e < |s.ent| && s.ent[e] ==> r.ent[e])
    && (Due(p.fs[f], s.box) ==> Entailed(p, r, f))
  }

  /** Two passes that agree on what has been run and marked. */
  ghost predicate SameRun(s: Pass, r: Pass) {
    r.ran == s.ran && r.ent == s.ent
  }

  lemma SameRunSelf(s: Pass)
    ensures SameRun(s, s)
  {
  }

  lemma NarrowedRun(s: Pass, y: int, t: set<int>)
    requires 0 <= y < |s.box| && y < |s.change| && y < |s.time|
    ensures SameRun(s, Narrowed(s, y, t))
  {
  }

  /** f was not due: its range may still shrink, or it may still grow and does
      not contain the domain. */
  lemma NotDue(p: Problem, s: Pass, f: int, r: Pass)
    requires 0 <= f < |p.fs| && f < |s.last| && SameRun(Ran(s, f), r) && !Due(p.fs[f], s.box)
    ensures Recorded(p, s, f, r)
  {
    hide Due;
  }

  lemma MarkedRecords(p: Problem, s: Pass, f: int, r: Pass)
    requires 0 <= f < |p.fs| && f < |s.last| && SameRun(Ran(s, f), r) && 0 <= p.fs[f].ent < |r.ent|
    ensures Recorded(p, s, f, WithEntailed(r, p.fs[f].ent))
  {
    hide Due;
  }

  /** If g was due when it was last run, in a part of the box b, it is marked,
      unless it was due in b to begin with. */
  ghost predicate Told(p: Problem, b: Box, s: Pass, g: int)
    requires 0 <= g < |p.fs|
  {
    g in s.ran && Narrows(b, s.ran[g]) && (Due(p.fs[g], s.ran[g]) && !Due(p.fs[g], b) ==> Entailed(p, s, g))
  }

  /** Between s and r no mark was missed. */
  ghost predicate Tells(p: Problem, s: Pass, r: Pass) {
    forall b, g :: 0 <= g < |p.fs| && Narrows(b, s.box) && Told(p, b, s, g) ==> Told(p, b, r, g)
  }

  lemma SameTells(p: Problem, s: Pass, r: Pass)
    requires r.ran == s.ran && r.ent == s.ent
    ensures Tells(p, s, r)
  {
    hide Due, Narrows;
  }

  lemma RecordedTells(p: Problem, s: Pass, f: int, r: Pass)
    requires 0 <= f < |p.fs| && Recorded(p, s, f, r)
    ensures Tells(p, s, r)
  {
    hide Due, Narrows;
  }

  lemma TellsTwice(p: Problem, s: Pass, t: Pass, r: Pass)
    requires Tells(p, s, t) && Tells(p, t, r) && Narrows(s.box, t.box)
    ensures Tells(p, s, r)
  {
    hide Told, Narrows;
    forall b, g | 0 <= g < |p.fs| && Narrows(b, s.box) && Told(p, b, s, g)
      ensures Told(p, b, r, g)
    {
      NarrowsTwice(b, s.box, t.box);
      assert Told(p, b, t, g);
    }
  }

  /** g, not due in the box b, has come to be: everything that keeps its range
      from growing only was watched in b and is determined now, and either all
      that keeps it from shrinking only is determined too, or it is an ask whose
      range has come to contain what was the domain in b. */
  ghost predicate Come(p: Problem, b: Box, box: Box, g: int)
    requires InShape(p) && 0 <= g < |p.fs| && |b| == p.n
  {
    && !Due(p.fs[g], b) && AmonWatched(p, g, b)
    && AllSingle(p.fs[g].amon, box) && Dom1(box, p.fs[g].d) != {}
    && (AllSingle(p.fs[g].mon, box) || (!p.fs[g].tell && Dom1(b, p.fs[g].d) <= Range1(p.fs[g], box)))
  }

  /** At rest every indexical that has come to be due is marked. */
  lemma EntailmentReached(p: Problem, b: Box, s: Pass, g: int)
    requires Invariant(p, s) && s.q == [] && 0 <= g < |p.fs| && |b| == p.n
    requires Told(p, b, s, g) && Come(p, b, s.box, g)
    ensures Entailed(p, s, g)
  {
    var f := p.fs[g];
    assert Heeded(p, s, g) && IndexicalInShape(p, f);
    assert forall k, i :: !Wakes(p, s, k, i, g);
    WatchNarrows(p, g, f.amon, b, s.ran[g]);
    hide Invariant, InForm, InShape, Settled, Range1, ListWatched, Single, Unseen;
    if !Entailed(p, s, g) {
      assert Unseen(f, s.ran[g], s.box);
      UnseenDue(p, b, s.ran[g], s.box, g);
    }
  }

  /** What an indexical that has seen everything was due for. */
  lemma UnseenDue(p: Problem, b: Box, was: Box, box: Box, g: int)
    requires InShape(p) && 0 <= g < |p.fs| && |b| == p.n && Narrows(b, was) && Narrows(was, box)
    requires Come(p, b, box, g) && Unseen(p.fs[g], was, box)
    ensures Due(p.fs[g], was)
  {
    var f := p.fs[g];
    assert IndexicalInShape(p, f);
    RangeSame(f, was, box);
    hide AmonWatched, Unseen, Range1;
    if AllSingle(f.mon, box) {
      UnseenSingle(f, was, box, f.mon);
    }
    UnseenSingle(f, was, box, f.amon);
    assert box[f.d] <= was[f.d] <= b[f.d];
  }

  lemma RangeSame(f: Indexical, was: Box, box: Box)
    requires Unseen(f, was, box)
    ensures Range1(f, was) == Range1(f, box)
  {
    assert |ArgsOf(f, was)| == |f.args|;
    ClassesAdequate(f.e, ArgsOf(f, was), ArgsOf(f, box));
  }

  lemma UnseenSingle(f: Indexical, was: Box, box: Box, vs: seq<int>)
    requires Unseen(f, was, box) && (vs == f.mon || vs == f.amon) && AllSingle(vs, box)
    ensures AllSingle(vs, was)
  {
    hide Single, SameViews;
  }

  /** A pass that starts afresh has nothing to make up for. */
  lemma AfreshTold(p: Problem, s: Pass, g: int)
    requires 0 <= g < |p.fs|
    ensures Told(p, s.box, Afresh(p, s), g)
  {
    SelfNarrows(s.box);
    hide Due, Narrows;
  }
}
