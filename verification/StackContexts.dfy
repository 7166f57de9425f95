/** The three stacks of an execution state when boxes have been copied: a copied
    box has lost its father, and its previous link leads to the copy. */
module StackContexts {
  import opened SplitTree
  import opened StackSegments

  datatype Task = Promote(andb: int) | SplitOff(andb: int) | Root(code: int) | Start(code: int)

  /** The copy of a box, if it has been copied. */
  function CopyOf(m: Mem, b: int): Option<int> {
    if 0 <= b < |m| && m[b].father == NIL then Some(m[b].previous) else None
  }

  function TaskCopy(m: Mem, t: Task): Option<Task> {
    match t
    case Promote(a) => (match CopyOf(m, a) case None => None case Some(c) => Some(Promote(c)))
    case SplitOff(a) => (match CopyOf(m, a) case None => None case Some(c) => Some(SplitOff(c)))
    case Root(_) => Some(t)
    case Start(_) => Some(t)
  }

  // ------------------------------------------------ what is kept, and as what

  /** The box has been copied. */
  predicate Copied(m: Mem, b: int) {
    0 <= b < |m| && m[b].father == NIL
  }

  /** A task is dropped just when it is for a box that was not copied. */
  predicate Stays(m: Mem, t: Task) {
    t.Root? || t.Start? || Copied(m, t.andb)
  }

  /** u is the task t, for the copy of its box. */
  predicate SameTask(m: Mem, t: Task, u: Task) {
    && (t.Promote? <==> u.Promote?) && (t.SplitOff? <==> u.SplitOff?) && (t.Root? <==> u.Root?)
    && (if t.Root? || t.Start? then u.Start? == t.Start? && u.code == t.code
        else Copied(m, t.andb) && u.andb == m[t.andb].previous)
  }

  lemma TaskCopied(m: Mem, t: Task, u: Task)
    ensures TaskCopy(m, t) == Some(u) <==> SameTask(m, t, u)
    ensures TaskCopy(m, t).Some? <==> Stays(m, t)
  {
  }

  predicate SameBox(m: Mem, b: int, c: int) {
    Copied(m, b) && c == m[b].previous
  }

  lemma BoxCopied(m: Mem, b: int, c: int)
    ensures CopyOf(m, b) == Some(c) <==> SameBox(m, b, c)
    ensures CopyOf(m, b).Some? <==> Copied(m, b)
  {
  }

  /** The tasks that stay, in their order, each the same task for the copy. */
  ghost predicate TasksKept(m: Mem, s: seq<Task>, r: seq<Task>) {
    exists at :: TasksAt(m, s, r, at)
  }

  ghost predicate TasksAt(m: Mem, s: seq<Task>, r: seq<Task>, at: seq<nat>) {
    && Climbs(at) && |at| == |r|
    && (forall i :: 0 <= i < |at| ==> at[i] < |s| && SameTask(m, s[at[i]], r[i]))
    && (forall j :: 0 <= j < |s| && Stays(m, s[j]) ==> j in at)
  }

  /** The entries for copied boxes, in their order, each with the copy. */
  ghost predicate BoxesKept(m: Mem, s: seq<int>, r: seq<int>) {
    exists at :: BoxesAt(m, s, r, at)
  }

  ghost predicate BoxesAt(m: Mem, s: seq<int>, r: seq<int>, at: seq<nat>) {
    && Climbs(at) && |at| == |r|
    && (forall i :: 0 <= i < |at| ==> at[i] < |s| && SameBox(m, s[at[i]], r[i]))
    && (forall j :: 0 <= j < |s| && Copied(m, s[j]) ==> j in at)
  }

  lemma KeptTasks(m: Mem, s: seq<Task>)
    ensures TasksKept(m, s, Kept(t => TaskCopy(m, t), s))
  {
    var f := (t: Task) => TaskCopy(m, t);
    KeptPlaces(f, s);
    hide Kept, SameTask, TaskCopy, Stays;
    var at: seq<nat> :| KeptBy(f, s, Kept(f, s), at);
    forall i | 0 <= i < |at|
      ensures SameTask(m, s[at[i]], Kept(f, s)[i])
    {
      TaskCopied(m, s[at[i]], Kept(f, s)[i]);
    }
    forall j | 0 <= j < |s| && Stays(m, s[j])
      ensures j in at
    {
      TaskCopied(m, s[j], s[j]);
    }
    assert TasksAt(m, s, Kept(f, s), at);
  }

  lemma KeptBoxes(m: Mem, s: seq<int>)
    ensures BoxesKept(m, s, Kept(b => CopyOf(m, b), s))
  {
    var f := (b: int) => CopyOf(m, b);
    KeptPlaces(f, s);
    hide Kept, SameBox, CopyOf, Copied;
    var at: seq<nat> :| KeptBy(f, s, Kept(f, s), at);
    forall i | 0 <= i < |at|
      ensures SameBox(m, s[at[i]], Kept(f, s)[i])
    {
      BoxCopied(m, s[at[i]], Kept(f, s)[i]);
    }
    forall j | 0 <= j < |s| && Copied(m, s[j])
      ensures j in at
    {
      BoxCopied(m, s[j], s[j]);
    }
    assert BoxesAt(m, s, Kept(f, s), at);
  }

  class Exstate {
    var recall: Stack<int>
    var wake: Stack<int>
    var task: Stack<Task>

    ghost predicate Valid()
      reads this, recall, wake, task
    {
      && recall.Valid() && wake.Valid() && task.Valid() && recall != wake && recall.entry != wake.entry
      && |recall.bounds| == |wake.bounds| == |task.bounds|
    }

    constructor (size: nat)
      requires size > 0
      ensures Valid() && recall.Segs() == [[]] && wake.Segs() == [[]] && task.Segs() == [[]]
    {
      recall := new Stack<int>(size);
      wake := new Stack<int>(size);
      task := new Stack<Task>(size);
    }

    /** gc_context: in every context the entries for boxes that were not copied
        are gone, the others name the copies, in their order. */
    method GcContext(m: Mem)
      requires Valid()
      modifies recall, wake, task, recall.entry, wake.entry, task.entry
      ensures Valid() && |recall.bounds| == old(|recall.bounds|)
      ensures forall k :: 0 <= k <= |recall.bounds| ==>
                recall.Segs()[k] == Kept(b => CopyOf(m, b), old(recall.Segs())[k])
      ensures forall k :: 0 <= k <= |wake.bounds| ==>
                wake.Segs()[k] == Kept(b => CopyOf(m, b), old(wake.Segs())[k])
      ensures forall k :: 0 <= k <= |task.bounds| ==>
                task.Segs()[k] == Kept(t => TaskCopy(m, t), old(task.Segs())[k])
      ensures forall k :: 0 <= k <= |recall.bounds| ==> BoxesKept(m, old(recall.Segs())[k], recall.Segs()[k])
      ensures forall k :: 0 <= k <= |wake.bounds| ==> BoxesKept(m, old(wake.Segs())[k], wake.Segs()[k])
      ensures forall k :: 0 <= k <= |task.bounds| ==> TasksKept(m, old(task.Segs())[k], task.Segs()[k])
    {
      hide Kept, CopyOf, TaskCopy, Segments, BoxesKept, TasksKept;
      ghost var r, w, t := recall.Segs(), wake.Segs(), task.Segs();
      recall.GcContext(b => CopyOf(m, b));
      wake.GcContext(b => CopyOf(m, b));
      task.GcContext(t => TaskCopy(m, t));
      forall k | 0 <= k <= |recall.bounds|
        ensures BoxesKept(m, r[k], recall.Segs()[k]) && BoxesKept(m, w[k], wake.Segs()[k])
        ensures TasksKept(m, t[k], task.Segs()[k])
      {
        KeptBoxes(m, r[k]);
        KeptBoxes(m, w[k]);
        KeptTasks(m, t[k]);
      }
    }
  }
}
