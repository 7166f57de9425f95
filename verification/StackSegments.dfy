/** The stacks of the execution state. Every context marks where its segment of a
    stack begins; the last segment ends at the top. */
module StackSegments {

  datatype Option<T> = None | Some(value: T)

  /** Where segment k begins; segment 0 lies below the first context. */
  function BaseOf(bounds: seq<nat>, top: nat, k: nat): nat {
    if k == 0 then 0 else if k <= |bounds| then bounds[k - 1] else top
  }

  predicate Rising(bounds: seq<nat>, top: nat) {
    forall k :: 0 <= k <= |bounds| ==> BaseOf(bounds, top, k) <= BaseOf(bounds, top, k + 1)
  }

  function Segment<T>(e: seq<T>, bounds: seq<nat>, top: nat, k: nat): seq<T>
    requires Rising(bounds, top) && top <= |e| && k <= |bounds|
  {
    RisingTo(bounds, top, k);
    e[BaseOf(bounds, top, k)..BaseOf(bounds, top, k + 1)]
  }

  lemma {:induction false} RisingFrom(bounds: seq<nat>, top: nat, j: nat, k: nat)
    requires Rising(bounds, top) && j <= k <= |bounds| + 1
    ensures BaseOf(bounds, top, j) <= BaseOf(bounds, top, k)
    decreases k - j
  {
    if j < k {
      RisingFrom(bounds, top, j, k - 1);
      var l := k - 1;
      assert BaseOf(bounds, top, l) <= BaseOf(bounds, top, l + 1);
    }
  }

  lemma RisingTo(bounds: seq<nat>, top: nat, k: nat)
    requires Rising(bounds, top) && k <= |bounds|
    ensures BaseOf(bounds, top, k) <= BaseOf(bounds, top, k + 1) <= top
  {
    RisingFrom(bounds, top, k + 1, |bounds| + 1);
  }

  /** A filter that forwards what it keeps. */
  function Kept<T>(f: T -> Option<T>, s: seq<T>): (r: seq<T>)
    ensures |r| <= |s|
    decreases |s|
  {
    if s == [] then []
    else
      var r := Kept(f, s[..|s| - 1]);
      match f(s[|s| - 1])
      case None => r
      case Some(y) => r + [y]
  }

  lemma KeptMore<T>(f: T -> Option<T>, s: seq<T>, x: T)
    ensures Kept(f, s + [x]) == match f(x) case None => Kept(f, s) case Some(y) => Kept(f, s) + [y]
  {
    assert (s + [x])[..|s|] == s;
  }

  predicate Climbs(at: seq<nat>) {
    forall i, j :: 0 <= i < j < |at| ==> at[i] < at[j]
  }

  /** r is s without the entries that f drops, each of the others as f makes it;
      at are their places. */
  predicate KeptBy<T(==)>(f: T -> Option<T>, s: seq<T>, r: seq<T>, at: seq<nat>) {
    && Climbs(at) && |at| == |r|
    && (forall i :: 0 <= i < |at| ==> at[i] < |s| && f(s[at[i]]) == Some(r[i]))
    && (forall j :: 0 <= j < |s| && f(s[j]).Some? ==> j in at)
  }

  lemma PlaceMore<T>(f: T -> Option<T>, s: seq<T>, r: seq<T>, at: seq<nat>)
    requires s != [] && KeptBy(f, s[..|s| - 1], r, at)
    ensures match f(s[|s| - 1])
            case None => KeptBy(f, s, r, at)
            case Some(y) => KeptBy(f, s, r + [y], at + [|s| - 1])
  {
    var n := |s| - 1;
    forall j | 0 <= j < n && f(s[j]).Some?
      ensures j in at
    {
      assert s[..n][j] == s[j];
    }
    assert forall i :: 0 <= i < |at| ==> at[i] < n && s[..n][at[i]] == s[at[i]];
    if f(s[n]).Some? {
      var more := at + [n];
      assert more[|at|] == n;
      forall j | 0 <= j < |s| && f(s[j]).Some?
        ensures j in more
      {
      }
    }
  }

  lemma {:induction false} KeptPlaces<T>(f: T -> Option<T>, s: seq<T>)
    ensures exists at :: KeptBy(f, s, Kept(f, s), at)
    decreases |s|
  {
    if s == [] {
      assert KeptBy(f, s, Kept(f, s), []);
    } else {
      var n := |s| - 1;
      KeptPlaces(f, s[..n]);
      var at: seq<nat> :| KeptBy(f, s[..n], Kept(f, s[..n]), at);
      PlaceMore(f, s, Kept(f, s[..n]), at);
      match f(s[n])
      case None => assert KeptBy(f, s, Kept(f, s), at);
      case Some(y) => assert KeptBy(f, s, Kept(f, s), at + [n]);
    }
  }

  function Segments<T>(e: seq<T>, bounds: seq<nat>, top: nat): (r: seq<seq<T>>)
    requires Rising(bounds, top) && top <= |e|
    ensures |r| == |bounds| + 1
  {
    seq(|bounds| + 1, k requires 0 <= k <= |bounds| => Segment(e, bounds, top, k))
  }

  /** Segments depend on the entries below the top only. */
  lemma SegmentsKeep<T>(e: seq<T>, w: seq<T>, bounds: seq<nat>, top: nat)
    requires Rising(bounds, top) && top <= |e| && top <= |w| && e[..top] == w[..top]
    ensures Segments(w, bounds, top) == Segments(e, bounds, top)
  {
    forall k | 0 <= k <= |bounds|
      ensures Segment(w, bounds, top, k) == Segment(e, bounds, top, k)
    {
      RisingTo(bounds, top, k);
      var lo, hi := BaseOf(bounds, top, k), BaseOf(bounds, top, k + 1);
      assert w[lo..hi] == w[..top][lo..hi] && e[lo..hi] == e[..top][lo..hi];
    }
  }

  /** The marks after i slots have been opened where segment n begins. */
  function Moved(bounds: seq<nat>, i: nat, n: nat): (r: seq<nat>)
    ensures |r| == |bounds|
  {
    seq(|bounds|, k requires 0 <= k < |bounds| => if k < n then bounds[k] else bounds[k] + i)
  }

  lemma MovedBase(bounds: seq<nat>, top: nat, i: nat, n: nat, k: nat)
    requires 1 <= n <= |bounds| && k <= |bounds| + 1
    ensures BaseOf(Moved(bounds, i, n), top + i, k) == BaseOf(bounds, top, k) + if k > n then i else 0
  {
  }

  lemma MovedRises(bounds: seq<nat>, top: nat, i: nat, n: nat)
    requires Rising(bounds, top) && 1 <= n <= |bounds|
    ensures Rising(Moved(bounds, i, n), top + i)
  {
    var more, high := Moved(bounds, i, n), top + i;
    forall k | 0 <= k <= |bounds|
      ensures BaseOf(more, high, k) <= BaseOf(more, high, k + 1)
    {
      MovedBase(bounds, top, i, n, k);
      MovedBase(bounds, top, i, n, k + 1);
      assert BaseOf(bounds, top, k) <= BaseOf(bounds, top, k + 1);
    }
  }

  predicate SameBelow<T(==)>(e: seq<T>, w: seq<T>, b: nat) {
    b <= |e| && b <= |w| && forall k :: 0 <= k < b ==> w[k] == e[k]
  }

  /** The entries from b up to the top stand i places higher. */
  predicate MovedUp<T(==)>(e: seq<T>, w: seq<T>, b: nat, top: nat, i: nat) {
    top <= |e| && top + i <= |w| && forall k :: b <= k < top ==> e[k] == w[k + i]
  }

  lemma SameSlice<T>(e: seq<T>, w: seq<T>, b: nat, lo: nat, hi: nat)
    requires lo <= hi <= b && SameBelow(e, w, b)
    ensures w[lo..hi] == e[lo..hi]
  {
  }

  lemma MovedSlice<T>(e: seq<T>, w: seq<T>, b: nat, top: nat, i: nat, lo: nat, hi: nat)
    requires b <= lo <= hi <= top && MovedUp(e, w, b, top, i)
    ensures w[lo + i..hi + i] == e[lo..hi]
  {
    var x, y := w[lo + i..hi + i], e[lo..hi];
    forall m | 0 <= m < hi - lo
      ensures x[m] == y[m]
    {
      assert y[m] == e[lo + m] && x[m] == w[lo + i + m];
      var k := lo + m;
      assert e[k] == w[k + i];
    }
  }

  lemma SegmentMoved<T>(e: seq<T>, w: seq<T>, bounds: seq<nat>, top: nat, i: nat, n: nat, b: nat, k: nat)
    requires Rising(bounds, top) && top <= |e| && 1 <= n <= |bounds| && b == bounds[n - 1] <= top && top + i <= |w|
    requires SameBelow(e, w, b) && MovedUp(e, w, b, top, i) && k <= |bounds|
    requires Rising(Moved(bounds, i, n), top + i)
    ensures Segment(w, Moved(bounds, i, n), top + i, k) ==
            if k == n then w[b..b + i] + Segment(e, bounds, top, k) else Segment(e, bounds, top, k)
  {
    MovedBase(bounds, top, i, n, k);
    MovedBase(bounds, top, i, n, k + 1);
    RisingTo(bounds, top, k);
    var lo, hi := BaseOf(bounds, top, k), BaseOf(bounds, top, k + 1);
    if k < n {
      RisingFrom(bounds, top, k + 1, n);
      SameSlice(e, w, b, lo, hi);
    } else {
      RisingFrom(bounds, top, n, k);
      MovedSlice(e, w, b, top, i, lo, hi);
      if k == n {
        assert w[b..hi + i] == w[b..b + i] + w[b + i..hi + i];
      }
    }
  }

  /** The entries from b on, where segment n begins, have moved up by i. */
  lemma SegmentsMoved<T>(e: seq<T>, w: seq<T>, bounds: seq<nat>, top: nat, i: nat, n: nat, b: nat)
    requires Rising(bounds, top) && top <= |e| && 1 <= n <= |bounds| && b == bounds[n - 1] <= top && top + i <= |w|
    requires SameBelow(e, w, b) && MovedUp(e, w, b, top, i)
    ensures Rising(Moved(bounds, i, n), top + i)
    ensures Segments(w, Moved(bounds, i, n), top + i) ==
            Segments(e, bounds, top)[n := w[b..b + i] + Segments(e, bounds, top)[n]]
  {
    MovedRises(bounds, top, i, n);
    hide *;
    var more, high := Moved(bounds, i, n), top + i;
    var x, y := Segments(w, more, high), Segments(e, bounds, top);
    forall k: nat | k <= |bounds|
      ensures x[k] == y[n := w[b..b + i] + y[n]][k]
    {
      SegmentMoved(e, w, bounds, top, i, n, b, k);
      SegmentAt(w, more, high, k);
      SegmentAt(e, bounds, top, k);
    }
    assert x == y[n := w[b..b + i] + y[n]];
  }

  /** Writing into the slots opened for segment n. */
  lemma Refilled<T>(e: seq<T>, w: seq<T>, bounds: seq<nat>, top: nat, n: nat, b: nat, i: nat, segs: seq<seq<T>>)
    requires Rising(bounds, top) && top <= |e| == |w| && 1 <= n <= |bounds| && b == bounds[n - 1] && b + i <= top
    requires SameBelow(e, w, b) && MovedUp(e, w, b + i, top, 0) && |segs| == |bounds| + 1
    requires Segments(e, bounds, top) == segs[n := e[b..b + i] + segs[n]]
    ensures Segments(w, bounds, top) == segs[n := w[b..b + i] + segs[n]]
  {
    hide *;
    var x := Segments(w, bounds, top);
    forall k: nat | k <= |bounds|
      ensures x[k] == segs[n := w[b..b + i] + segs[n]][k]
    {
      RefilledAt(e, w, bounds, top, n, b, i, segs, k);
      SegmentAt(w, bounds, top, k);
    }
    assert x == segs[n := w[b..b + i] + segs[n]];
  }

  lemma RefilledAt<T>(e: seq<T>, w: seq<T>, bounds: seq<nat>, top: nat, n: nat, b: nat, i: nat, segs: seq<seq<T>>,
    k: nat)
    requires Rising(bounds, top) && top <= |e| == |w| && 1 <= n <= |bounds| && b == bounds[n - 1] && b + i <= top
    requires SameBelow(e, w, b) && MovedUp(e, w, b + i, top, 0) && |segs| == |bounds| + 1 && k <= |bounds|
    requires Segments(e, bounds, top) == segs[n := e[b..b + i] + segs[n]]
    ensures Segment(w, bounds, top, k) == if k == n then w[b..b + i] + segs[n] else segs[k]
  {
    RisingTo(bounds, top, k);
    var lo, hi := BaseOf(bounds, top, k), BaseOf(bounds, top, k + 1);
    assert Segments(e, bounds, top)[k] == e[lo..hi];
    if k < n {
      RisingFrom(bounds, top, k + 1, n);
      SameSlice(e, w, b, lo, hi);
    } else if k == n {
      assert e[lo..hi] == e[b..b + i] + segs[n] && |e[lo..hi]| == hi - lo && |e[b..b + i]| == i;
      SliceParts(e, b, b + i, hi);
      SliceParts(w, b, b + i, hi);
      MovedSlice(e, w, b + i, top, 0, b + i, hi);
    } else {
      RisingTo(bounds, top, n);
      RisingFrom(bounds, top, n + 1, k);
      var next := BaseOf(bounds, top, n + 1);
      assert Segments(e, bounds, top)[n] == e[b..next] == e[b..b + i] + segs[n];
      assert |e[b..next]| == next - b && |e[b..b + i]| == i;
      MovedSlice(e, w, b + i, top, 0, lo, hi);
    }
  }

  lemma MarkBelow(bounds: seq<nat>, top: nat, n: nat)
    requires Rising(bounds, top) && 1 <= n <= |bounds|
    ensures bounds[n - 1] <= top
  {
    RisingTo(bounds, top, n - 1);
  }

  lemma SameMark(bounds: seq<nat>, top: nat, i: nat, n: nat)
    requires 1 <= n <= |bounds|
    ensures Moved(bounds, i, n)[n - 1] == bounds[n - 1]
  {
  }

  lemma SliceParts<T>(e: seq<T>, lo: nat, mid: nat, hi: nat)
    requires lo <= mid <= hi <= |e|
    ensures e[lo..hi] == e[lo..mid] + e[mid..hi]
    ensures forall s: seq<T> :: e[lo..hi] == e[lo..mid] + s ==> s == e[mid..hi]
  {
    forall s: seq<T> | e[lo..hi] == e[lo..mid] + s
      ensures s == e[mid..hi]
    {
      assert s == (e[lo..mid] + s)[mid - lo..];
      assert e[mid..hi] == (e[lo..mid] + e[mid..hi])[mid - lo..];
    }
  }

  function Reversed<T>(s: seq<T>): (r: seq<T>)
    ensures |r| == |s|
  {
    if s == [] then [] else [s[|s| - 1]] + Reversed(s[..|s| - 1])
  }

  lemma {:induction false} ReversedAt<T>(s: seq<T>, k: nat)
    requires k < |s|
    ensures Reversed(s)[k] == s[|s| - 1 - k]
    decreases |s|
  {
    if k > 0 {
      ReversedAt(s[..|s| - 1], k - 1);
    }
  }

  lemma ReversedIs<T>(s: seq<T>, r: seq<T>)
    requires |r| == |s| && forall k :: 0 <= k < |s| ==> r[k] == s[|s| - 1 - k]
    ensures r == Reversed(s)
  {
    forall k | 0 <= k < |s|
      ensures r[k] == Reversed(s)[k]
    {
      ReversedAt(s, k);
    }
  }

  /** The segments of the contexts below j have their copies in front; a new one
      lies on top. */
  predicate CopiedTo<T(==)>(f: T -> Option<T>, segs: seq<seq<T>>, now: seq<seq<T>>, j: nat) {
    && |now| == |segs| + 1 && now[|segs|] == []
    && forall k :: 0 <= k < |segs| ==>
         now[k] == if 1 <= k < j then Reversed(Kept(f, segs[k])) + segs[k] else segs[k]
  }

  lemma StartCopied<T>(f: T -> Option<T>, segs: seq<seq<T>>)
    ensures CopiedTo(f, segs, segs + [[]], 1)
  {
  }

  lemma CopiedAt<T>(f: T -> Option<T>, segs: seq<seq<T>>, now: seq<seq<T>>, j: nat)
    requires CopiedTo(f, segs, now, j) && 1 <= j < |segs|
    ensures |now| == |segs| + 1 && now[j] == segs[j]
  {
  }

  lemma NextCopied<T>(f: T -> Option<T>, segs: seq<seq<T>>, now: seq<seq<T>>, w: seq<seq<T>>, j: nat, save: seq<T>)
    requires CopiedTo(f, segs, now, j) && 1 <= j < |segs| && |now| == |segs| + 1 && save == Kept(f, now[j])
    requires w == if save == [] then now else now[j := Reversed(save) + now[j]]
    ensures CopiedTo(f, segs, w, j + 1)
  {
    assert save == [] ==> Reversed(save) + now[j] == now[j];
  }

  lemma EndCopied<T>(f: T -> Option<T>, segs: seq<seq<T>>, now: seq<seq<T>>, w: seq<seq<T>>)
    requires CopiedTo(f, segs, now, |segs|) && now == w + [[]]
    ensures |w| == |segs| && (|segs| > 0 ==> w[0] == segs[0])
    ensures forall k :: 1 <= k < |segs| ==> w[k] == Reversed(Kept(f, segs[k])) + segs[k]
  {
  }

  lemma MovedLast(bounds: seq<nat>, i: nat, n: nat)
    requires 1 <= n < |bounds|
    ensures Moved(bounds, i, n)[|bounds| - 1] == bounds[|bounds| - 1] + i
  {
  }

  // ------------------------------------------------ hare and turtle

  lemma KeptEmpty<T>(f: T -> Option<T>, s: seq<T>)
    requires s == []
    ensures Kept(f, s) == []
  {
  }

  lemma NextKept<T>(f: T -> Option<T>, e: seq<T>, lo: nat, hi: nat)
    requires lo <= hi < |e|
    ensures Kept(f, e[lo..hi + 1]) ==
            match f(e[hi]) case None => Kept(f, e[lo..hi]) case Some(y) => Kept(f, e[lo..hi]) + [y]
  {
    assert e[lo..hi + 1] == e[lo..hi] + [e[hi]];
    KeptMore(f, e[lo..hi], e[hi]);
  }

  lemma SameNow<T>(e: seq<T>, w: seq<T>, b: nat)
    requires b <= |e| && b <= |w| && forall k :: 0 <= k < b ==> w[k] == e[k]
    ensures SameBelow(e, w, b)
  {
  }

  /** All that is kept of the segments below k. */
  function KeptTo<T>(f: T -> Option<T>, e: seq<T>, bounds: seq<nat>, top: nat, k: nat): seq<T>
    requires Rising(bounds, top) && top <= |e| && k <= |bounds| + 1
  {
    if k == 0 then [] else KeptTo(f, e, bounds, top, k - 1) + Kept(f, Segment(e, bounds, top, k - 1))
  }

  /** After k segments: what is kept of them lies below the turtle, the marks of
      their ends are set, and from the hare on everything is as it was. */
  ghost predicate Squeezed<T>(f: T -> Option<T>, e: seq<T>, was: seq<nat>, top: nat, k: nat, w: seq<T>,
    bounds: seq<nat>, hare: nat, turtle: nat)
    requires Rising(was, top) && top <= |e| && k <= |was| + 1
  {
    && |w| == |e| && |bounds| == |was| && hare == BaseOf(was, top, k) && turtle <= hare <= |e|
    && w[..turtle] == KeptTo(f, e, was, top, k)
    && (forall j :: hare <= j < |e| ==> w[j] == e[j])
    && (forall j :: 0 <= j < |was| ==>
          bounds[j] == if j < k then |KeptTo(f, e, was, top, j + 1)| else was[j])
  }

  lemma SqueezeStart<T>(f: T -> Option<T>, e: seq<T>, was: seq<nat>, top: nat)
    requires Rising(was, top) && top <= |e|
    ensures BaseOf(was, top, 0) == 0 && Squeezed(f, e, was, top, 0, e, was, 0, 0)
  {
  }

  lemma SqueezeBase<T>(f: T -> Option<T>, e: seq<T>, was: seq<nat>, top: nat, k: nat, w: seq<T>, bounds: seq<nat>,
    hare: nat, turtle: nat)
    requires Rising(was, top) && top <= |e| && k <= |was| && Squeezed(f, e, was, top, k, w, bounds, hare, turtle)
    ensures |bounds| == |was| && |w| == |e|
    ensures hare <= BaseOf(was, top, k + 1) <= |e|
    ensures BaseOf(was, top, k + 1) == if k < |was| then bounds[k] else top
  {
    RisingTo(was, top, k);
  }

  lemma SqueezeNext<T>(f: T -> Option<T>, e: seq<T>, was: seq<nat>, top: nat, k: nat, w: seq<T>, bounds: seq<nat>,
    hare: nat, turtle: nat, x: seq<T>, marks: seq<nat>, stop: nat, end: nat)
    requires Rising(was, top) && top <= |e| && k <= |was| && Squeezed(f, e, was, top, k, w, bounds, hare, turtle)
    requires stop == BaseOf(was, top, k + 1) && turtle <= end <= stop && |x| == |w| && hare <= stop <= |w|
    requires x[turtle..end] == Kept(f, w[hare..stop]) && SameBelow(w, x, turtle)
    requires forall j :: stop <= j < |x| ==> x[j] == w[j]
    requires |bounds| == |was| && marks == if k < |bounds| then bounds[k := end] else bounds
    ensures Squeezed(f, e, was, top, k + 1, x, marks, stop, end)
  {
    hide *;
    SqueezedIs(f, e, was, top, k, w, bounds, hare, turtle);
    SegmentAt(e, was, top, k);
    KeptStep(f, e, was, top, k);
    SameLater(e, w, hare, stop);
    Joined(w, x, turtle, end);
    MakeSqueezed(f, e, was, top, k + 1, x, marks, stop, end);
  }

  lemma SqueezedIs<T>(f: T -> Option<T>, e: seq<T>, was: seq<nat>, top: nat, k: nat, w: seq<T>, bounds: seq<nat>,
    hare: nat, turtle: nat)
    requires Rising(was, top) && top <= |e| && k <= |was| + 1
    requires Squeezed(f, e, was, top, k, w, bounds, hare, turtle)
    ensures |w| == |e| && |bounds| == |was| && hare == BaseOf(was, top, k) && turtle <= hare <= |e|
    ensures w[..turtle] == KeptTo(f, e, was, top, k)
    ensures forall j :: hare <= j < |e| ==> w[j] == e[j]
    ensures forall j :: 0 <= j < |was| ==>
              bounds[j] == if j < k then |KeptTo(f, e, was, top, j + 1)| else was[j]
  {
  }

  lemma MakeSqueezed<T>(f: T -> Option<T>, e: seq<T>, was: seq<nat>, top: nat, k: nat, w: seq<T>, bounds: seq<nat>,
    hare: nat, turtle: nat)
    requires Rising(was, top) && top <= |e| && k <= |was| + 1
    requires |w| == |e| && |bounds| == |was| && hare == BaseOf(was, top, k) && turtle <= hare <= |e|
    requires w[..turtle] == KeptTo(f, e, was, top, k)
    requires forall j :: hare <= j < |e| ==> w[j] == e[j]
    requires forall j :: 0 <= j < |was| ==>
               bounds[j] == if j < k then |KeptTo(f, e, was, top, j + 1)| else was[j]
    ensures Squeezed(f, e, was, top, k, w, bounds, hare, turtle)
  {
  }

  lemma SameLater<T>(e: seq<T>, w: seq<T>, lo: nat, hi: nat)
    requires |w| == |e| && lo <= hi <= |e| && forall j :: lo <= j < |e| ==> w[j] == e[j]
    ensures w[lo..hi] == e[lo..hi]
  {
  }

  lemma Joined<T>(w: seq<T>, x: seq<T>, mid: nat, end: nat)
    requires mid <= |w| && mid <= end <= |x| && SameBelow(w, x, mid)
    ensures x[..end] == w[..mid] + x[mid..end] && |x[..end]| == end
  {
  }

  lemma {:induction false} KeptRises<T>(f: T -> Option<T>, e: seq<T>, bounds: seq<nat>, top: nat, j: nat, k: nat)
    requires Rising(bounds, top) && top <= |e| && j <= k <= |bounds| + 1
    ensures |KeptTo(f, e, bounds, top, j)| <= |KeptTo(f, e, bounds, top, k)|
    ensures KeptTo(f, e, bounds, top, k)[..|KeptTo(f, e, bounds, top, j)|] == KeptTo(f, e, bounds, top, j)
    decreases k - j
  {
    if j < k {
      KeptRises(f, e, bounds, top, j, k - 1);
    }
  }

  /** At the end the new marks cut what is left into the segments kept. */
  lemma SqueezeEnd<T>(f: T -> Option<T>, e: seq<T>, was: seq<nat>, top: nat, w: seq<T>, bounds: seq<nat>, hare: nat,
    turtle: nat)
    requires Rising(was, top) && top <= |e| && Squeezed(f, e, was, top, |was| + 1, w, bounds, hare, turtle)
    ensures |bounds| == |was| && turtle <= |w| == |e| && Rising(bounds, turtle)
    ensures forall k :: 0 <= k <= |was| ==>
              Segments(w, bounds, turtle)[k] == Kept(f, Segments(e, was, top)[k])
  {
    hide *;
    SqueezedSize(f, e, was, top, w, bounds, hare, turtle);
    forall k: nat | k <= |was|
      ensures BaseOf(bounds, turtle, k) <= BaseOf(bounds, turtle, k + 1)
    {
      SqueezedMark(f, e, was, top, w, bounds, hare, turtle, k);
      SqueezedMark(f, e, was, top, w, bounds, hare, turtle, k + 1);
      KeptRises(f, e, was, top, k, k + 1);
    }
    MakeRising(bounds, turtle);
    forall k: nat | k <= |was|
      ensures Segments(w, bounds, turtle)[k] == Kept(f, Segments(e, was, top)[k])
    {
      SqueezedMark(f, e, was, top, w, bounds, hare, turtle, k);
      SqueezedMark(f, e, was, top, w, bounds, hare, turtle, k + 1);
      SqueezedSegment(f, e, was, top, w, bounds, hare, turtle, k);
    }
  }

  lemma MakeRising(bounds: seq<nat>, top: nat)
    requires forall k: nat :: k <= |bounds| ==> BaseOf(bounds, top, k) <= BaseOf(bounds, top, k + 1)
    ensures Rising(bounds, top)
  {
  }

  lemma SqueezedSize<T>(f: T -> Option<T>, e: seq<T>, was: seq<nat>, top: nat, w: seq<T>, bounds: seq<nat>, hare: nat,
    turtle: nat)
    requires Rising(was, top) && top <= |e| && Squeezed(f, e, was, top, |was| + 1, w, bounds, hare, turtle)
    ensures |bounds| == |was| && turtle <= |w| == |e|
  {
  }

  lemma SqueezedMark<T>(f: T -> Option<T>, e: seq<T>, was: seq<nat>, top: nat, w: seq<T>, bounds: seq<nat>, hare: nat,
    turtle: nat, k: nat)
    requires Rising(was, top) && top <= |e| && k <= |was| + 1
    requires Squeezed(f, e, was, top, |was| + 1, w, bounds, hare, turtle)
    ensures |bounds| == |was| && turtle <= |w| == |e| && BaseOf(bounds, turtle, k) == |KeptTo(f, e, was, top, k)|
  {
    hide *;
    SqueezedSize(f, e, was, top, w, bounds, hare, turtle);
    BaseIs(bounds, turtle, k);
    if k == 0 {
      KeptNone(f, e, was, top);
    } else if k <= |was| {
      MarkAt(f, e, was, top, w, bounds, hare, turtle, k - 1);
    } else {
      SqueezedAll(f, e, was, top, w, bounds, hare, turtle);
    }
  }

  lemma BaseIs(bounds: seq<nat>, top: nat, k: nat)
    requires k <= |bounds| + 1
    ensures BaseOf(bounds, top, k) == if k == 0 then 0 else if k <= |bounds| then bounds[k - 1] else top
  {
  }

  lemma KeptNone<T>(f: T -> Option<T>, e: seq<T>, bounds: seq<nat>, top: nat)
    requires Rising(bounds, top) && top <= |e|
    ensures KeptTo(f, e, bounds, top, 0) == []
  {
  }

  lemma MarkAt<T>(f: T -> Option<T>, e: seq<T>, was: seq<nat>, top: nat, w: seq<T>, bounds: seq<nat>, hare: nat,
    turtle: nat, j: nat)
    requires Rising(was, top) && top <= |e| && j < |was| && |bounds| == |was|
    requires Squeezed(f, e, was, top, |was| + 1, w, bounds, hare, turtle)
    ensures bounds[j] == |KeptTo(f, e, was, top, j + 1)|
  {
  }

  lemma SqueezedSegment<T>(f: T -> Option<T>, e: seq<T>, was: seq<nat>, top: nat, w: seq<T>, bounds: seq<nat>,
    hare: nat, turtle: nat, k: nat)
    requires Rising(was, top) && top <= |e| && k <= |was|
    requires Squeezed(f, e, was, top, |was| + 1, w, bounds, hare, turtle)
    requires |bounds| == |was| && turtle <= |w| && Rising(bounds, turtle)
    requires BaseOf(bounds, turtle, k) == |KeptTo(f, e, was, top, k)|
    requires BaseOf(bounds, turtle, k + 1) == |KeptTo(f, e, was, top, k + 1)|
    ensures Segments(w, bounds, turtle)[k] == Kept(f, Segments(e, was, top)[k])
  {
    hide *;
    KeptRises(f, e, was, top, k + 1, |was| + 1);
    KeptStep(f, e, was, top, k);
    SqueezedAll(f, e, was, top, w, bounds, hare, turtle);
    SegmentAt(w, bounds, turtle, k);
    SegmentAt(e, was, top, k);
    SliceOf(w, turtle, KeptTo(f, e, was, top, |was| + 1), KeptTo(f, e, was, top, k), KeptTo(f, e, was, top, k + 1),
      Kept(f, Segment(e, was, top, k)));
  }

  lemma KeptStep<T>(f: T -> Option<T>, e: seq<T>, bounds: seq<nat>, top: nat, k: nat)
    requires Rising(bounds, top) && top <= |e| && k <= |bounds|
    ensures KeptTo(f, e, bounds, top, k + 1) == KeptTo(f, e, bounds, top, k) + Kept(f, Segment(e, bounds, top, k))
  {
  }

  lemma SqueezedAll<T>(f: T -> Option<T>, e: seq<T>, was: seq<nat>, top: nat, w: seq<T>, bounds: seq<nat>, hare: nat,
    turtle: nat)
    requires Rising(was, top) && top <= |e| && Squeezed(f, e, was, top, |was| + 1, w, bounds, hare, turtle)
    ensures turtle <= |w| && w[..turtle] == KeptTo(f, e, was, top, |was| + 1)
  {
  }

  lemma SegmentAt<T>(e: seq<T>, bounds: seq<nat>, top: nat, k: nat)
    requires Rising(bounds, top) && top <= |e| && k <= |bounds|
    ensures BaseOf(bounds, top, k) <= BaseOf(bounds, top, k + 1) <= top
    ensures Segments(e, bounds, top)[k] == Segment(e, bounds, top, k)
    ensures Segment(e, bounds, top, k) == e[BaseOf(bounds, top, k)..BaseOf(bounds, top, k + 1)]
  {
    RisingTo(bounds, top, k);
  }

  lemma SliceOf<T>(w: seq<T>, turtle: nat, all: seq<T>, a: seq<T>, b: seq<T>, s: seq<T>)
    requires turtle <= |w| && w[..turtle] == all && |b| <= |all| && all[..|b|] == b && b == a + s
    ensures w[|a|..|b|] == s
  {
    assert w[|a|..|b|] == w[..turtle][..|b|][|a|..];
  }

  class Stack<T(0)> {
    var entry: array<T>
    var current: nat
    var bounds: seq<nat>

    /** An empty stack, without contexts. */
    constructor (size: nat)
      requires size > 0
      ensures Valid() && bounds == [] && current == 0 && Segs() == [[]] && fresh(entry)
    {
      entry := new T[size];
      current, bounds := 0, [];
    }

    ghost predicate Valid()
      reads this
    {
      0 < entry.Length && current <= entry.Length && Rising(bounds, current)
    }

    ghost function Segs(): (r: seq<seq<T>>)
      reads this, entry
      requires Valid()
      ensures |r| == |bounds| + 1
    {
      Segments(entry[..], bounds, current)
    }

    /** newcontext: the new segment is empty. */
    method NewContext()
      requires Valid()
      modifies this`bounds
      ensures Valid() && bounds == old(bounds) + [current] && Segs() == old(Segs()) + [[]]
    {
      ghost var was := bounds;
      bounds := bounds + [current];
      forall k | 0 <= k <= |bounds|
        ensures BaseOf(bounds, current, k) <= BaseOf(bounds, current, k + 1)
      {
        if k < |bounds| {
          assert BaseOf(was, current, k) <= BaseOf(was, current, k + 1);
        }
      }
      forall k | 0 <= k < |bounds|
        ensures Segment(entry[..], bounds, current, k) == Segment(entry[..], was, current, k)
      {
      }
    }

    /** resetcontext, with nothing in the last segment. */
    method ResetContext()
      requires Valid() && bounds != [] && bounds[|bounds| - 1] == current
      modifies this`bounds
      ensures Valid() && bounds == old(bounds)[..|old(bounds)| - 1] && old(Segs()) == Segs() + [[]]
    {
      ghost var was := bounds;
      bounds := bounds[..|bounds| - 1];
      assert was == bounds + [current];
      forall k | 0 <= k <= |bounds|
        ensures BaseOf(bounds, current, k) <= BaseOf(bounds, current, k + 1)
      {
        assert BaseOf(was, current, k) <= BaseOf(was, current, k + 1);
      }
      forall k | 0 <= k <= |bounds|
        ensures Segment(entry[..], bounds, current, k) == Segment(entry[..], was, current, k)
      {
      }
      assert Segment(entry[..], was, current, |was|) == [];
      assert Segments(entry[..], was, current) == Segs() + [[]];
    }

    /** reinit_recall: twice the room. */
    method Reinit()
      requires Valid()
      modifies this`entry
      ensures Valid() && fresh(entry) && entry.Length == 2 * old(entry.Length)
      ensures entry[..current] == old(entry[..current]) && Segs() == old(Segs())
    {
      ghost var e := entry[..];
      var n := entry.Length;
      var more := new T[2 * n];
      var k := 0;
      while k < n
        invariant 0 <= k <= n && more[..k] == e[..k] && entry[..] == e
      {
        more[k] := entry[k];
        k := k + 1;
      }
      entry := more;
      assert entry[..current] == more[..n][..current];
      SegmentsKeep(e, entry[..], bounds, current);
    }

    /** The stack is doubled until i more entries fit. */
    method MakeRoom(i: nat)
      requires Valid()
      modifies this`entry
      ensures Valid() && current + i <= entry.Length && Segs() == old(Segs())
      ensures entry == old(entry) || fresh(entry)
    {
      hide Segments, Rising;
      while current + i > entry.Length
        invariant Valid() && Segs() == old(Segs())
        invariant entry == old(entry) || fresh(entry)
        decreases current + i - entry.Length
      {
        Reinit();
      }
    }

    /** The entries from insert up to the top are moved i places up, from above. */
    method MoveUp(insert: nat, i: nat)
      requires insert <= current && current + i <= entry.Length
      modifies entry
      ensures SameBelow(old(entry[..]), entry[..], insert) && MovedUp(old(entry[..]), entry[..], insert, current, i)
    {
      ghost var e := entry[..];
      var tsk := current;
      while tsk != insert
        invariant insert <= tsk <= current
        invariant forall k :: 0 <= k < tsk ==> entry[k] == e[k]
        invariant forall k :: tsk + i <= k < current + i ==> entry[k] == e[k - i]
      {
        tsk := tsk - 1;
        entry[tsk + i] := entry[tsk];
      }
      forall k | insert <= k < current
        ensures e[k] == entry[k + i]
      {
      }
    }

    /** The marks of the contexts above n, from the current one down. */
    method MoveMarks(i: nat, n: nat)
      requires 1 <= n <= |bounds|
      modifies this`bounds
      ensures bounds == Moved(old(bounds), i, n)
    {
      ghost var was := bounds;
      var k := |bounds|;
      while k > n
        invariant n <= k <= |bounds| == |was|
        invariant forall j :: 0 <= j < |bounds| ==> bounds[j] == if j < k then was[j] else was[j] + i
      {
        k := k - 1;
        bounds := bounds[k := bounds[k] + i];
      }
    }

    /** shift_recall: opens i slots where the segment of context n begins; all
        else is as before. */
    method ShiftRecall(i: nat, n: nat) returns (insert: nat)
      requires Valid() && 1 <= n <= |bounds|
      modifies this, entry
      ensures Valid() && current == old(current) + i && bounds == Moved(old(bounds), i, n)
      ensures entry == old(entry) || fresh(entry)
      ensures insert == bounds[n - 1] && insert + i <= current
      ensures Segs() == old(Segs())[n := entry[insert..insert + i] + old(Segs())[n]]
    {
      hide *;
      ghost var top, was := current, bounds;
      MakeRoom(i);
      Unfold();
      ghost var e := entry[..];
      insert := bounds[n - 1];
      MarkBelow(bounds, current, n);
      MoveUp(insert, i);
      current := current + i;
      MoveMarks(i, n);
      SegmentsMoved(e, entry[..], was, top, i, n, insert);
      SameMark(was, top, i, n);
      Fold();
    }

    /** Writes what was saved into the slots from insert on, the last first. */
    method Fill(save: seq<T>, insert: nat)
      requires insert + |save| <= entry.Length
      modifies entry
      ensures SameBelow(old(entry[..]), entry[..], insert) && entry[insert..insert + |save|] == Reversed(save)
      ensures forall k :: insert + |save| <= k < entry.Length ==> entry[k] == old(entry[k])
    {
      var i, wakp := |save|, insert;
      while i != 0
        invariant 0 <= i <= |save| && wakp == insert + |save| - i
        invariant forall k :: 0 <= k < insert ==> entry[k] == old(entry[k])
        invariant forall k :: insert + |save| <= k < entry.Length ==> entry[k] == old(entry[k])
        invariant forall k :: insert <= k < wakp ==> entry[k] == save[insert + |save| - 1 - k]
      {
        entry[wakp] := save[i - 1];
        wakp := wakp + 1;
        i := i - 1;
      }
      ReversedIs(save, entry[insert..insert + |save|]);
    }

    /** The slots opened for context n get what was saved, the last first. */
    method Insert(save: seq<T>, n: nat)
      requires Valid() && 1 <= n <= |bounds|
      modifies this, entry
      ensures Valid() && bounds == Moved(old(bounds), |save|, n) && current == old(current) + |save|
      ensures entry == old(entry) || fresh(entry)
      ensures Segs() == old(Segs())[n := Reversed(save) + old(Segs())[n]]
    {
      ghost var segs := Segs();
      var insert := ShiftRecall(|save|, n);
      ghost var e := entry[..];
      Fill(save, insert);
      Refilled(e, entry[..], bounds, current, n, insert, |save|, segs);
    }

    // ---------------------------------------------- copying a context

    /** copy_context, for the recall stack: what was copied is recalled again, in
        front of the segment it was recalled in. */
    method CopyContext(f: T -> Option<T>)
      requires Valid()
      modifies this, entry
      ensures Valid() && |bounds| == |old(bounds)| && (entry == old(entry) || fresh(entry))
      ensures Segs()[0] == old(Segs())[0]
      ensures forall k :: 1 <= k <= |bounds| ==> Segs()[k] == Reversed(Kept(f, old(Segs())[k])) + old(Segs())[k]
    {
      hide *;
      ghost var segs, n := Segs(), |bounds|;
      NewContext();
      var j := 1;
      StartCopied(f, segs);
      while j < |bounds|
        invariant 1 <= j <= |bounds| == n + 1 && |segs| == n + 1 && Valid() && bounds[n] == current
        invariant entry == old(entry) || fresh(entry)
        invariant CopiedTo(f, segs, Segs(), j)
      {
        ghost var now, was := Segs(), bounds;
        CopiedAt(f, segs, now, j);
        var save := Collect(f, j);
        if save != [] {
          Insert(save, j);
          MovedLast(was, |save|, j);
        }
        NextCopied(f, segs, now, Segs(), j, save);
        j := j + 1;
      }
      ghost var now := Segs();
      ResetContext();
      EndCopied(f, segs, now, Segs());
    }

    /** The loop over the segment of context j. */
    method Collect(f: T -> Option<T>, j: nat) returns (save: seq<T>)
      requires Valid() && 1 <= j < |bounds|
      ensures save == Kept(f, Segs()[j])
    {
      save := [];
      RisingTo(bounds, current, j);
      var rec, last := bounds[j - 1], bounds[j];
      ghost var e, first := entry[..], rec;
      while rec != last
        invariant first <= rec <= last && save == Kept(f, e[first..rec])
        decreases last - rec
      {
        NextKept(f, e, first, rec);
        match f(entry[rec]) {
          case None =>
          case Some(y) => save := save + [y];
        }
        rec := rec + 1;
      }
    }

    // ---------------------------------------------- collecting a context

    /** gc_context, for one stack: hare and turtle. Entries whose box has not been
        copied are dropped, the others forwarded, segment by segment. */
    method GcContext(f: T -> Option<T>)
      requires Valid()
      modifies this, entry
      ensures Valid() && |bounds| == |old(bounds)| && entry == old(entry)
      ensures forall k :: 0 <= k <= |bounds| ==> Segs()[k] == Kept(f, old(Segs())[k])
    {
      hide *;
      ghost var e, was, top := entry[..], bounds, current;
      var hare, turtle, k := 0, 0, 0;
      Unfold();
      SqueezeStart(f, e, was, top);
      while k <= |bounds|
        invariant 0 <= k <= |bounds| + 1 && |bounds| == |was| && current == top && entry == old(entry)
        invariant hare == BaseOf(was, top, k) && turtle <= hare <= entry.Length && Rising(was, top) && top <= |e|
        invariant Squeezed(f, e, was, top, k, entry[..], bounds, hare, turtle)
      {
        SqueezeBase(f, e, was, top, k, entry[..], bounds, hare, turtle);
        var stop := if k < |bounds| then bounds[k] else current;
        ghost var w, marks, h0, t0 := entry[..], bounds, hare, turtle;
        hare, turtle := SqueezeSegment(f, hare, turtle, stop);
        if k < |bounds| {
          bounds := bounds[k := turtle];
        }
        SqueezeNext(f, e, was, top, k, w, marks, h0, t0, entry[..], bounds, hare, turtle);
        k := k + 1;
      }
      current := turtle;
      SqueezeEnd(f, e, was, top, entry[..], bounds, hare, turtle);
      Fold();
    }

    lemma Unfold()
      requires Valid()
      ensures 0 < entry.Length && current <= entry.Length && Rising(bounds, current)
      ensures Segs() == Segments(entry[..], bounds, current)
    {
    }

    lemma Fold()
      requires 0 < entry.Length && current <= entry.Length && Rising(bounds, current)
      ensures Valid() && Segs() == Segments(entry[..], bounds, current)
    {
    }

    /** The loop over one segment: the entries kept come to lie from the turtle
        on. */
    method SqueezeSegment(f: T -> Option<T>, hare0: nat, turtle0: nat, stop: nat) returns (hare: nat, turtle: nat)
      requires turtle0 <= hare0 <= stop <= entry.Length
      modifies entry
      ensures hare == stop && turtle0 <= turtle <= hare
      ensures entry[turtle0..turtle] == Kept(f, old(entry[hare0..stop]))
      ensures SameBelow(old(entry[..]), entry[..], turtle0)
      ensures forall j :: stop <= j < entry.Length ==> entry[j] == old(entry[j])
    {
      hide *;
      hare, turtle := hare0, turtle0;
      ghost var e := entry[..];
      ghost var done := Kept(f, e[hare0..hare]);
      KeptEmpty(f, e[hare0..hare]);
      while hare != stop
        invariant turtle0 <= turtle <= hare && hare0 <= hare <= stop
        invariant done == Kept(f, e[hare0..hare]) && |done| == turtle - turtle0
        invariant forall k :: turtle0 <= k < turtle ==> entry[k] == done[k - turtle0]
        invariant forall j :: 0 <= j < turtle0 ==> entry[j] == e[j]
        invariant forall j :: hare <= j < entry.Length ==> entry[j] == e[j]
        decreases stop - hare
      {
        NextKept(f, e, hare0, hare);
        match f(entry[hare]) {
          case None =>
          case Some(y) =>
            entry[turtle] := y;
            turtle := turtle + 1;
            done := done + [y];
        }
        hare := hare + 1;
      }
      assert entry[turtle0..turtle] == done;
      SameNow(e, entry[..], turtle0);
    }
  }
}
