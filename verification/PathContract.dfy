/** Contracting "." and ".." in a path, in place: one pass with a read position
    and a write position. */
module PathContract {
  import opened PathNames

  const NUL: char := '\0'

  /** The path of the components, with a slash at the end. */
  function Prefix(stack: seq<string>): (s: string)
    ensures s != "" && s[|s| - 1] == '/' && s[0] == '/'
    decreases |stack|
  {
    if stack == [] then "/" else Prefix(stack[..|stack| - 1]) + stack[|stack| - 1] + "/"
  }

  lemma {:induction false} JoinMore(stack: seq<string>, c: string)
    ensures Join(stack + [c]) == if stack == [] then c else Join(stack) + "/" + c
    decreases |stack|
  {
    if stack != [] {
      assert (stack + [c])[1..] == stack[1..] + [c];
      JoinMore(stack[1..], c);
      assert Join(stack + [c]) == stack[0] + "/" + Join(stack[1..] + [c]);
      if |stack| > 1 {
        assert stack[0] + "/" + (Join(stack[1..]) + "/" + c) == stack[0] + "/" + Join(stack[1..]) + "/" + c;
      }
    }
  }

  lemma PrefixMore(stack: seq<string>, c: string)
    ensures Prefix([]) == "/" && Prefix(stack + [c]) == Prefix(stack) + c + "/"
  {
    assert (stack + [c])[..|stack|] == stack;
  }

  lemma Regroup(a: string, b: string)
    ensures "/" + a + "/" + b + "/" == "/" + (a + "/" + b) + "/"
  {
  }

  lemma Together(a: string, b: string)
    ensures "/" + a + "/" + b == "/" + (a + "/" + b)
  {
  }

  lemma {:induction false} PrefixJoin(stack: seq<string>)
    ensures Prefix(stack) == if stack == [] then "/" else "/" + Join(stack) + "/"
    decreases |stack|
  {
    hide *;
    PrefixMore([], "");
    if stack != [] {
      var init, last := stack[..|stack| - 1], stack[|stack| - 1];
      assert stack == init + [last];
      PrefixJoin(init);
      PrefixMore(init, last);
      JoinMore(init, last);
      if init != [] {
        Regroup(Join(init), last);
      }
    }
  }

  lemma JoinedEnd(stack: seq<string>, cur: string)
    ensures Prefix(stack) + cur == "/" + Join(stack + [cur])
  {
    hide *;
    PrefixJoin(stack);
    JoinMore(stack, cur);
    if stack != [] {
      Together(Join(stack), cur);
    }
  }

  /** Walking over an ordinary component. */
  lemma NameWalked(stack: seq<string>, cur: string, rest: string)
    requires IsName(cur)
    ensures Walk(stack, Split(cur + "/" + rest)) == Walk(stack + [cur], Split(rest))
    ensures Walk(stack, Split(cur)) == stack + [cur]
  {
    SplitSlash(cur, rest);
    assert ([cur] + Split(rest))[1..] == Split(rest);
    SplitPlain(cur);
    WalkOne(stack, cur);
  }

  lemma WalkOne(stack: seq<string>, cur: string)
    requires IsName(cur)
    ensures Walk(stack, [cur]) == stack + [cur]
  {
    assert [cur][1..] == [];
  }

  /** The components the whole path contracts to. */
  function Goal(orig: string): seq<string>
    requires orig != ""
  {
    Walk([], Split(orig[1..]))
  }

  /** What is still to be read is as it was. */
  predicate Unread(t: seq<char>, orig: string, src: int, dest: int) {
    && 0 <= dest <= src <= |orig| < |t| && orig != ""
    && t[src..|orig|] == orig[src..] && t[|orig|] == NUL
  }

  /** Behind a slash: the components so far have been written. */
  predicate At10(t: seq<char>, orig: string, src: int, dest: int, stack: seq<string>) {
    && Unread(t, orig, src, dest) && t[..dest] == Prefix(stack) && Names(stack)
    && Goal(orig) == Walk(stack, Split(orig[src..]))
  }

  /** Inside an ordinary component, of which cur has been written. */
  predicate At20(t: seq<char>, orig: string, src: int, dest: int, stack: seq<string>, cur: string) {
    && Unread(t, orig, src, dest) && t[..dest] == Prefix(stack) + cur && Names(stack)
    && cur != "" && NoSlash(cur) && IsName(First(cur + orig[src..]))
    && Goal(orig) == Walk(stack, Split(cur + orig[src..]))
  }

  /** The contracted path, ended by a NUL. */
  predicate Ended(t: seq<char>, orig: string, m: int) {
    orig != "" && 0 <= m < |t| && m <= |orig| && t[..m] == Normal(orig) && t[m] == NUL
  }

  // ------------------------------------------------ the steps

  lemma ReadOn(t: seq<char>, orig: string, src: int, dest: int)
    requires Unread(t, orig, src, dest)
    ensures src < |orig| ==> t[src] == orig[src] && Unread(t[dest := t[src]], orig, src + 1, dest + 1)
    ensures src < |orig| ==> orig[src..] == [orig[src]] + orig[src + 1..]
    ensures t[dest := t[src]][..dest + 1] == t[..dest] + [t[src]]
    ensures src == |orig| ==> t[src] == NUL && orig[src..] == ""
  {
    var w := t[dest := t[src]];
    assert w[..dest] == t[..dest];
    if src < |orig| {
      assert t[src] == t[src..|orig|][0];
      assert w[src + 1..|orig|] == t[src..|orig|][1..];
    }
  }

  lemma Begin(t: seq<char>, orig: string)
    requires Unread(t, orig, 0, 0) && orig[0] == '/'
    ensures t[0] == '/' && At10(t[0 := t[0]], orig, 1, 1, [])
  {
    ReadOn(t, orig, 0, 0);
  }

  lemma NameEnds(t: seq<char>, orig: string, src: int, dest: int, stack: seq<string>, cur: string)
    requires At20(t, orig, src, dest, stack, cur) && src < |orig| && orig[src] == '/'
    ensures t[src] == '/' && At10(t[dest := t[src]], orig, src + 1, dest + 1, stack + [cur])
  {
    ReadOn(t, orig, src, dest);
    var rest := orig[src + 1..];
    assert orig[src..] == "/" + rest && cur + orig[src..] == cur + "/" + rest;
    FirstIs(cur, orig[src..]);
    NameWalked(stack, cur, rest);
    assert (stack + [cur])[..|stack|] == stack;
    assert t[dest := t[src]][..dest + 1] == Prefix(stack) + cur + "/";
  }

  lemma NameGoesOn(t: seq<char>, orig: string, src: int, dest: int, stack: seq<string>, cur: string)
    requires At20(t, orig, src, dest, stack, cur) && src < |orig| && orig[src] != '/'
    ensures t[src] == orig[src] && At20(t[dest := t[src]], orig, src + 1, dest + 1, stack, cur + [orig[src]])
  {
    ReadOn(t, orig, src, dest);
    assert cur + orig[src..] == (cur + [orig[src]]) + orig[src + 1..];
    assert Prefix(stack) + cur + [orig[src]] == Prefix(stack) + (cur + [orig[src]]);
  }

  lemma NameLast(t: seq<char>, orig: string, src: int, dest: int, stack: seq<string>, cur: string)
    requires At20(t, orig, src, dest, stack, cur) && src == |orig|
    ensures t[src] == NUL && Ended(t[dest := t[src]], orig, dest)
  {
    ReadOn(t, orig, src, dest);
    assert cur + orig[src..] == cur;
    FirstIs(cur, orig[src..]);
    NameWalked(stack, cur, "");
    JoinedEnd(stack, cur);
    EndsAt(t, orig, dest, stack + [cur]);
  }

  lemma EndsAt(t: seq<char>, orig: string, m: int, stack: seq<string>)
    requires orig != "" && 0 <= m < |t| && m <= |orig| && Goal(orig) == stack && t[..m] == "/" + Join(stack)
    ensures Ended(t[m := NUL], orig, m)
  {
    assert t[m := NUL][..m] == t[..m];
  }

  /** The end behind a slash: the slash goes, unless it is the root. */
  lemma SlashLast(t: seq<char>, orig: string, src: int, dest: int, stack: seq<string>)
    requires At10(t, orig, src, dest, stack) && src == |orig|
    ensures t[src] == NUL
    ensures if dest - 1 > 0 then Ended(t[dest := t[src]][dest - 1 := NUL], orig, dest - 1)
            else Ended(t[dest := t[src]], orig, dest)
  {
    ReadOn(t, orig, src, dest);
    assert Split("") == [""] && Walk(stack, [""]) == stack;
    PrefixJoin(stack);
    var w := t[dest := t[src]];
    assert w[..dest] == t[..dest];
    if stack == [] {
      assert dest == 1;
    } else {
      assert Names(stack) && IsName(stack[|stack| - 1]);
      assert |Prefix(stack)| > 1;
      assert w[dest - 1 := NUL][..dest - 1] == Prefix(stack)[..dest - 1];
      assert Prefix(stack)[..dest - 1] == "/" + Join(stack);
    }
  }

  lemma RootAgain(t: seq<char>, orig: string, src: int, dest: int, stack: seq<string>)
    requires At10(t, orig, src, dest, stack) && src < |orig| && orig[src] == '/' && dest >= 1
    ensures t[src] == '/' && At10(t[dest := t[src]][0 := '/'], orig, src + 1, 1, [])
  {
    ReadOn(t, orig, src, dest);
    var rest, w := orig[src + 1..], t[dest := t[src]][0 := '/'];
    assert orig[src..] == "" + "/" + rest;
    SplitSlash("", rest);
    assert ([""] + Split(rest))[1..] == Split(rest);
    assert w[..1] == "/";
    assert w[src + 1..|orig|] == t[dest := t[src]][src + 1..|orig|];
  }

  lemma NameBegins(t: seq<char>, orig: string, src: int, dest: int, stack: seq<string>)
    requires At10(t, orig, src, dest, stack) && src < |orig| && orig[src] != '/'
    requires !OneDot(orig[src..]) && !TwoDots(orig[src..])
    ensures t[src] == orig[src] && At20(t[dest := t[src]], orig, src + 1, dest + 1, stack, [orig[src]])
  {
    ReadOn(t, orig, src, dest);
    NameStarts(orig[src..]);
  }

  /** The stack without its last component, as if that one before were just read. */
  lemma BackTo(w: seq<char>, orig: string, src: int, dest: int, stack: seq<string>)
    requires 0 <= dest <= src <= |orig| < |w| && Unread(w, orig, src, dest) && Names(stack) && stack != []
    requires w[..dest] + "/" == Prefix(stack)
    requires if src < |orig| then orig[src] == '/' && Goal(orig) == Walk(stack, Split(orig[src + 1..]))
             else Goal(orig) == stack
    ensures At20(w, orig, src, dest, stack[..|stack| - 1], stack[|stack| - 1])
  {
    hide *;
    var init, cur := stack[..|stack| - 1], stack[|stack| - 1];
    PrefixLast(stack);
    DropSlash(w[..dest], Prefix(init) + cur);
    if src < |orig| {
      var rest := orig[src + 1..];
      TailSlash(cur, orig, src);
      NameWalked(init, cur, rest);
    } else {
      NoTail(cur, orig, src);
      NameWalked(init, cur, "");
    }
    FirstHere(cur, orig, src);
    MakeAt20(w, orig, src, dest, init, cur, stack);
  }

  lemma TailSlash(cur: string, orig: string, src: int)
    requires 0 <= src < |orig| && orig[src] == '/'
    ensures cur + orig[src..] == cur + "/" + orig[src + 1..]
  {
  }

  lemma NoTail(cur: string, orig: string, src: int)
    requires src == |orig|
    ensures cur + orig[src..] == cur
  {
  }

  lemma FirstHere(cur: string, orig: string, src: int)
    requires NoSlash(cur) && 0 <= src <= |orig| && (src < |orig| ==> orig[src] == '/')
    ensures First(cur + orig[src..]) == cur
  {
    FirstIs(cur, orig[src..]);
  }

  lemma PrefixLast(stack: seq<string>)
    requires Names(stack) && stack != []
    ensures var init, cur := stack[..|stack| - 1], stack[|stack| - 1];
            stack == init + [cur] && IsName(cur) && NoSlash(cur) && Prefix(stack) == Prefix(init) + cur + "/"
  {
  }

  lemma DropSlash(a: string, b: string)
    requires a + "/" == b + "/"
    ensures a == b
  {
    assert |a| == |b|;
    assert a == (a + "/")[..|a|] && b == (b + "/")[..|b|];
  }

  lemma MakeAt20(w: seq<char>, orig: string, src: int, dest: int, init: seq<string>, cur: string, stack: seq<string>)
    requires Unread(w, orig, src, dest) && Names(stack) && stack == init + [cur] && w[..dest] == Prefix(init) + cur
    requires First(cur + orig[src..]) == cur && Goal(orig) == Walk(init, Split(cur + orig[src..]))
    ensures At20(w, orig, src, dest, init, cur)
  {
    assert stack[|stack| - 1] == cur && forall i :: 0 <= i < |init| ==> init[i] == stack[i];
  }

  // ------------------------------------------------ dots

  /** Walking over the component "." or "..". */
  lemma DotsWalked(stack: seq<string>, dots: string, rest: string)
    requires dots == "." || dots == ".."
    ensures var back := if dots == "." then stack else Pop(stack);
            && Walk(stack, Split(dots + "/" + rest)) == Walk(back, Split(rest))
            && Walk(stack, Split(dots)) == back
  {
    SplitSlash(dots, rest);
    assert ([dots] + Split(rest))[1..] == Split(rest);
    SplitPlain(dots);
    assert [dots][1..] == [];
  }

  /** The dots at src, of which the read position is moved to the end. */
  predicate DotsAt(orig: string, src: int, dots: string) {
    && 0 <= src && src + |dots| <= |orig| && orig[src..src + |dots|] == dots
    && (src + |dots| < |orig| ==> orig[src + |dots|] == '/')
  }

  lemma AfterDots(t: seq<char>, orig: string, src: int, dest: int, stack: seq<string>, dots: string)
    requires At10(t, orig, src, dest, stack) && DotsAt(orig, src, dots) && (dots == "." || dots == "..")
    ensures var end, back := src + |dots|, if dots == "." then stack else Pop(stack);
            if end < |orig| then orig[end] == '/' && Goal(orig) == Walk(back, Split(orig[end + 1..]))
            else Goal(orig) == back
  {
    var end := src + |dots|;
    if end < |orig| {
      var rest := orig[end + 1..];
      assert orig[src..] == dots + "/" + rest;
      DotsWalked(stack, dots, rest);
    } else {
      assert orig[src..] == dots;
      DotsWalked(stack, dots, "");
    }
  }

  /** At the root dots change nothing. */
  lemma RootDots(w: seq<char>, orig: string, end: int)
    requires Unread(w, orig, end, 1) && w[0] == '/'
    requires if end < |orig| then orig[end] == '/' && Goal(orig) == Walk([], Split(orig[end + 1..]))
             else Goal(orig) == []
    ensures At10(w, orig, end, 1, [])
  {
    if end < |orig| {
      var rest := orig[end + 1..];
      assert orig[end..] == "" + "/" + rest;
      SplitSlash("", rest);
      assert ([""] + Split(rest))[1..] == Split(rest);
    } else {
      assert orig[end..] == "" && Split("") == [""] && Walk([], [""]) == [];
    }
    assert w[..1] == "/";
  }

  /** Moving the read position on and the write position back. */
  lemma Moved(t: seq<char>, orig: string, src: int, dest: int, end: int, back: int, w: seq<char>)
    requires Unread(t, orig, src, dest) && src < end <= |orig| && 0 <= back <= dest
    requires w == t[dest := t[src]]
    ensures Unread(w, orig, end, back) && w[..back] == t[..back]
  {
    assert w[end..|orig|] == t[src..|orig|][end - src..];
    assert orig[end..] == orig[src..][end - src..];
  }

  /** Where the slash before the last component is. */
  lemma SlashBefore(stack: seq<string>)
    requires Names(stack) && stack != []
    ensures var q := |Prefix(stack[..|stack| - 1])| - 1;
            && 0 <= q < |Prefix(stack)| - 2 && Prefix(stack)[q] == '/'
            && (forall k :: q < k < |Prefix(stack)| - 1 ==> Prefix(stack)[k] != '/')
            && Prefix(stack)[..q] + "/" == Prefix(stack[..|stack| - 1])
            && (if |stack| == 1 then q == 0 else q >= 2)
  {
    var init, cur := stack[..|stack| - 1], stack[|stack| - 1];
    PrefixLast(stack);
    var a, s := Prefix(init), Prefix(stack);
    assert s == a + (cur + "/");
    assert s[..|a| - 1] == a[..|a| - 1] && a == a[..|a| - 1] + "/";
    forall k | |a| - 1 < k < |s| - 1
      ensures s[k] != '/'
    {
      assert s[k] == cur[k - |a|];
    }
    if init != [] {
      PrefixLast(init);
    }
  }

  // ------------------------------------------------ reading ahead

  lemma Peek(t: seq<char>, orig: string, src: int, dest: int, j: int)
    requires Unread(t, orig, src, dest) && src <= j <= |orig| && NUL !in orig
    ensures j < |t| && (if j < |orig| then t[j] == orig[j] && t[j] != NUL else t[j] == NUL)
  {
    if j < |orig| {
      assert t[j] == t[src..|orig|][j - src];
      assert orig[j] == orig[src..][j - src] && orig[j] in orig;
    }
  }

  /** What the characters behind a dot say. */
  lemma DotKind(orig: string, src: int)
    requires 0 <= src < |orig| && orig[src] == '.'
    ensures OneDot(orig[src..]) <==> src + 1 == |orig| || orig[src + 1] == '/'
    ensures TwoDots(orig[src..]) <==>
            src + 1 < |orig| && orig[src + 1] == '.' && (src + 2 == |orig| || orig[src + 2] == '/')
    ensures OneDot(orig[src..]) ==> DotsAt(orig, src, ".")
    ensures TwoDots(orig[src..]) ==> DotsAt(orig, src, "..")
    ensures DotsAt(orig, src, ".") ==> src + 1 <= |orig|
    ensures DotsAt(orig, src, "..") ==> src + 2 <= |orig|
  {
  }

  lemma PrefixFacts(t: seq<char>, orig: string, src: int, dest: int, stack: seq<string>)
    requires At10(t, orig, src, dest, stack)
    ensures Unread(t, orig, src, dest) && t[..dest] == Prefix(stack) && Names(stack) && dest == |Prefix(stack)|
    ensures 1 <= dest <= src <= |orig| < |t| && orig != "" && t[0] == '/' && t[dest - 1] == '/'
    ensures stack == [] ==> dest == 1
    ensures stack != [] ==> dest >= 3
  {
    assert t[0] == t[..dest][0] && t[dest - 1] == t[..dest][dest - 1];
    if stack != [] {
      PrefixLast(stack);
    }
  }

  lemma InsideFacts(t: seq<char>, orig: string, src: int, dest: int, stack: seq<string>, cur: string)
    requires At20(t, orig, src, dest, stack, cur)
    ensures Unread(t, orig, src, dest) && 2 <= dest <= src <= |orig| < |t| && orig != "" && t[dest - 1] != '/'
  {
    assert t[dest - 1] == t[..dest][dest - 1] == cur[|cur| - 1];
  }

  // ------------------------------------------------ the machine

  lemma OneDotLands(t: seq<char>, w: seq<char>, orig: string, src: int, dest: int, stack: seq<string>)
    requires At10(t, orig, src, dest, stack) && DotsAt(orig, src, ".") && dest < |t| && src < |t|
    requires w == t[dest := t[src]]
    ensures |w| == |t| && 1 <= dest <= src < |orig| < |t|
    ensures stack == [] ==> dest == 1 && w[0] == '/' && At10(w, orig, src + 1, 1, [])
    ensures stack != [] ==> dest >= 3 && w[dest - 2] != '/' &&
                            At20(w, orig, src + 1, dest - 1, stack[..|stack| - 1], stack[|stack| - 1])
  {
    hide At10, At20, Unread, Goal, Prefix;
    PrefixFacts(t, orig, src, dest, stack);
    AfterDots(t, orig, src, dest, stack, ".");
    if stack == [] {
      Moved(t, orig, src, dest, src + 1, 1, w);
      RootDots(w, orig, src + 1);
    } else {
      Moved(t, orig, src, dest, src + 1, dest - 1, w);
      ShorterPrefix(t, w, dest, dest - 1, stack);
      BackTo(w, orig, src + 1, dest - 1, stack);
      InsideFacts(w, orig, src + 1, dest - 1, stack[..|stack| - 1], stack[|stack| - 1]);
    }
  }

  lemma TwoDotsRoot(t: seq<char>, w: seq<char>, orig: string, src: int, dest: int, stack: seq<string>)
    requires At10(t, orig, src, dest, stack) && DotsAt(orig, src, "..") && dest < |t| && src < |t| && |stack| <= 1
    requires w == t[dest := t[src]]
    ensures |w| == |t| && src + 2 <= |orig| < |t| && 1 <= dest <= src
    ensures w[0] == '/' && At10(w, orig, src + 2, 1, [])
  {
    hide *;
    DotsEnd(orig, src);
    PrefixFacts(t, orig, src, dest, stack);
    AfterDots(t, orig, src, dest, stack, "..");
    PopFacts(stack);
    Moved(t, orig, src, dest, src + 2, 1, w);
    RootDots(w, orig, src + 2);
  }

  lemma TwoDotsInside(t: seq<char>, w: seq<char>, orig: string, src: int, dest: int, stack: seq<string>, back: int)
    requires At10(t, orig, src, dest, stack) && DotsAt(orig, src, "..") && dest < |t| && src < |t| && |stack| > 1
    requires w == t[dest := t[src]] && back == |Prefix(Pop(stack))| - 1
    ensures |w| == |t| && src + 2 <= |orig| < |t| && 1 <= dest <= src
    ensures 2 <= back <= dest && w[back - 1] != '/'
    ensures At20(w, orig, src + 2, back, stack[..|stack| - 2], stack[|stack| - 2])
  {
    hide *;
    DotsEnd(orig, src);
    PrefixFacts(t, orig, src, dest, stack);
    AfterDots(t, orig, src, dest, stack, "..");
    PopFacts(stack);
    SlashBefore(stack);
    Moved(t, orig, src, dest, src + 2, back, w);
    PrefixPart(t, dest, back, Prefix(stack));
    InsideAgain(w, orig, src + 2, back, stack);
  }

  lemma BackToRoot(stack: seq<string>, back: int)
    requires |stack| <= 1 && back == if stack == [] then 0 else |Prefix(stack[..|stack| - 1])| - 1
    ensures back == 0
  {
  }

  lemma DotsEnd(orig: string, src: int)
    requires DotsAt(orig, src, "..")
    ensures 0 <= src && src + 2 <= |orig|
  {
  }

  lemma PrefixPart(t: seq<char>, dest: int, back: int, s: string)
    requires 0 <= back <= dest <= |t| && t[..dest] == s
    ensures back <= |s| && t[..back] == s[..back]
  {
  }

  lemma InsideAgain(w: seq<char>, orig: string, end: int, back: int, stack: seq<string>)
    requires |stack| > 1 && Names(Pop(stack)) && Pop(stack) == stack[..|stack| - 1]
    requires 0 <= back <= end <= |orig| < |w| && Unread(w, orig, end, back) && w[..back] + "/" == Prefix(Pop(stack))
    requires if end < |orig| then orig[end] == '/' && Goal(orig) == Walk(Pop(stack), Split(orig[end + 1..]))
             else Goal(orig) == Pop(stack)
    ensures 2 <= back && w[back - 1] != '/'
    ensures At20(w, orig, end, back, stack[..|stack| - 2], stack[|stack| - 2])
  {
    var rest := Pop(stack);
    assert rest[..|rest| - 1] == stack[..|stack| - 2] && rest[|rest| - 1] == stack[|stack| - 2];
    hide *;
    BackTo(w, orig, end, back, rest);
    InsideFacts(w, orig, end, back, stack[..|stack| - 2], stack[|stack| - 2]);
  }

  /** Behind a slash and a dot. The positions are those before the dot was read;
      it has been read and written. */
  method Dots(target: array<char>, src0: nat, dest0: nat, ghost t: seq<char>, ghost orig: string,
    ghost stack: seq<string>)
    returns (src: int, dest: int, state: int, ghost rest: seq<string>, ghost cur: string)
    requires At10(t, orig, src0, dest0, stack) && src0 < |orig| && orig[src0] == '.' && NUL !in orig
    requires dest0 < |t| && src0 < |t| && target[..] == t[dest0 := t[src0]]
    ensures src0 < src <= |orig| && 0 <= dest <= src && (state == 10 || state == 20)
    ensures state == 10 ==> At10(target[..], orig, src, dest, rest)
    ensures state == 20 ==> At20(target[..], orig, src, dest, rest, cur)
  {
    hide *;
    rest, cur := [], "";
    ghost var w := target[..];
    PrefixFacts(t, orig, src0, dest0, stack);
    ReadOn(t, orig, src0, dest0);
    DotKind(orig, src0);
    src, dest := src0 + 1, dest0 + 1;
    Peek(w, orig, src, dest, src);
    if src < |orig| {
      Peek(w, orig, src, dest, src + 1);
    }
    if target[src] == '/' || target[src] == NUL {
      OneDotLands(t, w, orig, src0, dest0, stack);
      dest := dest - 2;
      if dest - 1 <= 0 {
        dest := dest + 1;
      } else {
        rest, cur := stack[..|stack| - 1], stack[|stack| - 1];
      }
    } else if target[src] == '.' && (target[src + 1] == '/' || target[src + 1] == NUL) {
      src, dest := src + 1, dest - 2;
      if dest - 1 <= 0 {
        dest := dest + 1;
      }
      dest := BackToSlash(target, dest, dest0, t, stack);
      PopFacts(stack);
      if |stack| <= 1 {
        TwoDotsRoot(t, w, orig, src0, dest0, stack);
        BackToRoot(stack, dest);
      } else {
        TwoDotsInside(t, w, orig, src0, dest0, stack, dest);
      }
      if dest - 1 <= 0 {
        dest := dest + 1;
      } else {
        rest, cur := stack[..|stack| - 2], stack[|stack| - 2];
      }
    } else {
      NameBegins(t, orig, src0, dest0, stack);
      rest, cur := stack, [orig[src0]];
    }
    state := if target[dest - 1] == '/' then 10 else 20;
  }

  /** The loop back to the slash before the last component, or to the root. */
  method BackToSlash(target: array<char>, start: int, ghost dest0: int, ghost t: seq<char>, ghost stack: seq<string>)
    returns (dest: int)
    requires Names(stack) && 1 <= dest0 < |t| == target.Length && t[..dest0] == Prefix(stack)
    requires target[..dest0] == t[..dest0] && start == if stack == [] then 1 else dest0 - 1
    ensures 0 <= dest < start && target[dest] == '/'
    ensures dest == if stack == [] then 0 else |Prefix(stack[..|stack| - 1])| - 1
  {
    ghost var s := Prefix(stack);
    ghost var q := if stack == [] then 0 else |Prefix(stack[..|stack| - 1])| - 1;
    if stack != [] {
      SlashBefore(stack);
    }
    hide Prefix;
    dest := start - 1;
    while target[dest] != '/'
      invariant q <= dest < start
      decreases dest
    {
      assert target[..dest0][q] == s[q];
      dest := dest - 1;
    }
    assert target[..dest0][dest] == s[dest];
  }

  lemma PopFacts(stack: seq<string>)
    requires Names(stack)
    ensures Names(Pop(stack)) && Pop(stack) == (if stack == [] then [] else stack[..|stack| - 1])
  {
  }

  lemma ShorterPrefix(t: seq<char>, w: seq<char>, dest0: int, dest: int, stack: seq<string>)
    requires 1 <= dest0 <= |t| && |w| == |t| && t[..dest0] == Prefix(stack) && dest == dest0 - 1
             && w[..dest] == t[..dest]
    ensures w[..dest] + "/" == Prefix(stack)
  {
    assert t[..dest0] == t[..dest] + [t[..dest0][dest]];
  }

  /** The second phase of expand_file_name. m tells where the contracted path
      ends. */
  method Contract(target: array<char>, ghost orig: string) returns (ghost m: int)
    requires |orig| < target.Length && target[..|orig|] == orig && target[|orig|] == NUL
    requires orig != "" && orig[0] == '/' && NUL !in orig
    modifies target
    ensures Ended(target[..], orig, m)
  {
    var src, dest, state := 0, 0, 20;
    ghost var stack: seq<string>, cur: string := [], "";
    hide *;
    Start(target[..], orig);
    while true
      invariant 0 <= dest <= src <= |orig| < target.Length && orig != ""
      invariant state == 10 || state == 20
      invariant state == 10 ==> At10(target[..], orig, src, dest, stack)
      invariant state == 20 && src > 0 ==> At20(target[..], orig, src, dest, stack, cur)
      invariant src == 0 ==> state == 20 && dest == 0 && stack == [] && Unread(target[..], orig, 0, 0)
      decreases |orig| - src
    {
      ghost var t, src0, dest0 := target[..], src, dest;
      if state == 10 {
        PrefixFacts(t, orig, src, dest, stack);
      } else if src > 0 {
        InsideFacts(t, orig, src, dest, stack, cur);
      } else {
        Begin(t, orig);
      }
      Peek(t, orig, src, dest, src);
      ReadOn(t, orig, src, dest);
      var c := target[src];
      target[dest] := c;
      assert target[..] == t[dest := t[src]];
      src, dest := src + 1, dest + 1;
      if state == 20 {
        if c == NUL {
          NameLast(t, orig, src0, dest0, stack, cur);
          return dest - 1;
        } else if c == '/' {
          if src > 1 {
            NameEnds(t, orig, src0, dest0, stack, cur);
            stack := stack + [cur];
          }
          state := 10;
        } else {
          NameGoesOn(t, orig, src0, dest0, stack, cur);
          cur := cur + [c];
        }
      } else if c == NUL {
        SlashLast(t, orig, src0, dest0, stack);
        m := dest - 1;
        if dest - 2 > 0 {
          target[dest - 2] := NUL;
          m := dest - 2;
        }
        return;
      } else if c == '/' {
        dest := 0;
        target[dest] := '/';
        dest := dest + 1;
        RootAgain(t, orig, src0, dest0, stack);
        assert target[..] == t[dest0 := t[src0]][0 := '/'];
        stack := [];
      } else if c == '.' {
        src, dest, state, stack, cur := Dots(target, src - 1, dest - 1, t, orig, stack);
      } else {
        NotDots(orig, src0);
        NameBegins(t, orig, src0, dest0, stack);
        cur := [c];
        state := 20;
      }
    }
  }

  lemma NotDots(orig: string, src: int)
    requires 0 <= src < |orig| && orig[src] != '.'
    ensures !OneDot(orig[src..]) && !TwoDots(orig[src..])
  {
  }

  lemma Start(t: seq<char>, orig: string)
    requires |orig| < |t| && t[..|orig|] == orig && t[|orig|] == NUL && orig != ""
    ensures Unread(t, orig, 0, 0)
  {
    assert orig[0..] == orig;
  }
}
