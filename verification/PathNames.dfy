/** Path names and their components: what contracting "." and ".." is to give. */
module PathNames {

  /** The components between slashes. */
  function Split(s: string): (r: seq<string>)
    ensures |r| >= 1
  {
    if s == "" then [""]
    else
      var r := Split(s[1..]);
      if s[0] == '/' then [""] + r else [[s[0]] + r[0]] + r[1..]
  }

  predicate NoSlash(s: string) {
    forall i :: 0 <= i < |s| ==> s[i] != '/'
  }

  /** An ordinary component. */
  predicate IsName(s: string) {
    s != "" && s != "." && s != ".." && NoSlash(s)
  }

  predicate Names(stack: seq<string>) {
    forall i :: 0 <= i < |stack| ==> IsName(stack[i])
  }

  function Pop(stack: seq<string>): seq<string> {
    if stack == [] then [] else stack[..|stack| - 1]
  }

  /** The components left: an empty one inside the path starts again at the root,
      an empty one at the end is nothing. */
  function Walk(stack: seq<string>, comps: seq<string>): seq<string>
    decreases |comps|
  {
    if comps == [] then stack
    else
      var c, rest := comps[0], comps[1..];
      if c == "" then if rest == [] then stack else Walk([], rest)
      else if c == "." then Walk(stack, rest)
      else if c == ".." then Walk(Pop(stack), rest)
      else Walk(stack + [c], rest)
  }

  function Join(stack: seq<string>): string {
    if stack == [] then ""
    else if |stack| == 1 then stack[0]
    else stack[0] + "/" + Join(stack[1..])
  }

  /** The contracted form of an absolute path. */
  function Normal(path: string): string
    requires path != ""
  {
    "/" + Join(Walk([], Split(path[1..])))
  }

  // ------------------------------------------------ splitting

  lemma {:induction false} SplitPlain(a: string)
    requires NoSlash(a)
    ensures Split(a) == [a]
    decreases |a|
  {
    if a != "" {
      SplitPlain(a[1..]);
      assert a == [a[0]] + a[1..];
    }
  }

  lemma {:induction false} SplitSlash(a: string, b: string)
    requires NoSlash(a)
    ensures Split(a + "/" + b) == [a] + Split(b)
    decreases |a|
  {
    var s := a + "/" + b;
    if a == "" {
      assert s[1..] == b;
    } else {
      assert s[1..] == a[1..] + "/" + b;
      SplitSlash(a[1..], b);
      assert a == [a[0]] + a[1..];
      assert ([a[1..]] + Split(b))[1..] == Split(b);
    }
  }

  /** The first component: everything before the first slash. */
  function First(s: string): (r: string)
    ensures NoSlash(r) && |r| <= |s| && r == s[..|r|] && (|r| < |s| ==> s[|r|] == '/')
  {
    if s == "" || s[0] == '/' then "" else [s[0]] + First(s[1..])
  }

  lemma {:induction false} FirstIs(a: string, b: string)
    requires NoSlash(a) && (b == "" || b[0] == '/')
    ensures First(a + b) == a
    decreases |a|
  {
    if a == "" {
      assert a + b == b;
    } else {
      assert (a + b)[1..] == a[1..] + b;
      FirstIs(a[1..], b);
      assert a == [a[0]] + a[1..];
    }
  }

  /** s begins with the component "." */
  predicate OneDot(s: string) {
    |s| > 0 && s[0] == '.' && (|s| == 1 || s[1] == '/')
  }

  predicate TwoDots(s: string) {
    |s| > 1 && s[0] == '.' && s[1] == '.' && (|s| == 2 || s[2] == '/')
  }

  /** What begins with a character is an ordinary component unless it is dots. */
  lemma NameStarts(s: string)
    requires s != "" && s[0] != '/' && !OneDot(s) && !TwoDots(s)
    ensures IsName(First(s))
  {
    assert |s| > 1 && s[1] != '/' ==> |First(s)| > 1;
    assert |s| > 2 && s[1] != '/' && s[2] != '/' ==> |First(s)| > 2;
  }

  // ------------------------------------------------ a contracted path again

  lemma {:induction false} WalkNames(stack: seq<string>, comps: seq<string>)
    requires Names(stack) && forall i :: 0 <= i < |comps| ==> NoSlash(comps[i])
    ensures Names(Walk(stack, comps))
    decreases |comps|
  {
    if comps != [] {
      var c, rest := comps[0], comps[1..];
      WalkNames([], rest);
      WalkNames(stack, rest);
      WalkNames(Pop(stack), rest);
      if IsName(c) {
        WalkNames(stack + [c], rest);
      }
    }
  }

  lemma {:induction false} SplitNoSlash(s: string)
    ensures forall i :: 0 <= i < |Split(s)| ==> NoSlash(Split(s)[i])
    decreases |s|
  {
    if s != "" {
      SplitNoSlash(s[1..]);
    }
  }

  lemma {:induction false} SplitJoin(stack: seq<string>)
    requires Names(stack) && stack != []
    ensures Split(Join(stack)) == stack
    decreases |stack|
  {
    if |stack| == 1 {
      SplitPlain(stack[0]);
    } else {
      SplitSlash(stack[0], Join(stack[1..]));
      SplitJoin(stack[1..]);
      assert stack == [stack[0]] + stack[1..];
    }
  }

  lemma {:induction false} WalkAlong(done: seq<string>, names: seq<string>)
    requires Names(names)
    ensures Walk(done, names) == done + names
    decreases |names|
  {
    if names != [] {
      WalkAlong(done + [names[0]], names[1..]);
      assert done + names == (done + [names[0]]) + names[1..];
    }
  }

  /** Contracting a path twice is contracting it once. */
  lemma NormalTwice(path: string)
    requires path != ""
    ensures Normal(Normal(path)) == Normal(path)
  {
    var stack := Walk([], Split(path[1..]));
    SplitNoSlash(path[1..]);
    WalkNames([], Split(path[1..]));
    assert Normal(path)[1..] == Join(stack);
    if stack == [] {
      assert Split("") == [""] && Walk([], [""]) == [];
    } else {
      SplitJoin(stack);
      WalkAlong([], stack);
      assert [] + stack == stack;
    }
  }

  /** A contracted path has ordinary components only. */
  lemma NormalNames(path: string)
    requires path != ""
    ensures Normal(path)[0] == '/'
    ensures Normal(path) == "/" || (Names(Split(Normal(path)[1..])) && Normal(path)[1..] != "")
  {
    var stack := Walk([], Split(path[1..]));
    SplitNoSlash(path[1..]);
    WalkNames([], Split(path[1..]));
    assert Normal(path)[1..] == Join(stack);
    if stack != [] {
      SplitJoin(stack);
      assert IsName(stack[0]);
    }
  }

  // ------------------------------------------------ directories

  /** Directories by number, 0 is the root: where ".." leads, and the entries. */
  datatype Tree = Tree(parent: seq<nat>, entry: map<(nat, string), nat>)

  /** Every entry leads to a directory whose ".." leads back; that of the root
      stays there. */
  predicate IsTree(t: Tree) {
    && |t.parent| > 0 && t.parent[0] == 0
    && (forall n :: 0 <= n < |t.parent| ==> t.parent[n] < |t.parent|)
    && (forall k :: k in t.entry ==> t.entry[k] < |t.parent| && t.parent[t.entry[k]] == k.0)
  }

  datatype Place = Nowhere | At(n: nat)

  /** Where the components lead from directory n. An empty one inside the path
      leads to the root. */
  function Follow(t: Tree, n: nat, comps: seq<string>): Place
    requires IsTree(t)
    decreases |comps|
  {
    if n >= |t.parent| then Nowhere
    else if comps == [] then At(n)
    else
      var c, rest := comps[0], comps[1..];
      if c == "" then if rest == [] then At(n) else Follow(t, 0, rest)
      else if c == "." then Follow(t, n, rest)
      else if c == ".." then Follow(t, t.parent[n], rest)
      else if (n, c) in t.entry then Follow(t, t.entry[(n, c)], rest)
      else Nowhere
  }

  lemma {:induction false} FollowOn(t: Tree, n: nat, stack: seq<string>, c: string)
    requires IsTree(t) && Names(stack) && IsName(c)
    ensures Follow(t, n, stack + [c]) ==
            match Follow(t, n, stack) case Nowhere => Nowhere case At(k) => Follow(t, k, [c])
    decreases |stack|
  {
    if n < |t.parent| && stack != [] {
      assert (stack + [c])[1..] == stack[1..] + [c];
      if (n, stack[0]) in t.entry {
        FollowOn(t, t.entry[(n, stack[0])], stack[1..], c);
      }
    }
  }

  /** The names kept on the stack lead to where the walk is. */
  lemma {:induction false} WalkFollows(t: Tree, n: nat, stack: seq<string>, comps: seq<string>)
    requires IsTree(t) && Names(stack) && (forall i :: 0 <= i < |comps| ==> NoSlash(comps[i]))
    requires Follow(t, 0, stack) == At(n) && Follow(t, n, comps).At?
    ensures Follow(t, 0, Walk(stack, comps)) == Follow(t, n, comps)
    decreases |comps|
  {
    if comps != [] {
      var c, rest := comps[0], comps[1..];
      if c == "" {
        if rest != [] {
          WalkFollows(t, 0, [], rest);
        }
      } else if c == "." {
        WalkFollows(t, n, stack, rest);
      } else if c == ".." {
        PopFollows(t, n, stack);
        WalkFollows(t, t.parent[n], Pop(stack), rest);
      } else {
        FollowOn(t, 0, stack, c);
        WalkFollows(t, t.entry[(n, c)], stack + [c], rest);
      }
    }
  }

  lemma PopFollows(t: Tree, n: nat, stack: seq<string>)
    requires IsTree(t) && Names(stack) && Follow(t, 0, stack) == At(n) && n < |t.parent|
    ensures Follow(t, 0, Pop(stack)) == At(t.parent[n])
  {
    if stack != [] {
      var init, c := Pop(stack), stack[|stack| - 1];
      assert stack == init + [c];
      FollowOn(t, 0, init, c);
    }
  }

  /** In every tree of directories a path that leads somewhere leads to the same
      directory when it has been contracted. */
  lemma NormalFollows(t: Tree, path: string)
    requires path != "" && IsTree(t) && Follow(t, 0, Split(path[1..])).At?
    ensures Follow(t, 0, Split(Normal(path)[1..])) == Follow(t, 0, Split(path[1..]))
  {
    var comps := Split(path[1..]);
    var stack := Walk([], comps);
    SplitNoSlash(path[1..]);
    WalkNames([], comps);
    WalkFollows(t, 0, [], comps);
    assert Normal(path)[1..] == Join(stack);
    if stack != [] {
      SplitJoin(stack);
    }
  }
}
