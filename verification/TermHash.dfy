/** The hash value of a ground term, and when terms that compare equal have the
    same one. */
module TermHash {
  import opened TermOrder

  /** What single words hash to: integers, atoms, the first word of a float; and
      the number of values a word has. */
  datatype Codes = Codes(num: int -> nat, atm: string -> nat, flt: (real, bool) -> nat, wrap: nat)

  /** Not a tree, an unbound variable, or a hash value. */
  datatype Hashed = NoTree | Suspended | Hash(h: nat)

  predicate Words(p: Codes) {
    p.wrap > 0 && p.flt(0.0, true) < p.wrap && p.flt(0.0, false) < p.wrap
  }

  /** hval += (hval << 4) + v, in a word. */
  function Mix(p: Codes, h: nat, v: int): nat
    requires p.wrap > 0
  {
    (h + 16 * h + v) % p.wrap
  }

  /** ground_hash_func, from the value h on. */
  function GroundHash(p: Codes, t: Term, h: nat): Hashed
    requires p.wrap > 0
    decreases t, 1
  {
    match t
    case Var(_) => Suspended
    case Int(i) => Hash(Mix(p, h, p.num(i)))
    case Atm(n) => Hash(Mix(p, h, p.atm(n)))
    case Flt(r, neg) => Hash(Mix(p, h, p.flt(r, neg)))
    case Lst(a, d) =>
      var v := GroundHash(p, a, h);
      if v.Hash? then GroundHash(p, d, v.h) else v
    case Str(f, args) =>
      if f.Functor0? then NoTree
      else
        var v := RowHash(p, args, h);
        if v.Hash? then Hash(Mix(p, v.h, p.atm(f.name) + f.arity)) else v
    case Fun(_) => NoTree
    case Obj(_) => NoTree
  }

  function RowHash(p: Codes, s: seq<Term>, h: nat): Hashed
    requires p.wrap > 0
    decreases s, 0
  {
    if s == [] then Hash(h)
    else
      var v := GroundHash(p, s[0], h);
      if v.Hash? then RowHash(p, s[1..], v.h) else v
  }

  /** The function with its accumulator and its loop over the arguments. */
  method GroundHashFunc(p: Codes, t: Term, h: nat) returns (r: Hashed)
    requires p.wrap > 0
    ensures r == GroundHash(p, t, h)
    decreases t
  {
    match t {
      case Var(_) => return Suspended;
      case Int(i) => return Hash(Mix(p, h, p.num(i)));
      case Atm(n) => return Hash(Mix(p, h, p.atm(n)));
      case Flt(x, neg) => return Hash(Mix(p, h, p.flt(x, neg)));
      case Lst(a, d) =>
        r := GroundHashFunc(p, a, h);
        if r.Hash? {
          r := GroundHashFunc(p, d, r.h);
        }
      case Str(f, args) =>
        if f.Functor0? {
          return NoTree;
        }
        var i, hval := 0, h;
        while i < |args|
          invariant 0 <= i <= |args| && RowHash(p, args, h) == RowHash(p, args[i..], hval)
        {
          assert args[i..][1..] == args[i + 1..];
          r := GroundHashFunc(p, args[i], hval);
          if !r.Hash? {
            return;
          }
          hval := r.h;
          i := i + 1;
        }
        return Hash(Mix(p, hval, p.atm(f.name) + f.arity));
      case Fun(_) => return NoTree;
      case Obj(_) => return NoTree;
    }
  }

  // ------------------------------------------------ the parts of a term

  /** The parts of a term that are not taken apart, from left to right. */
  function Parts(t: Term): seq<Term>
    decreases t, 1
  {
    match t
    case Lst(a, d) => Parts(a) + Parts(d)
    case Str(f, args) => if f.Functor? then RowParts(args) else [t]
    case _ => [t]
  }

  function RowParts(s: seq<Term>): seq<Term>
    decreases s, 0
  {
    if s == [] then [] else Parts(s[0]) + RowParts(s[1..])
  }

  predicate HasWord(t: Term) {
    t.Int? || t.Atm? || t.Flt?
  }

  /** What comes of parts hashed one after the other. */
  ghost predicate Outcome(ps: seq<Term>, r: Hashed) {
    && (r.Hash? <==> forall i :: 0 <= i < |ps| ==> HasWord(ps[i]))
    && (r.Suspended? <==> exists i :: FirstWithout(ps, i) && ps[i].Var?)
    && (r.NoTree? <==> exists i :: FirstWithout(ps, i) && !ps[i].Var?)
  }

  /** The first part that is not a word is at i. */
  predicate FirstWithout(ps: seq<Term>, i: int) {
    0 <= i < |ps| && !HasWord(ps[i]) && forall j :: 0 <= j < i ==> HasWord(ps[j])
  }

  lemma OutcomeJoined(ps: seq<Term>, qs: seq<Term>, r: Hashed, q: Hashed)
    requires Outcome(ps, r) && (r.Hash? ==> Outcome(qs, q))
    ensures Outcome(ps + qs, if r.Hash? then q else r)
  {
    var all := ps + qs;
    assert forall i :: 0 <= i < |all| ==> all[i] == if i < |ps| then ps[i] else qs[i - |ps|];
    if r.Hash? {
      if i :| FirstWithout(qs, i) {
        assert FirstWithout(all, |ps| + i);
      }
      if i :| FirstWithout(all, i) {
        assert FirstWithout(qs, i - |ps|);
      }
    } else {
      var i :| FirstWithout(ps, i);
      assert FirstWithout(all, i);
    }
  }

  /** There is a hash value if and only if every part is a number or an atom; if
      not, the first part that is none decides: a variable suspends, anything
      else is no tree. */
  lemma {:induction false} HashedWhen(p: Codes, t: Term, h: nat)
    requires p.wrap > 0
    ensures Outcome(Parts(t), GroundHash(p, t, h))
    decreases t, 1
  {
    match t
    case Lst(a, d) =>
      var v := GroundHash(p, a, h);
      HashedWhen(p, a, h);
      var q := if v.Hash? then GroundHash(p, d, v.h) else v;
      if v.Hash? {
        HashedWhen(p, d, v.h);
      }
      OutcomeJoined(Parts(a), Parts(d), v, q);
    case Str(f, args) =>
      if f.Functor? {
        RowHashed(p, args, h);
        SameKind(RowParts(args), RowHash(p, args, h), GroundHash(p, t, h));
      } else {
        assert FirstWithout([t], 0);
      }
    case Int(_) =>
    case Flt(_, _) =>
    case Atm(_) =>
    case Fun(_) => assert FirstWithout([t], 0);
    case Obj(_) => assert FirstWithout([t], 0);
    case Var(_) => assert FirstWithout([t], 0);
  }

  lemma SameKind(ps: seq<Term>, r: Hashed, q: Hashed)
    requires Outcome(ps, r) && (if r.Hash? then q.Hash? else q == r)
    ensures Outcome(ps, q)
  {
  }

  lemma {:induction false} RowHashed(p: Codes, s: seq<Term>, h: nat)
    requires p.wrap > 0
    ensures Outcome(RowParts(s), RowHash(p, s, h))
    decreases s, 0
  {
    if s != [] {
      var v := GroundHash(p, s[0], h);
      HashedWhen(p, s[0], h);
      var q := if v.Hash? then RowHash(p, s[1..], v.h) else v;
      if v.Hash? {
        RowHashed(p, s[1..], v.h);
      }
      OutcomeJoined(Parts(s[0]), RowParts(s[1..]), v, q);
    }
  }

  // ------------------------------------------------ the words mixed

  /** The numbers mixed into the value: one for every part, and one for every
      structure behind those of its arguments. */
  function Mixed(p: Codes, t: Term): seq<int>
    decreases t, 1
  {
    match t
    case Int(i) => [p.num(i)]
    case Atm(n) => [p.atm(n)]
    case Flt(r, neg) => [p.flt(r, neg)]
    case Lst(a, d) => Mixed(p, a) + Mixed(p, d)
    case Str(f, args) => RowMixed(p, args) + if f.Functor? then [p.atm(f.name) + f.arity] else []
    case _ => []
  }

  function RowMixed(p: Codes, s: seq<Term>): seq<int>
    decreases s, 0
  {
    if s == [] then [] else Mixed(p, s[0]) + RowMixed(p, s[1..])
  }

  function MixAll(p: Codes, h: nat, vs: seq<int>): nat
    requires p.wrap > 0
    decreases vs
  {
    if vs == [] then h else MixAll(p, Mix(p, h, vs[0]), vs[1..])
  }

  lemma {:induction false} MixJoined(p: Codes, h: nat, vs: seq<int>, ws: seq<int>)
    requires p.wrap > 0
    ensures MixAll(p, h, vs + ws) == MixAll(p, MixAll(p, h, vs), ws)
    decreases vs
  {
    if vs == [] {
      assert vs + ws == ws;
    } else {
      assert (vs + ws)[1..] == vs[1..] + ws;
      MixJoined(p, Mix(p, h, vs[0]), vs[1..], ws);
    }
  }

  /** The value of a term is that of its words, mixed in one after the other. */
  lemma {:induction false} HashMixes(p: Codes, t: Term, h: nat)
    requires p.wrap > 0 && GroundHash(p, t, h).Hash?
    ensures GroundHash(p, t, h).h == MixAll(p, h, Mixed(p, t))
    decreases t, 1
  {
    hide Mix;
    match t
    case Lst(a, d) =>
      HashMixes(p, a, h);
      HashMixes(p, d, GroundHash(p, a, h).h);
      MixJoined(p, h, Mixed(p, a), Mixed(p, d));
    case Str(f, args) =>
      RowMixes(p, args, h);
      MixJoined(p, h, RowMixed(p, args), [p.atm(f.name) + f.arity]);
      MixOne(p, RowHash(p, args, h).h, p.atm(f.name) + f.arity);
    case Int(i) => MixOne(p, h, p.num(i));
    case Flt(r, neg) => MixOne(p, h, p.flt(r, neg));
    case Atm(n) => MixOne(p, h, p.atm(n));
  }

  lemma MixOne(p: Codes, h: nat, v: int)
    requires p.wrap > 0
    ensures MixAll(p, h, [v]) == Mix(p, h, v)
  {
  }

  lemma {:induction false} RowMixes(p: Codes, s: seq<Term>, h: nat)
    requires p.wrap > 0 && RowHash(p, s, h).Hash?
    ensures RowHash(p, s, h).h == MixAll(p, h, RowMixed(p, s))
    decreases s, 0
  {
    hide Mix;
    if s != [] {
      HashMixes(p, s[0], h);
      RowMixes(p, s[1..], GroundHash(p, s[0], h).h);
      MixJoined(p, h, Mixed(p, s[0]), RowMixed(p, s[1..]));
    }
  }

  /** Ground terms have a hash value. */
  lemma {:induction false} GroundHashes(p: Codes, t: Term, h: nat)
    requires p.wrap > 0 && Ground(t)
    ensures GroundHash(p, t, h).Hash?
    decreases t, 1
  {
    match t
    case Lst(a, d) =>
      GroundHashes(p, a, h);
      GroundHashes(p, d, GroundHash(p, a, h).h);
    case Str(f, args) => RowHashes(p, args, h);
    case Int(_) =>
    case Flt(_, _) =>
    case Atm(_) =>
  }

  lemma {:induction false} RowHashes(p: Codes, s: seq<Term>, h: nat)
    requires p.wrap > 0 && AllGround(s)
    ensures RowHash(p, s, h).Hash?
    decreases s, 0
  {
    if s != [] {
      GroundHashes(p, s[0], h);
      RowHashes(p, s[1..], GroundHash(p, s[0], h).h);
    }
  }

  /** The signs of zeros do not matter to the hash value if they do not matter to
      the word hashed. */
  lemma {:induction false} UnsignedHash(p: Codes, t: Term, h: nat)
    requires p.wrap > 0 && Ground(t) && p.flt(0.0, true) == p.flt(0.0, false)
    ensures GroundHash(p, Unsigned(t), h) == GroundHash(p, t, h)
    decreases t, 1
  {
    match t
    case Lst(a, d) =>
      UnsignedHash(p, a, h);
      GroundHashes(p, a, h);
      UnsignedHash(p, d, GroundHash(p, a, h).h);
    case Str(f, args) => UnsignedRow(p, args, h);
    case Int(_) =>
    case Flt(_, _) =>
    case Atm(_) =>
  }

  lemma {:induction false} UnsignedRow(p: Codes, s: seq<Term>, h: nat)
    requires p.wrap > 0 && AllGround(s) && p.flt(0.0, true) == p.flt(0.0, false)
    ensures RowHash(p, AllUnsigned(s), h) == RowHash(p, s, h)
    decreases s, 0
  {
    if s != [] {
      UnsignedHash(p, s[0], h);
      GroundHashes(p, s[0], h);
      UnsignedRow(p, s[1..], GroundHash(p, s[0], h).h);
      assert AllUnsigned(s)[1..] == AllUnsigned(s[1..]) && AllUnsigned(s)[0] == Unsigned(s[0]);
    }
  }

  /** Two keys that compare equal. */
  predicate SameKey(x: Term, y: Term) {
    Ground(x) && Ground(y) && Compare(x, y, EQUAL) == Order(EQUAL)
  }

  predicate SameHash(p: Codes, x: Term, y: Term, h: nat)
    requires p.wrap > 0
  {
    GroundHash(p, x, h) == GroundHash(p, y, h)
  }

  /** Keys that compare equal have one hash value, so that a table finds a key
      set under the other, if and only if the two zeros hash alike. */
  lemma HashExactly(p: Codes)
    requires Words(p)
    ensures (forall x, y, h: nat :: SameKey(x, y) ==> SameHash(p, x, y, h)) <==>
            p.flt(0.0, true) == p.flt(0.0, false)
  {
    var x, y := Flt(0.0, true), Flt(0.0, false);
    assert SameKey(x, y);
    if forall x, y, h: nat :: SameKey(x, y) ==> SameHash(p, x, y, h) {
      assert SameHash(p, x, y, 0);
      Word(p, p.flt(0.0, true));
      Word(p, p.flt(0.0, false));
    }
    if p.flt(0.0, true) == p.flt(0.0, false) {
      forall x, y, h: nat | SameKey(x, y)
        ensures SameHash(p, x, y, h)
      {
        CompareIs(x, y, EQUAL);
        EqualIff(x, y);
        UnsignedHash(p, x, h);
        UnsignedHash(p, y, h);
      }
    }
  }

  lemma Word(p: Codes, v: nat)
    requires p.wrap > 0 && v < p.wrap
    ensures Mix(p, 0, v) == v
  {
  }

  /** A table of terms is a table over keys without signed zeros, each with the
      hash value of any term that compares equal to it. */
  function KeyHash(p: Codes, k: Term): nat
    requires p.wrap > 0
  {
    var v := GroundHash(p, k, 0);
    if v.Hash? then v.h else 0
  }

  /** A key set under one term is looked for under any term that compares equal,
      with the hash value computed for that term. */
  lemma KeyFound(p: Codes, x: Term, y: Term)
    requires Words(p) && p.flt(0.0, true) == p.flt(0.0, false) && Ground(x) && Ground(y)
    ensures SameKey(x, y) <==> Unsigned(x) == Unsigned(y)
    ensures GroundHash(p, x, 0) == Hash(KeyHash(p, Unsigned(x)))
  {
    CompareIs(x, y, EQUAL);
    EqualIff(x, y);
    UnsignedHash(p, x, 0);
    GroundHashes(p, x, 0);
  }
}
