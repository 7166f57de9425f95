/** The bitset code of the finite-domain solver. A domain is a block of eight
    32-bit words; bit 0 of word 0 stands for the value 0. */
module FdWords {

  /** A 32-bit word by its bits, most significant first. */
  type Word = w: seq<bool> | |w| == 32 witness seq(32, _ => false)

  function Zero(): Word { seq(32, _ => false) }
  function Ones(): Word { seq(32, _ => true) }

  /** The mask table: the word whose only bit is bit k. */
  function Mask(k: int): Word {
    seq(32, j => j == k)
  }

  /** The word whose first n bits are set: 0xFFFF0000 is TopBits(16). */
  function TopBits(n: int): Word {
    seq(32, j => j < n)
  }

  function And(a: Word, b: Word): Word {
    seq(32, j requires 0 <= j < 32 => a[j] && b[j])
  }

  function Or(a: Word, b: Word): Word {
    seq(32, j requires 0 <= j < 32 => a[j] || b[j])
  }

  function Not(a: Word): Word {
    seq(32, j requires 0 <= j < 32 => !a[j])
  }

  function Shr(w: Word, i: nat): Word {
    seq(32, j requires 0 <= j < 32 => j >= i && w[j - i])
  }

  function Shl(w: Word, i: nat): Word {
    seq(32, j requires 0 <= j < 32 => j + i < 32 && w[j + i])
  }

  /** The unsigned number a row of bits stands for. */
  function Value(w: seq<bool>): nat {
    if w == [] then 0
    else 2 * Value(w[..|w| - 1]) + if w[|w| - 1] then 1 else 0
  }

  function Pow2(n: nat): nat {
    if n == 0 then 1 else 2 * Pow2(n - 1)
  }

  /** A number reaches 2^m just when one of the bits above the last m is set. */
  lemma {:induction false} ValueReaches(w: seq<bool>, m: nat)
    ensures Value(w) >= Pow2(m) <==> exists k :: 0 <= k < |w| - m && w[k]
  {
    if w == [] {
      assert Pow2(m) >= 1 by { Pow2Positive(m); }
    } else {
      var v := w[..|w| - 1];
      if m == 0 {
        ValueReaches(v, 0);
        if Value(w) >= 1 && !w[|w| - 1] {
          var k :| 0 <= k < |v| && v[k];
          assert w[k];
        }
        if k :| 0 <= k < |w| && w[k] {
          assert k < |v| ==> v[k];
        }
      } else {
        ValueReaches(v, m - 1);
        assert forall k :: 0 <= k < |v| ==> v[k] == w[k];
      }
    }
  }

  lemma {:induction false} Pow2Positive(n: nat)
    ensures Pow2(n) >= 1
  {
    if n > 0 {
      Pow2Positive(n - 1);
    }
  }

  // ------------------------------------------------ sets of values

  predicate Between(i: int, v: int, j: int) {
    i <= v <= j
  }

  ghost function Interval(i: int, j: int): (s: set<int>)
    ensures forall v :: v in s <==> i <= v <= j
  {
    set v | i <= v <= j && Between(i, v, j)
  }

  /** The values a domain can hold. */
  ghost function Universe(): set<int> {
    Interval(0, 255)
  }

  ghost function Shifted(s: set<int>, k: int): (t: set<int>)
    ensures forall v :: v in t <==> v - k in s && v in Universe()
  {
    set v | v in Universe() && v - k in s
  }

  ghost function Lowered(s: set<int>, k: int): (t: set<int>)
    ensures forall v :: v in t <==> v + k in s && v in Universe()
  {
    set v | v in Universe() && v + k in s
  }

  /** The set a row of words stands for. */
  ghost function SetOf(ws: seq<Word>): set<int> {
    set v | 0 <= v < 32 * |ws| && BitOf(ws, v)
  }

  ghost predicate BitOf(ws: seq<Word>, v: int) {
    exists a, b :: 0 <= a < |ws| && 0 <= b < 32 && ws[a][b] && v == 32 * a + b
  }

  /** Bit b of word a tells whether 32a + b is in s. */
  ghost predicate Shows(ws: seq<Word>, s: set<int>) {
    s <= Interval(0, 32 * |ws| - 1) &&
    forall a, b :: 0 <= a < |ws| && 0 <= b < 32 ==> ws[a][b] == (32 * a + b in s)
  }

  lemma ShowsSetOf(ws: seq<Word>)
    ensures Shows(ws, SetOf(ws))
  {
    forall a, b | 0 <= a < |ws| && 0 <= b < 32
      ensures ws[a][b] == (32 * a + b in SetOf(ws))
    {
      if 32 * a + b in SetOf(ws) {
        var c, d :| 0 <= c < |ws| && 0 <= d < 32 && ws[c][d] && 32 * a + b == 32 * c + d;
        assert a == c;
      }
    }
  }

  lemma ShowsOne(ws: seq<Word>, s: set<int>)
    requires Shows(ws, s)
    ensures SetOf(ws) == s
  {
    ShowsSetOf(ws);
    forall v | 0 <= v < 32 * |ws|
      ensures v in SetOf(ws) <==> v in s
    {
      assert v == 32 * (v / 32) + v % 32;
      assert ws[v / 32][v % 32] == (v in s);
      assert ws[v / 32][v % 32] == (v in SetOf(ws));
    }
  }

  /** The test of a value against its word and mask. */
  lemma MaskTest(ws: seq<Word>, v: int)
    requires 0 <= v < 32 * |ws|
    ensures NonZero(And(ws[v / 32], Mask(v % 32))) <==> v in SetOf(ws)
  {
    ShowsSetOf(ws);
    var w, b := ws[v / 32], v % 32;
    assert w[b] == (v in SetOf(ws));
    assert And(w, Mask(b))[b] == w[b];
  }

  // ------------------------------------------------ the two bounds of one word

  predicate NonZero(w: Word) {
    exists k :: 0 <= k < 32 && w[k]
  }

  predicate TopClear(w: Word, n: int) {
    forall k :: 0 <= k < n && k < 32 ==> !w[k]
  }

  /** The state of the binary search for the first set bit of x0: x is x0
      shifted right by i, is not zero, and has nothing above its last n bits. */
  ghost predicate TopSearch(x0: Word, i: int, x: Word, n: int) {
    0 <= i && x == Shr(x0, i) && NonZero(x) && TopClear(x, 32 - n)
  }

  lemma HalveTop(x0: Word, i: int, x: Word, n: int)
    requires 1 <= n <= 16 && TopSearch(x0, i, x, 2 * n)
    ensures Value(x) >= Pow2(n) ==> TopSearch(x0, i + n, Shr(x, n), n)
    ensures Value(x) < Pow2(n) ==> TopSearch(x0, i, x, n)
  {
    ValueReaches(x, n);
    hide Value, Pow2;
    if Value(x) >= Pow2(n) {
      TopHalf(x0, i, x, n);
    }
  }

  lemma TopHalf(x0: Word, i: int, x: Word, n: int)
    requires 1 <= n <= 16 && TopSearch(x0, i, x, 2 * n) && exists k :: 0 <= k < 32 - n && x[k]
    ensures TopSearch(x0, i + n, Shr(x, n), n)
  {
    var k :| 0 <= k < 32 - n && x[k];
    assert Shr(x, n)[k + n];
    ShrTwice(x0, i, n);
  }

  lemma ShrTwice(x0: Word, i: int, n: int)
    requires 0 <= i && 0 <= n
    ensures Shr(Shr(x0, i), n) == Shr(x0, i + n)
  {
  }

  lemma FirstBit(x0: Word, i: int, x: Word)
    requires TopSearch(x0, i, x, 1)
    ensures 0 <= i <= 31 && x0[31 - i]
    ensures forall k :: 0 <= k < 31 - i ==> !x0[k]
  {
    var b :| 0 <= b < 32 && x[b];
    assert b == 31;
    forall k | 0 <= k < 31 - i
      ensures !x0[k]
    {
      assert !x[k + i];
    }
  }

  lemma SearchPowers()
    ensures Pow2(16) == 0x10000 && Pow2(8) == 0x100 && Pow2(4) == 0x10 && Pow2(2) == 0x4 && Pow2(1) == 0x2
  {
  }

  lemma TopSearchStart(x0: Word)
    requires NonZero(x0)
    ensures TopSearch(x0, 0, x0, 32)
    ensures NonZero(And(Mask(0), x0)) <==> x0[0]
  {
    assert And(Mask(0), x0)[0] == x0[0];
    assert x0 == Shr(x0, 0);
  }

  /** The first set bit of word j, by binary search on the word's value. */
  method MinB(x0: Word, j: int) returns (r: int)
    requires NonZero(x0)
    ensures 0 <= r - j * 32 < 32 && x0[r - j * 32]
    ensures forall k :: 0 <= k < r - j * 32 ==> !x0[k]
  {
    hide *;
    TopSearchStart(x0);
    if NonZero(And(Mask(0), x0)) {
      return j * 32;
    }
    SearchPowers();
    var x, i := x0, 0;
    HalveTop(x0, i, x, 16);
    if Value(x) >= 0x10000 { x, i := Shr(x, 16), i + 16; }
    HalveTop(x0, i, x, 8);
    if Value(x) >= 0x100 { x, i := Shr(x, 8), i + 8; }
    HalveTop(x0, i, x, 4);
    if Value(x) >= 0x10 { x, i := Shr(x, 4), i + 4; }
    HalveTop(x0, i, x, 2);
    if Value(x) >= 0x4 { x, i := Shr(x, 2), i + 2; }
    HalveTop(x0, i, x, 1);
    if Value(x) >= 0x2 { FirstBit(x0, i + 1, Shr(x, 1)); i := i + 1; } else { FirstBit(x0, i, x); }
    r := (32 - i - 1) + j * 32;
  }

  predicate EndClear(w: Word, n: int) {
    forall k :: 32 - n <= k < 32 && 0 <= k ==> !w[k]
  }

  /** The state of the search for the last set bit of x0: x is x0 shifted right
      by i, the bits it lost were clear, and one of its last n bits is set. */
  ghost predicate EndSearch(x0: Word, i: int, x: Word, n: int) {
    0 <= i && x == Shr(x0, i) && EndClear(x0, i) && !EndClear(x, n)
  }

  lemma EndSearchStart(x0: Word)
    requires NonZero(x0)
    ensures EndSearch(x0, 0, x0, 32)
  {
    assert x0 == Shr(x0, 0);
  }

  lemma HalveEnd(x0: Word, i: int, x: Word, n: int)
    requires 1 <= n <= 16 && EndSearch(x0, i, x, 2 * n)
    ensures x == And(x, TopBits(32 - n)) ==> EndSearch(x0, i + n, Shr(x, n), n)
    ensures x != And(x, TopBits(32 - n)) ==> EndSearch(x0, i, x, n)
  {
    if EndClear(x, n) {
      assert x == And(x, TopBits(32 - n));
    }
    if x == And(x, TopBits(32 - n)) {
      assert forall k :: 32 - n <= k < 32 ==> x[k] == And(x, TopBits(32 - n))[k];
      var k :| 32 - 2 * n <= k < 32 && 0 <= k && x[k];
      assert Shr(x, n)[k + n];
      ShrTwice(x0, i, n);
      EndClearMore(x0, i, x, n);
    }
  }

  lemma EndClearMore(x0: Word, i: int, x: Word, n: int)
    requires 0 <= i && 1 <= n && x == Shr(x0, i) && EndClear(x0, i) && EndClear(x, n)
    ensures EndClear(x0, i + n)
  {
    forall k | 32 - (i + n) <= k < 32 && 0 <= k
      ensures !x0[k]
    {
      if k < 32 - i {
        assert x[k + i] == x0[k];
      }
    }
  }

  /** The last set bit of word j. */
  method MaxB(x0: Word, j: int) returns (r: int)
    requires NonZero(x0)
    ensures 0 <= r - j * 32 < 32 && x0[r - j * 32]
    ensures forall k :: r - j * 32 < k < 32 ==> !x0[k]
  {
    hide *;
    EndSearchStart(x0);
    var x, i := x0, 0;
    HalveEnd(x0, i, x, 16);
    if x == And(x, TopBits(16)) { x, i := Shr(x, 16), i + 16; }
    HalveEnd(x0, i, x, 8);
    if x == And(x, TopBits(24)) { x, i := Shr(x, 8), i + 8; }
    HalveEnd(x0, i, x, 4);
    if x == And(x, TopBits(28)) { x, i := Shr(x, 4), i + 4; }
    HalveEnd(x0, i, x, 2);
    if x == And(x, TopBits(30)) { x, i := Shr(x, 2), i + 2; }
    HalveEnd(x0, i, x, 1);
    if x == And(x, TopBits(31)) { x, i := Shr(x, 1), i + 1; }
    LastBit(x0, i, x);
    r := (32 - i - 1) + j * 32;
  }

  lemma LastBit(x0: Word, i: int, x: Word)
    requires EndSearch(x0, i, x, 1)
    ensures 0 <= i <= 31 && x0[31 - i]
    ensures forall k :: 31 - i < k < 32 ==> !x0[k]
  {
    var b :| 31 <= b < 32 && x[b];
    assert b == 31;
  }

  // ------------------------------------------------ blocks of eight words

  /** The domain block that starts at word o of the heap. */
  ghost function Block(m: array<Word>, o: int): seq<Word>
    requires 0 <= o <= m.Length - 8
    reads m
  {
    m[o..o + 8]
  }

  /** Nothing outside the block at o changes. */
  twostate predicate OnlyBlock(m: array<Word>, o: int)
    requires 0 <= o <= m.Length - 8
    reads m
  {
    forall k :: 0 <= k < m.Length && !(o <= k < o + 8) ==> m[k] == old(m[k])
  }

  lemma ZeroShows(ws: seq<Word>)
    requires |ws| == 8 && forall q :: 0 <= q < 8 ==> ws[q] == Zero()
    ensures Shows(ws, {})
  {
  }

  lemma OneWordShows(ws: seq<Word>, i: int, j: int)
    requires |ws| == 8 && 0 <= i <= j < 32
    requires ws[0] == And(Shl(Ones(), 31 - j), Shr(Ones(), i))
    requires forall q :: 1 <= q < 8 ==> ws[q] == Zero()
    ensures Shows(ws, Interval(i, j))
  {
  }

  lemma SplitShows(ws: seq<Word>, i: int, j: int)
    requires |ws| == 8 && 0 <= i <= j < 256
    requires forall q :: 0 <= q < i / 32 || j / 32 < q < 8 ==> ws[q] == Zero()
    requires forall q :: i / 32 < q < j / 32 ==> ws[q] == Ones()
    requires i / 32 == j / 32 ==> ws[i / 32] == And(Shr(Ones(), i % 32), Shl(Ones(), 31 - j % 32))
    requires i / 32 < j / 32 ==> ws[i / 32] == Shr(Ones(), i % 32) && ws[j / 32] == Shl(Ones(), 31 - j % 32)
    ensures Shows(ws, Interval(i, j))
  {
    forall a, b | 0 <= a < 8 && 0 <= b < 32
      ensures ws[a][b] == (i <= 32 * a + b <= j)
    {
      assert i == (i / 32) * 32 + i % 32 && j == (j / 32) * 32 + j % 32;
    }
  }

  /** Fills a block with the values i..j, clipped below at 0. The answer false
      is the fatal error "Overflow in domain". */
  method FillRange(i0: int, j: int, m: array<Word>, o: int) returns (ok: bool)
    requires 0 <= o <= m.Length - 8
    modifies m
    ensures OnlyBlock(m, o)
    ensures ok <==> i0 > j || j < 256
    ensures ok ==> SetOf(Block(m, o)) == Interval(i0, j) * Universe()
  {
    hide And, Shl, Shr, Ones, Zero, Shows, SetOf;
    var i := i0;
    if i > j || j < 0 {
      for k := 0 to 8
        invariant OnlyBlock(m, o)
        invariant forall q :: o <= q < o + k ==> m[q] == Zero()
      {
        m[o + k] := Zero();
      }
      ZeroShows(Block(m, o));
      ShowsOne(Block(m, o), {});
      return true;
    }
    if j > 255 {
      return false;
    }
    if i < 0 {
      i := 0;
    }
    if j < 32 {
      m[o] := And(Shl(Ones(), 31 - j), Shr(Ones(), i));
      for k := 1 to 8
        invariant OnlyBlock(m, o)
        invariant m[o] == And(Shl(Ones(), 31 - j), Shr(Ones(), i))
        invariant forall q :: o + 1 <= q < o + k ==> m[q] == Zero()
      {
        m[o + k] := Zero();
      }
      OneWordShows(Block(m, o), i, j);
      ShowsOne(Block(m, o), Interval(i, j));
      return true;
    }
    ok := true;
    RangeLong(i, j, m, o);
    SplitShows(Block(m, o), i, j);
    ShowsOne(Block(m, o), Interval(i, j));
    assert Interval(i, j) * Universe() == Interval(i0, j) * Universe();
  }

  /** The part of Range for an upper bound outside word 0. */
  method RangeLong(i: int, j: int, m: array<Word>, o: int)
    requires 0 <= o <= m.Length - 8
    requires 0 <= i <= j < 256
    modifies m
    ensures OnlyBlock(m, o)
    ensures forall q :: o <= q < o + i / 32 || o + j / 32 < q < o + 8 ==> m[q] == Zero()
    ensures forall q :: o + i / 32 < q < o + j / 32 ==> m[q] == Ones()
    ensures i / 32 == j / 32 ==> m[o + i / 32] == And(Shr(Ones(), i % 32), Shl(Ones(), 31 - j % 32))
    ensures i / 32 < j / 32 ==> m[o + i / 32] == Shr(Ones(), i % 32) && m[o + j / 32] == Shl(Ones(), 31 - j % 32)
  {
    hide And, Shl, Shr, Ones, Zero;
    var first, last := i / 32, j / 32;
    assert 0 <= first <= last < 8;
    var k := 0;
    while k < first
      invariant 0 <= k <= first
      invariant OnlyBlock(m, o)
      invariant forall q :: o <= q < o + k ==> m[q] == Zero()
    {
      m[o + k] := Zero();
      k := k + 1;
    }
    m[o + k] := Shr(Ones(), i % 32);
    var l := 8 - 1;
    while l > last
      invariant last <= l < 8
      invariant OnlyBlock(m, o)
      invariant forall q :: o <= q < o + first ==> m[q] == Zero()
      invariant m[o + first] == Shr(Ones(), i % 32)
      invariant forall q :: o + l < q < o + 8 ==> m[q] == Zero()
    {
      m[o + l] := Zero();
      l := l - 1;
    }
    if k == l {
      m[o + l] := And(m[o + l], Shl(Ones(), 31 - j % 32));
    } else {
      m[o + l] := Shl(Ones(), 31 - j % 32);
      k := k + 1;
      while k < l
        invariant first < k <= l
        invariant OnlyBlock(m, o)
        invariant forall q :: o <= q < o + first ==> m[q] == Zero()
        invariant m[o + first] == Shr(Ones(), i % 32)
        invariant forall q :: o + first < q < o + k ==> m[q] == Ones()
        invariant m[o + l] == Shl(Ones(), 31 - j % 32)
        invariant forall q :: o + l < q < o + 8 ==> m[q] == Zero()
      {
        m[o + k] := Ones();
        k := k + 1;
      }
    }
  }

  // ------------------------------------------------ translation

  /** A shift distance for which C defines all shifts of bit_add and bit_sub: for
      a positive multiple of 32 they shift a word by its full width. */
  predicate Shiftable(k: int) {
    k == 0 || (k > 0 && k % 32 != 0)
  }

  /** Word j after the words moved up by c places. */
  ghost function WordUp(ws: seq<Word>, c: int, j: int): Word {
    if 0 <= j - c < |ws| then ws[j - c] else Zero()
  }

  lemma WordsUpShow(ws: seq<Word>, s: set<int>, us: seq<Word>, c: nat)
    requires |ws| == |us| == 8 && Shows(ws, s)
    requires forall j :: 0 <= j < 8 ==> us[j] == WordUp(ws, c, j)
    ensures Shows(us, Shifted(s, 32 * c))
  {
    var t := Shifted(s, 32 * c);
    forall a, b | 0 <= a < 8 && 0 <= b < 32
      ensures us[a][b] == (32 * a + b in t)
    {
      assert 32 * a + b - 32 * c == 32 * (a - c) + b;
      if 0 <= a - c < 8 {
        assert ws[a - c][b] == (32 * (a - c) + b in s);
      }
    }
  }

  /** Word j after the words moved down by c places. */
  ghost function WordDown(ws: seq<Word>, c: nat, j: int): Word {
    if 0 <= j + c < |ws| then ws[j + c] else Zero()
  }

  lemma WordsDownShow(ws: seq<Word>, s: set<int>, us: seq<Word>, c: nat)
    requires |ws| == |us| == 8 && Shows(ws, s)
    requires forall j :: 0 <= j < 8 ==> us[j] == WordDown(ws, c, j)
    ensures Shows(us, Lowered(s, 32 * c))
  {
    var t := Lowered(s, 32 * c);
    forall a, b | 0 <= a < 8 && 0 <= b < 32
      ensures us[a][b] == (32 * a + b in t)
    {
      assert 32 * a + b + 32 * c == 32 * (a + c) + b;
      if a + c < 8 {
        assert ws[a + c][b] == (32 * (a + c) + b in s);
      }
    }
  }

  /** Word j after every bit moved up by i places. */
  ghost function BitsUp(ws: seq<Word>, i: nat, j: int): Word
    requires 0 <= j < |ws| && i < 32
  {
    Or(Shr(ws[j], i), if j > 0 then Shl(ws[j - 1], 32 - i) else Zero())
  }

  lemma BitsUpShow(ws: seq<Word>, s: set<int>, us: seq<Word>, i: nat)
    requires |ws| == |us| == 8 && Shows(ws, s) && i < 32
    requires forall j :: 0 <= j < 8 ==> us[j] == BitsUp(ws, i, j)
    ensures Shows(us, Shifted(s, i))
  {
    forall a, b | 0 <= a < 8 && 0 <= b < 32
      ensures us[a][b] == (32 * a + b in Shifted(s, i))
    {
      if b >= i {
        assert ws[a][b - i] == (32 * a + (b - i) in s);
      } else if a > 0 {
        assert ws[a - 1][b - i + 32] == (32 * (a - 1) + (b - i + 32) in s);
      }
    }
  }

  /** Word j after every bit moved down by i places. */
  ghost function BitsDown(ws: seq<Word>, i: nat, j: int): Word
    requires 0 <= j < |ws| && i < 32
  {
    Or(Shl(ws[j], i), if j < |ws| - 1 then Shr(ws[j + 1], 32 - i) else Zero())
  }

  lemma BitsDownShow(ws: seq<Word>, s: set<int>, us: seq<Word>, i: nat)
    requires |ws| == |us| == 8 && Shows(ws, s) && i < 32
    requires forall j :: 0 <= j < 8 ==> us[j] == BitsDown(ws, i, j)
    ensures Shows(us, Lowered(s, i))
  {
    forall a, b | 0 <= a < 8 && 0 <= b < 32
      ensures us[a][b] == (32 * a + b in Lowered(s, i))
    {
      if b + i < 32 {
        assert ws[a][b + i] == (32 * a + (b + i) in s);
      } else if a < 7 {
        assert ws[a + 1][b + i - 32] == (32 * (a + 1) + (b + i - 32) in s);
      }
    }
  }

  lemma WordsMovedUp(ws: seq<Word>, us: seq<Word>, c: nat)
    requires |ws| == |us| == 8 && forall j :: 0 <= j < 8 ==> us[j] == WordUp(ws, c, j)
    ensures SetOf(us) == Shifted(SetOf(ws), 32 * c)
  {
    ShowsSetOf(ws);
    WordsUpShow(ws, SetOf(ws), us, c);
    ShowsOne(us, Shifted(SetOf(ws), 32 * c));
  }

  lemma WordsMovedDown(ws: seq<Word>, us: seq<Word>, c: nat)
    requires |ws| == |us| == 8 && forall j :: 0 <= j < 8 ==> us[j] == WordDown(ws, c, j)
    ensures SetOf(us) == Lowered(SetOf(ws), 32 * c)
  {
    ShowsSetOf(ws);
    WordsDownShow(ws, SetOf(ws), us, c);
    ShowsOne(us, Lowered(SetOf(ws), 32 * c));
  }

  lemma BitsMovedUp(ws: seq<Word>, us: seq<Word>, i: nat)
    requires |ws| == |us| == 8 && i < 32 && forall j :: 0 <= j < 8 ==> us[j] == BitsUp(ws, i, j)
    ensures SetOf(us) == Shifted(SetOf(ws), i)
  {
    ShowsSetOf(ws);
    BitsUpShow(ws, SetOf(ws), us, i);
    ShowsOne(us, Shifted(SetOf(ws), i));
  }

  lemma BitsMovedDown(ws: seq<Word>, us: seq<Word>, i: nat)
    requires |ws| == |us| == 8 && i < 32 && forall j :: 0 <= j < 8 ==> us[j] == BitsDown(ws, i, j)
    ensures SetOf(us) == Lowered(SetOf(ws), i)
  {
    ShowsSetOf(ws);
    BitsDownShow(ws, SetOf(ws), us, i);
    ShowsOne(us, Lowered(SetOf(ws), i));
  }

  lemma InUniverse(ws: seq<Word>)
    requires |ws| <= 8
    ensures SetOf(ws) <= Universe()
  {
    ShowsSetOf(ws);
  }

  lemma ShiftInTwo(s: set<int>, k: nat)
    requires s <= Universe()
    ensures Shifted(Shifted(s, 32 * (k / 32)), k % 32) == Shifted(s, k)
    ensures Shifted(s, 0) == s
  {
    assert k == 32 * (k / 32) + k % 32;
  }

  lemma LowerTwice(s: set<int>, a: nat, b: nat)
    requires s <= Universe()
    ensures Lowered(Lowered(s, a), b) == Lowered(s, a + b)
  {
  }

  lemma LowerInTwo(s: set<int>, k: nat)
    requires s <= Universe()
    ensures Lowered(Lowered(s, 32 * (k / 32)), k % 32) == Lowered(s, k)
    ensures Lowered(s, 0) == s
  {
    LowerTwice(s, 32 * (k / 32), k % 32);
  }

  /** Adds k to every element of the block; elements that leave the universe
      are dropped. ok tells whether C defines all shifts: for a positive multiple
      of 32 a word is shifted by its full width, which is taken to clear it; for
      a negative number a word is shifted by a negative one, and nothing is said. */
  method BitAdd(m: array<Word>, o: int, k: int) returns (ok: bool)
    requires 0 <= o <= m.Length - 8
    modifies m
    ensures OnlyBlock(m, o) && (ok <==> Shiftable(k))
    ensures k >= 0 ==> SetOf(Block(m, o)) == Shifted(old(SetOf(Block(m, o))), k)
  {
    ok := Shiftable(k);
    if k < 0 {
      return;
    }
    InUniverse(Block(m, o));
    ShiftInTwo(SetOf(Block(m, o)), k);
    if k == 0 {
      return;
    }
    MoveWordsUp(m, o, k / 32);
    MoveBitsUp(m, o, k % 32);
  }

  /** The first loop of the addition: whole words. */
  method MoveWordsUp(m: array<Word>, o: int, c: nat)
    requires 0 <= o <= m.Length - 8
    modifies m
    ensures OnlyBlock(m, o)
    ensures SetOf(Block(m, o)) == Shifted(old(SetOf(Block(m, o))), 32 * c)
  {
    hide SetOf, Zero;
    ghost var w := Block(m, o);
    var i := c;
    while i > 0
      invariant 0 <= i <= c
      invariant OnlyBlock(m, o)
      invariant forall q :: o <= q < o + 8 ==> m[q] == WordUp(w, c - i, q - o)
    {
      var j := 6;
      while j >= 0
        invariant -1 <= j <= 6
        invariant OnlyBlock(m, o)
        invariant forall q :: o <= q <= o + j + 1 ==> m[q] == WordUp(w, c - i, q - o)
        invariant forall q :: o + j + 1 < q < o + 8 ==> m[q] == WordUp(w, c - i + 1, q - o)
      {
        m[o + j + 1] := m[o + j];
        j := j - 1;
      }
      m[o] := Zero();
      i := i - 1;
    }
    WordsMovedUp(w, Block(m, o), c);
  }

  /** The second loop: the remaining 1..31 bits. */
  method MoveBitsUp(m: array<Word>, o: int, i: nat)
    requires 0 <= o <= m.Length - 8 && i < 32
    modifies m
    ensures OnlyBlock(m, o)
    ensures SetOf(Block(m, o)) == Shifted(old(SetOf(Block(m, o))), i)
  {
    hide SetOf, Shl, Shr;
    ghost var u := Block(m, o);
    m[o + 7] := Shr(m[o + 7], i);
    var j := 6;
    while j >= 0
      invariant -1 <= j <= 6
      invariant OnlyBlock(m, o)
      invariant forall q :: o <= q <= o + j ==> m[q] == u[q - o]
      invariant m[o + j + 1] == Shr(u[j + 1], i)
      invariant forall q :: o + j + 1 < q < o + 8 ==> m[q] == BitsUp(u, i, q - o)
    {
      var a := Shr(m[o + j], i);
      var b := Or(m[o + j + 1], Shl(m[o + j], 32 - i));
      m[o + j] := a;
      m[o + j + 1] := b;
      j := j - 1;
    }
    assert Or(m[o], Zero()) == m[o];
    BitsMovedUp(u, Block(m, o), i);
  }

  /** Subtracts k from every element of the block; ok as for the addition. */
  method BitSub(m: array<Word>, o: int, k: int) returns (ok: bool)
    requires 0 <= o <= m.Length - 8
    modifies m
    ensures OnlyBlock(m, o) && (ok <==> Shiftable(k))
    ensures k >= 0 ==> SetOf(Block(m, o)) == Lowered(old(SetOf(Block(m, o))), k)
  {
    ok := Shiftable(k);
    if k < 0 {
      return;
    }
    InUniverse(Block(m, o));
    LowerInTwo(SetOf(Block(m, o)), k);
    if k == 0 {
      return;
    }
    MoveWordsDown(m, o, k / 32);
    MoveBitsDown(m, o, k % 32);
  }

  method MoveWordsDown(m: array<Word>, o: int, c: nat)
    requires 0 <= o <= m.Length - 8
    modifies m
    ensures OnlyBlock(m, o)
    ensures SetOf(Block(m, o)) == Lowered(old(SetOf(Block(m, o))), 32 * c)
  {
    hide SetOf, Zero;
    ghost var w := Block(m, o);
    var i := c;
    while i > 0
      invariant 0 <= i <= c
      invariant OnlyBlock(m, o)
      invariant forall q :: o <= q < o + 8 ==> m[q] == WordDown(w, c - i, q - o)
    {
      var j := 1;
      while j < 8
        invariant 1 <= j <= 8
        invariant OnlyBlock(m, o)
        invariant forall q :: o + j - 1 <= q < o + 8 ==> m[q] == WordDown(w, c - i, q - o)
        invariant forall q :: o <= q < o + j - 1 ==> m[q] == WordDown(w, c - i + 1, q - o)
      {
        m[o + j - 1] := m[o + j];
        j := j + 1;
      }
      m[o + 7] := Zero();
      i := i - 1;
    }
    WordsMovedDown(w, Block(m, o), c);
  }

  method MoveBitsDown(m: array<Word>, o: int, i: nat)
    requires 0 <= o <= m.Length - 8 && i < 32
    modifies m
    ensures OnlyBlock(m, o)
    ensures SetOf(Block(m, o)) == Lowered(old(SetOf(Block(m, o))), i)
  {
    hide SetOf, Shl, Shr;
    ghost var u := Block(m, o);
    m[o] := Shl(m[o], i);
    var j := 1;
    while j < 8
      invariant 1 <= j <= 8
      invariant OnlyBlock(m, o)
      invariant forall q :: o + j <= q < o + 8 ==> m[q] == u[q - o]
      invariant m[o + j - 1] == Shl(u[j - 1], i)
      invariant forall q :: o <= q < o + j - 1 ==> m[q] == BitsDown(u, i, q - o)
    {
      var a := Shl(m[o + j], i);
      var b := Or(m[o + j - 1], Shr(m[o + j], 32 - i));
      m[o + j] := a;
      m[o + j - 1] := b;
      j := j + 1;
    }
    assert Or(m[o + 7], Zero()) == m[o + 7];
    BitsMovedDown(u, Block(m, o), i);
  }

  // ------------------------------------------------ the other set operations

  function Rem(v: int, i: int): int
    requires i != 0
  {
    v % i
  }

  ghost function ModSet(s: set<int>, i: int): set<int>
    requires i != 0
  {
    set v | v in s :: Rem(v, i)
  }

  ghost function Below(s: set<int>, bound: int): (t: set<int>)
    ensures forall v :: v in t <==> v in s && v < bound
  {
    set v | v in s && v < bound
  }

  /** The residues of the elements below the bound. */
  ghost function Residues(s: set<int>, i: int, bound: int): set<int>
    requires i != 0
  {
    ModSet(Below(s, bound), i)
  }

  lemma PutShows(ws: seq<Word>, r: set<int>, n: int)
    requires Shows(ws, r) && 0 <= n < 32 * |ws|
    ensures Shows(ws[n / 32 := Or(ws[n / 32], Mask(n % 32))], r + {n})
  {
    var us := ws[n / 32 := Or(ws[n / 32], Mask(n % 32))];
    forall a, b | 0 <= a < |us| && 0 <= b < 32
      ensures us[a][b] == (32 * a + b in r + {n})
    {
      assert ws[a][b] == (32 * a + b in r);
      assert us[a][b] == (ws[a][b] || (a == n / 32 && b == n % 32));
      assert 32 * a + b == n <==> a == n / 32 && b == n % 32;
    }
  }

  lemma GrowShows(ws: seq<Word>, r: set<int>)
    requires Shows(ws, r)
    ensures Shows(ws + [Zero()], r)
  {
    assert forall v :: v in r ==> v < 32 * |ws|;
  }

  /** Replaces every element by its residue modulo i, in place. A residue is
      never above its element, so each write goes to a word already read. */
  method BitMod(m: array<Word>, o: int, i: int)
    requires 0 <= o <= m.Length - 8 && i != 0
    modifies m
    ensures OnlyBlock(m, o)
    ensures SetOf(Block(m, o)) == ModSet(old(SetOf(Block(m, o))), i)
  {
    ghost var w := Block(m, o);
    ghost var s := SetOf(w);
    ShowsSetOf(w);
    var j := 0;
    while j < 8
      invariant 0 <= j <= 8
      invariant OnlyBlock(m, o)
      invariant Shows(m[o..o + j], Residues(s, i, 32 * j))
      invariant m[o + j..o + 8] == w[j..]
    {
      BitModWord(m, o, i, j, w);
      j := j + 1;
    }
    assert Below(s, 256) == s;
    ShowsOne(Block(m, o), ModSet(s, i));
  }

  /** One round of the outer loop: word j is read, cleared, and its elements
      are written back reduced. */
  method BitModWord(m: array<Word>, o: int, i: int, j: int, ghost w: seq<Word>)
    requires 0 <= o <= m.Length - 8 && i != 0 && 0 <= j < 8 && |w| == 8
    requires Shows(m[o..o + j], Residues(SetOf(w), i, 32 * j))
    requires m[o + j..o + 8] == w[j..]
    modifies m
    ensures OnlyBlock(m, o)
    ensures Shows(m[o..o + j + 1], Residues(SetOf(w), i, 32 * (j + 1)))
    ensures m[o + j + 1..o + 8] == w[j + 1..]
  {
    hide Rem, Residues;
    ghost var s := SetOf(w);
    GrowShows(m[o..o + j], Residues(s, i, 32 * j));
    var t := m[o + j];
    assert t == w[j];
    m[o + j] := Zero();
    assert m[o..o + j + 1] == old(m[o..o + j]) + [Zero()];
    var k := 0;
    while k < 32
      invariant 0 <= k <= 32
      invariant OnlyBlock(m, o)
      invariant Shows(m[o..o + j + 1], Residues(s, i, 32 * j + k))
      invariant m[o + j + 1..o + 8] == w[j + 1..]
    {
      assert (32 * j + k) / 32 == j && (32 * j + k) % 32 == k;
      NextResidue(w, i, 32 * j + k);
      RemSmall(32 * j + k, i);
      if t[k] {
        var n := Rem(32 * j + k, i);
        ghost var before := m[o..o + j + 1];
        PutShows(before, Residues(s, i, 32 * j + k), n);
        m[o + n / 32] := Or(m[o + n / 32], Mask(n % 32));
        assert m[o..o + j + 1] == before[n / 32 := Or(before[n / 32], Mask(n % 32))];
      }
      k := k + 1;
    }
  }

  lemma RemSmall(v: nat, i: int)
    requires i != 0
    ensures 0 <= Rem(v, i) <= v
  {
  }

  lemma NextResidue(w: seq<Word>, i: int, v: int)
    requires i != 0 && 0 <= v < 32 * |w|
    ensures Residues(SetOf(w), i, v + 1) ==
            if w[v / 32][v % 32] then Residues(SetOf(w), i, v) + {Rem(v, i)} else Residues(SetOf(w), i, v)
  {
    hide Rem;
    BelowNext(w, v);
    var low := Below(SetOf(w), v);
    if w[v / 32][v % 32] {
      ModSetUnion(low, {v}, i);
      ModSetOne(v, i);
    }
  }

  lemma BelowNext(w: seq<Word>, v: int)
    requires 0 <= v < 32 * |w|
    ensures var s := SetOf(w);
            Below(s, v + 1) == if w[v / 32][v % 32] then Below(s, v) + {v} else Below(s, v)
  {
    var s := SetOf(w);
    ShowsSetOf(w);
    assert w[v / 32][v % 32] == (32 * (v / 32) + v % 32 in s);
    assert 32 * (v / 32) + v % 32 == v;
  }

  lemma ModSetOne(v: int, i: int)
    requires i != 0
    ensures ModSet({v}, i) == {Rem(v, i)}
  {
    hide Rem;
  }

  lemma ModSetUnion(a: set<int>, b: set<int>, i: int)
    requires i != 0
    ensures ModSet(a + b, i) == ModSet(a, i) + ModSet(b, i)
  {
    hide Rem;
    forall v | v in a + b
      ensures Rem(v, i) in ModSet(a, i) + ModSet(b, i)
    {
      if v in a {
        assert Rem(v, i) in ModSet(a, i);
      } else {
        assert Rem(v, i) in ModSet(b, i);
      }
    }
  }

  lemma ComplShow(w: seq<Word>, r: seq<Word>)
    requires |w| == |r| == 8 && forall q :: 0 <= q < 8 ==> r[q] == Not(w[q])
    ensures SetOf(r) == Universe() - SetOf(w)
  {
    ShowsSetOf(w);
    ShowsOne(r, Universe() - SetOf(w));
  }

  method BitCompl(m: array<Word>, o: int)
    requires 0 <= o <= m.Length - 8
    modifies m
    ensures OnlyBlock(m, o)
    ensures SetOf(Block(m, o)) == Universe() - old(SetOf(Block(m, o)))
  {
    hide Not, SetOf, Shows;
    ghost var w := Block(m, o);
    for j := 0 to 8
      invariant OnlyBlock(m, o)
      invariant forall q :: o <= q < o + 8 ==> m[q] == if q < o + j then Not(w[q - o]) else w[q - o]
    {
      m[o + j] := Not(m[o + j]);
    }
    ComplShow(w, Block(m, o));
  }

  lemma UnionShow(w: seq<Word>, u: seq<Word>, r: seq<Word>)
    requires |w| == |u| == |r| == 8 && forall q :: 0 <= q < 8 ==> r[q] == Or(w[q], u[q])
    ensures SetOf(r) == SetOf(w) + SetOf(u)
  {
    ShowsSetOf(w);
    ShowsSetOf(u);
    ShowsOne(r, SetOf(w) + SetOf(u));
  }

  lemma InterShow(w: seq<Word>, u: seq<Word>, r: seq<Word>)
    requires |w| == |u| == |r| == 8 && forall q :: 0 <= q < 8 ==> r[q] == And(w[q], u[q])
    ensures SetOf(r) == SetOf(w) * SetOf(u)
  {
    ShowsSetOf(w);
    ShowsSetOf(u);
    ShowsOne(r, SetOf(w) * SetOf(u));
  }

  /** Adds block p to block o. */
  method BitUnion(m: array<Word>, o: int, p: int)
    requires 0 <= o <= m.Length - 8 && 0 <= p <= m.Length - 8 && (o + 8 <= p || p + 8 <= o)
    modifies m
    ensures OnlyBlock(m, o)
    ensures SetOf(Block(m, o)) == old(SetOf(Block(m, o)) + SetOf(Block(m, p)))
  {
    hide Or, SetOf, Shows;
    ghost var w, u := Block(m, o), Block(m, p);
    for j := 0 to 8
      invariant OnlyBlock(m, o)
      invariant forall q :: o <= q < o + 8 ==> m[q] == if q < o + j then Or(w[q - o], u[q - o]) else w[q - o]
    {
      assert m[p + j] == u[j];
      m[o + j] := Or(m[o + j], m[p + j]);
    }
    UnionShow(w, u, Block(m, o));
  }

  method BitIntersect(m: array<Word>, o: int, p: int)
    requires 0 <= o <= m.Length - 8 && 0 <= p <= m.Length - 8 && (o + 8 <= p || p + 8 <= o)
    modifies m
    ensures OnlyBlock(m, o)
    ensures SetOf(Block(m, o)) == old(SetOf(Block(m, o)) * SetOf(Block(m, p)))
  {
    hide And, SetOf, Shows;
    ghost var w, u := Block(m, o), Block(m, p);
    for j := 0 to 8
      invariant OnlyBlock(m, o)
      invariant forall q :: o <= q < o + 8 ==> m[q] == if q < o + j then And(w[q - o], u[q - o]) else w[q - o]
    {
      assert m[p + j] == u[j];
      m[o + j] := And(m[o + j], m[p + j]);
    }
    InterShow(w, u, Block(m, o));
  }

  ghost predicate IsMin(s: set<int>, v: int) {
    v in s && forall u :: u in s ==> v <= u
  }

  ghost predicate IsMax(s: set<int>, v: int) {
    v in s && forall u :: u in s ==> u <= v
  }

  lemma MemberWord(ws: seq<Word>, s: set<int>, v: int)
    requires Shows(ws, s) && v in s
    ensures 0 <= v / 32 < |ws| && ws[v / 32][v % 32]
  {
    assert ws[v / 32][v % 32] == (32 * (v / 32) + v % 32 in s);
  }

  lemma ShowsBounds(ws: seq<Word>, s: set<int>)
    requires Shows(ws, s)
    ensures forall v :: v in s ==> 0 <= v < 32 * |ws|
  {
  }

  /** Nothing in word j, so no element in its range. */
  lemma ClearWord(ws: seq<Word>, s: set<int>, j: int)
    requires Shows(ws, s) && 0 <= j < |ws| && !NonZero(ws[j])
    ensures forall v :: v in s ==> v < 32 * j || v >= 32 * (j + 1)
  {
    forall v | v in s
      ensures v / 32 != j
    {
      MemberWord(ws, s, v);
    }
  }

  lemma FirstInWord(ws: seq<Word>, s: set<int>, j: int, b: int)
    requires Shows(ws, s) && 0 <= j < |ws| && 0 <= b < 32 && ws[j][b]
    requires forall k :: 0 <= k < b ==> !ws[j][k]
    requires forall v :: v in s ==> 32 * j <= v
    ensures IsMin(s, 32 * j + b)
  {
    assert ws[j][b] == (32 * j + b in s);
    forall v | v in s
      ensures 32 * j + b <= v
    {
      MemberWord(ws, s, v);
      assert v / 32 == j ==> v % 32 >= b;
    }
  }

  lemma LastInWord(ws: seq<Word>, s: set<int>, j: int, b: int)
    requires Shows(ws, s) && 0 <= j < |ws| && 0 <= b < 32 && ws[j][b]
    requires forall k :: b < k < 32 ==> !ws[j][k]
    requires forall v :: v in s ==> v < 32 * (j + 1)
    ensures IsMax(s, 32 * j + b)
  {
    assert ws[j][b] == (32 * j + b in s);
    forall v | v in s
      ensures v <= 32 * j + b
    {
      MemberWord(ws, s, v);
      assert v / 32 == j ==> v % 32 <= b;
    }
  }

  /** The least element in the first l + 1 words, or 256. */
  method MinBit(ws: seq<Word>, l: int) returns (r: int)
    requires -1 <= l < |ws|
    ensures SetOf(ws[..l + 1]) == {} ==> r == 256
    ensures SetOf(ws[..l + 1]) != {} ==> IsMin(SetOf(ws[..l + 1]), r)
  {
    hide *;
    ghost var us := ws[..l + 1];
    ghost var s := SetOf(us);
    ShowsSetOf(us);
    ShowsBounds(us, s);
    var j := 0;
    while j <= l
      invariant 0 <= j <= l + 1
      invariant forall v :: v in s ==> 32 * j <= v
    {
      if NonZero(ws[j]) {
        r := MinB(ws[j], j);
        FirstInWord(us, s, j, r - j * 32);
        return;
      }
      ClearWord(us, s, j);
      j := j + 1;
    }
    return 256;
  }

  /** The greatest element in the first l + 1 words, or -1. */
  method MaxBit(ws: seq<Word>, l: int) returns (r: int)
    requires -1 <= l < |ws|
    ensures SetOf(ws[..l + 1]) == {} ==> r == -1
    ensures SetOf(ws[..l + 1]) != {} ==> IsMax(SetOf(ws[..l + 1]), r)
  {
    hide *;
    ghost var us := ws[..l + 1];
    ghost var s := SetOf(us);
    ShowsSetOf(us);
    ShowsBounds(us, s);
    var j := l;
    while j >= 0
      invariant -1 <= j <= l
      invariant forall v :: v in s ==> v < 32 * (j + 1)
    {
      if NonZero(ws[j]) {
        r := MaxB(ws[j], j);
        LastInWord(us, s, j, r - j * 32);
        return;
      }
      ClearWord(us, s, j);
      j := j - 1;
    }
    return -1;
  }

  // ------------------------------------------------ classified intersection

  datatype Intersect = EMPTY | SUBSET | NONEMPTY

  /** How the domain b meets the set t. */
  ghost function Classify(t: set<int>, b: set<int>): Intersect {
    if t * b == {} then EMPTY else if b <= t then SUBSET else NONEMPTY
  }

  /** Intersects the first lmt + 1 words of the block tv with the domain words
      bv, and says how that domain met the block. */
  method IntersectDom(tv: array<Word>, o: int, bv: seq<Word>, lmt: int, lmb: int) returns (r: Intersect)
    requires 0 <= o <= tv.Length - 8 && 0 <= lmt < 8 && lmt <= lmb < |bv|
    modifies tv
    ensures OnlyBlock(tv, o)
    ensures SetOf(tv[o..o + lmt + 1]) == old(SetOf(tv[o..o + lmt + 1])) * SetOf(bv[..lmb + 1])
    ensures r == Classify(old(SetOf(tv[o..o + lmt + 1])), SetOf(bv[..lmb + 1]))
  {
    hide SetOf, And, NonZero;
    ghost var w, u := tv[o..o + lmt + 1], bv[..lmb + 1];
    var k, b := AndWords(tv, o, bv, lmt);
    AndMeets(w, u, tv[o..o + lmt + 1]);
    if !b {
      return EMPTY;
    }
    if k {
      return NONEMPTY;
    }
    var i := lmt + 1;
    while i <= lmb
      invariant lmt + 1 <= i <= lmb + 1
      invariant forall q :: lmt + 1 <= q < i ==> !NonZero(u[q])
    {
      if NonZero(bv[i]) {
        return NONEMPTY;
      }
      i := i + 1;
    }
    return SUBSET;
  }

  /** The conjunction loop: k tells that some word of bv lost a bit, b that
      some bit is left. */
  method AndWords(tv: array<Word>, o: int, bv: seq<Word>, lmt: int) returns (k: bool, b: bool)
    requires 0 <= o <= tv.Length - 8 && 0 <= lmt < 8 && lmt < |bv|
    modifies tv
    ensures OnlyBlock(tv, o)
    ensures forall q :: o <= q <= o + lmt ==> tv[q] == And(old(tv[q]), bv[q - o])
    ensures b <==> exists q :: o <= q <= o + lmt && NonZero(tv[q])
    ensures k <==> exists q :: o <= q <= o + lmt && tv[q] != bv[q - o]
  {
    hide And, NonZero;
    k, b := false, false;
    var i := 0;
    while i <= lmt
      invariant 0 <= i <= lmt + 1
      invariant OnlyBlock(tv, o)
      invariant forall q :: o <= q < o + i ==> tv[q] == And(old(tv[q]), bv[q - o])
      invariant forall q :: o + i <= q <= o + lmt ==> tv[q] == old(tv[q])
      invariant b <==> exists q :: o <= q < o + i && NonZero(tv[q])
      invariant k <==> exists q :: o <= q < o + i && tv[q] != bv[q - o]
    {
      tv[o + i] := And(tv[o + i], bv[i]);
      if NonZero(tv[o + i]) {
        b := true;
      }
      if tv[o + i] != bv[i] {
        k := true;
      }
      i := i + 1;
    }
  }

  lemma AndMeets(w: seq<Word>, u: seq<Word>, r: seq<Word>)
    requires |r| == |w| <= |u|
    requires forall q :: 0 <= q < |w| ==> r[q] == And(w[q], u[q])
    ensures SetOf(r) == SetOf(w) * SetOf(u)
    ensures SetOf(w) * SetOf(u) == {} <==> !exists q :: 0 <= q < |w| && NonZero(r[q])
    ensures SetOf(u) <= SetOf(w) <==> (forall q :: 0 <= q < |w| ==> r[q] == u[q]) &&
                                      forall q :: |w| <= q < |u| ==> !NonZero(u[q])
  {
    hide *;
    ShowsSetOf(w);
    ShowsSetOf(u);
    AndShows(w, SetOf(w), u, SetOf(u), r);
    ShowsOne(r, SetOf(w) * SetOf(u));
    EmptyWords(r, SetOf(r));
    WithinWords(w, SetOf(w), u, SetOf(u), r);
  }

  lemma AndShows(w: seq<Word>, t: set<int>, u: seq<Word>, d: set<int>, r: seq<Word>)
    requires Shows(w, t) && Shows(u, d) && |r| == |w| <= |u|
    requires forall q :: 0 <= q < |w| ==> r[q] == And(w[q], u[q])
    ensures Shows(r, t * d)
  {
    forall a, b | 0 <= a < |r| && 0 <= b < 32
      ensures r[a][b] == (32 * a + b in t * d)
    {
      assert w[a][b] == (32 * a + b in t) && u[a][b] == (32 * a + b in d);
    }
  }

  lemma EmptyWords(r: seq<Word>, s: set<int>)
    requires Shows(r, s)
    ensures s == {} <==> !exists q :: 0 <= q < |r| && NonZero(r[q])
  {
    if q :| 0 <= q < |r| && NonZero(r[q]) {
      var b :| 0 <= b < 32 && r[q][b];
      assert 32 * q + b in s;
    }
    if v :| v in s {
      MemberWord(r, s, v);
    }
  }

  lemma WithinWords(w: seq<Word>, t: set<int>, u: seq<Word>, d: set<int>, r: seq<Word>)
    requires Shows(w, t) && Shows(u, d) && |r| == |w| <= |u|
    requires forall q :: 0 <= q < |w| ==> r[q] == And(w[q], u[q])
    ensures d <= t <==> (forall q :: 0 <= q < |w| ==> r[q] == u[q]) &&
                        forall q :: |w| <= q < |u| ==> !NonZero(u[q])
  {
    if d <= t {
      forall q | 0 <= q < |w|
        ensures r[q] == u[q]
      {
        forall b | 0 <= b < 32
          ensures r[q][b] == u[q][b]
        {
          assert w[q][b] == (32 * q + b in t) && u[q][b] == (32 * q + b in d);
        }
      }
      forall q, b | |w| <= q < |u| && 0 <= b < 32
        ensures !u[q][b]
      {
        assert u[q][b] == (32 * q + b in d);
      }
    }
    if (forall q :: 0 <= q < |w| ==> r[q] == u[q]) && forall q :: |w| <= q < |u| ==> !NonZero(u[q]) {
      forall v | v in d
        ensures v in t
      {
        MemberWord(u, d, v);
        assert r[v / 32][v % 32];
        assert w[v / 32][v % 32] == (32 * (v / 32) + v % 32 in t);
      }
    }
  }
}
