/** Arrays and their sub-arrays: every sub-array is a view of the data of the
    array it was made from, with a stride that may be negative. */
module ArrayViews {

  /** A machine integer. */
  predicate Machine(x: int) {
    -0x8000_0000 <= x < 0x8000_0000
  }

  /** How a machine integer wraps around. */
  function Wrap(x: int): int {
    (x + 0x8000_0000) % 0x1_0000_0000 - 0x8000_0000
  }

  /** Element i of a view is the cell i * scale + offset; the first index is
      start. */
  datatype Shape = Shape(size: int, offset: int, start: int, scale: int)

  function Cell(s: Shape, i: int): int {
    i * s.scale + s.offset
  }

  /** The first and the last element are cells of n. */
  predicate Inside(s: Shape, n: nat) {
    && s.size >= 1 && s.scale != 0 && 0 <= s.offset < n && 0 <= Cell(s, s.size - 1) < n
    && n < 0x8000_0000
  }

  /** The test of method_sub_array. */
  predicate OutOfBounds(whole: Shape, offset: int, end: int, scale: int, oldEnd: int) {
    || (scale > 0 && whole.scale > 0 && (offset < whole.offset || end > oldEnd))
    || (scale > 0 && whole.scale < 0 && (offset < oldEnd || end > whole.offset))
    || (scale < 0 && whole.scale > 0 && (end < whole.offset || offset > oldEnd))
    || (scale < 0 && whole.scale < 0 && (end < oldEnd || offset > whole.offset))
  }

  // ------------------------------------------------ inside

  lemma MulLess(c: int, x: int, y: int)
    ensures c > 0 ==> (x < y <==> x * c < y * c)
    ensures c < 0 ==> (x < y <==> x * c > y * c)
  {
    if c > 0 {
      Scaled(c, x, y);
      Scaled(c, y, x);
    } else if c < 0 {
      Scaled(-c, x, y);
      Scaled(-c, y, x);
      assert x * -c == -(x * c) && y * -c == -(y * c);
    }
  }

  lemma Scaled(c: nat, x: int, y: int)
    requires c > 0
    ensures x < y ==> x * c < y * c
    ensures x <= y ==> x * c <= y * c
  {
    if x <= y {
      var d := y - x;
      assert y * c == x * c + d * c;
      assert d > 0 ==> d * c >= c;
    }
  }

  /** Every element of a view whose ends are inside is inside. */
  lemma ElementInside(s: Shape, n: nat, i: int)
    requires Inside(s, n) && 0 <= i < s.size
    ensures 0 <= Cell(s, i) < n
  {
    MulLess(s.scale, 0, i);
    MulLess(s.scale, i, 0);
    MulLess(s.scale, i, s.size - 1);
    MulLess(s.scale, s.size - 1, i);
  }

  // ------------------------------------------------ sub-arrays

  /** Element i of the sub-array that begins with element d of the whole and
      takes every s-th element is element d + i * s of the whole. */
  function SubShape(whole: Shape, d: int, size: int, start: int, s: int): Shape {
    Shape(size, Cell(whole, d), start, s * whole.scale)
  }

  /** All elements of the sub-array are elements of the whole. */
  predicate Fits(whole: Shape, d: int, size: int, s: int) {
    forall i :: 0 <= i < size ==> 0 <= d + Steps(i, s) < whole.size
  }

  function Steps(i: int, s: int): int {
    i * s
  }

  lemma SubCell(whole: Shape, d: int, size: int, start: int, s: int, i: int)
    ensures Cell(SubShape(whole, d, size, start, s), i) == Cell(whole, d + Steps(i, s))
  {
    assert i * (s * whole.scale) == (i * s) * whole.scale;
    assert (d + i * s) * whole.scale == d * whole.scale + (i * s) * whole.scale;
  }

  /** It is enough that the last element fits. */
  lemma LastFits(whole: Shape, d: int, size: int, s: int)
    requires 0 <= d < whole.size && size >= 1
    ensures Fits(whole, d, size, s) <==> 0 <= d + Steps(size - 1, s) < whole.size
  {
    if 0 <= d + Steps(size - 1, s) < whole.size {
      forall i | 0 <= i < size
        ensures 0 <= d + Steps(i, s) < whole.size
      {
        MulLess(s, 0, i);
        MulLess(s, i, 0);
        MulLess(s, i, size - 1);
        MulLess(s, size - 1, i);
      }
    }
  }

  /** The test is right: it passes exactly the sub-arrays that fit. */
  lemma TestExact(whole: Shape, d: int, size: int, start: int, s: int)
    requires whole.size >= 1 && whole.scale != 0 && 0 <= d < whole.size && size >= 1 && s != 0
    ensures var sub := SubShape(whole, d, size, start, s);
            OutOfBounds(whole, sub.offset, Cell(sub, size - 1), sub.scale, Cell(whole, whole.size - 1)) <==>
            !Fits(whole, d, size, s)
  {
    var c, e := whole.scale, d + Steps(size - 1, s);
    LastFits(whole, d, size, s);
    SubCell(whole, d, size, start, s, size - 1);
    SignOf(s, c);
    SignOf(size - 1, s);
    MulLess(c, d, 0);
    MulLess(c, 0, d);
    MulLess(c, d, whole.size - 1);
    MulLess(c, whole.size - 1, d);
    MulLess(c, e, 0);
    MulLess(c, 0, e);
    MulLess(c, e, whole.size - 1);
    MulLess(c, whole.size - 1, e);
  }

  lemma SignOf(s: int, c: int)
    ensures s > 0 && c > 0 ==> s * c > 0
    ensures s < 0 && c < 0 ==> s * c > 0
    ensures s > 0 && c < 0 ==> s * c < 0
    ensures s < 0 && c > 0 ==> s * c < 0
    ensures s == 0 || c == 0 ==> s * c == 0
  {
    MulLess(c, 0, s);
    MulLess(c, s, 0);
  }

  /** A sub-array that fits lies inside. */
  lemma SubInside(whole: Shape, n: nat, d: int, size: int, start: int, s: int)
    requires Inside(whole, n) && 0 <= d < whole.size && size >= 1 && s != 0 && Fits(whole, d, size, s)
    ensures Inside(SubShape(whole, d, size, start, s), n)
  {
    var last := size - 1;
    assert 0 <= d + Steps(last, s) < whole.size;
    ElementInside(whole, n, d);
    ElementInside(whole, n, d + Steps(last, s));
    SubCell(whole, d, size, start, s, last);
    SignOf(s, whole.scale);
  }

  /** On machine integers that wrap around the test can pass a sub-array of which
      only the first element fits. */
  lemma WrapPasses()
    ensures var whole := Shape(10, 0, 1, 1);
            var offset, scale := 0, Wrap(0x1_0000 * whole.scale);
            var end := Wrap(offset + Wrap(0x1_0000 * scale));
            && !OutOfBounds(whole, offset, end, scale, Cell(whole, 9))
            && !Fits(whole, 0, 0x1_0001, 0x1_0000)
  {
    assert Steps(1, 0x1_0000) == 0x1_0000;
    var i := 1;
    assert !(0 <= 0 + Steps(i, 0x1_0000) < 10);
  }

  // ------------------------------------------------ chains of sub-arrays

  /** One step of a chain: from element d on, every s-th element. */
  datatype Cut = Cut(d: int, size: int, start: int, s: int)

  /** The shape after the cuts, each of them accepted. */
  function After(whole: Shape, cuts: seq<Cut>): Shape
    decreases |cuts|
  {
    if cuts == [] then whole
    else
      var c := cuts[|cuts| - 1];
      SubShape(After(whole, cuts[..|cuts| - 1]), c.d, c.size, c.start, c.s)
  }

  ghost predicate Accepted(whole: Shape, cuts: seq<Cut>)
    decreases |cuts|
  {
    cuts == [] ||
    var c, before := cuts[|cuts| - 1], cuts[..|cuts| - 1];
    && Accepted(whole, before) && 0 <= c.d < After(whole, before).size && c.size >= 1 && c.s != 0
    && Fits(After(whole, before), c.d, c.size, c.s)
  }

  /** The element of the whole that element i of the last view is. */
  function Root(cuts: seq<Cut>, i: int): int
    decreases |cuts|
  {
    if cuts == [] then i
    else
      var c := cuts[|cuts| - 1];
      Root(cuts[..|cuts| - 1], c.d + Steps(i, c.s))
  }

  /** Any chain of sub-arrays: every index of the last one is an element of the
      first, in the same cell, and so inside the data. */
  lemma {:induction false} ChainInside(whole: Shape, n: nat, cuts: seq<Cut>, i: int)
    requires Inside(whole, n) && Accepted(whole, cuts) && 0 <= i < After(whole, cuts).size
    ensures Inside(After(whole, cuts), n)
    ensures 0 <= Root(cuts, i) < whole.size && Cell(After(whole, cuts), i) == Cell(whole, Root(cuts, i))
    ensures 0 <= Cell(After(whole, cuts), i) < n
    decreases |cuts|
  {
    if cuts != [] {
      var c, before := cuts[|cuts| - 1], cuts[..|cuts| - 1];
      var outer := After(whole, before);
      assert 0 <= c.d + Steps(i, c.s) < outer.size;
      ChainInside(whole, n, before, c.d + Steps(i, c.s));
      SubInside(outer, n, c.d, c.size, c.start, c.s);
      SubCell(outer, c.d, c.size, c.start, c.s, i);
    }
    ElementInside(After(whole, cuts), n, i);
  }

  /** Different elements of a view are different cells. */
  lemma CellsDiffer(s: Shape, n: nat, i: int, j: int)
    requires Inside(s, n) && i != j
    ensures Cell(s, i) != Cell(s, j)
  {
    MulLess(s.scale, i, j);
    MulLess(s.scale, j, i);
  }

  // ------------------------------------------------ arrays

  datatype Option<T> = None | Some(value: T)

  /** The errors of the builtins, by argument; Overflow stands for machine
      arithmetic that leaves the machine integers, which C does not define. */
  datatype Answer = Done | Domain(arg: int) | Representation(arg: int) | Permission | Overflow

  /** What element i of a view holds. */
  function ReadAt<T>(e: seq<T>, s: Shape, i: int): T
    requires Inside(s, |e|) && 0 <= i < s.size
  {
    ElementInside(s, |e|, i);
    e[Cell(s, i)]
  }

  class Array<T(0)> {
    const data: array<T>
    const shape: Shape
    const original: Array?<T>

    predicate Valid() {
      Inside(shape, data.Length) && Machine(shape.start)
    }

    constructor View(data: array<T>, shape: Shape, original: Array?<T>)
      ensures this.data == data && this.shape == shape && this.original == original
    {
      this.data, this.shape, this.original := data, shape, original;
    }

    /** The element an index names. */
    method Locate(index: int) returns (r: Answer, i: int)
      requires Valid()
      ensures r == Done <==> Machine(index) && Machine(index - shape.start) && 0 <= index - shape.start < shape.size
      ensures r == Overflow <==> Machine(index) && !Machine(index - shape.start)
      ensures r == Done || r == Overflow || r == Domain(1)
      ensures r == Done ==> i == index - shape.start
    {
      if !Machine(index) {
        i := -1;
      } else {
        i := index - shape.start;
        if !Machine(i) {
          return Overflow, i;
        }
      }
      if i >= shape.size || i < 0 {
        return Domain(1), i;
      }
      return Done, i;
    }

    /** get */
    method Get(index: int) returns (r: Answer, value: T)
      requires Valid()
      ensures r == Done <==> Machine(index) && Machine(index - shape.start) && 0 <= index - shape.start < shape.size
      ensures r == Done ==> value == ReadAt(data[..], shape, index - shape.start)
    {
      var i: int;
      value := data[0];
      r, i := Locate(index);
      if r == Done {
        ElementInside(shape, data.Length, i);
        value := data[i * shape.scale + shape.offset];
      }
    }

    /** set: read back through any view of the same cell, and nothing else. */
    method Set(index: int, value: T) returns (r: Answer)
      requires Valid()
      modifies data
      ensures r == Done <==> Machine(index) && Machine(index - shape.start) && 0 <= index - shape.start < shape.size
      ensures forall q: Shape, i :: Inside(q, data.Length) && 0 <= i < q.size ==>
                ReadAt(data[..], q, i) ==
                if r == Done && Cell(q, i) == Cell(shape, index - shape.start) then value
                else ReadAt(old(data[..]), q, i)
    {
      var i: int;
      r, i := Locate(index);
      if r == Done {
        ElementInside(shape, data.Length, i);
        ghost var e := data[..];
        data[i * shape.scale + shape.offset] := value;
        forall q: Shape, j | Inside(q, data.Length) && 0 <= j < q.size
          ensures ReadAt(data[..], q, j) == if Cell(q, j) == Cell(shape, i) then value else ReadAt(e, q, j)
        {
          ElementInside(q, data.Length, j);
        }
      }
    }

    /** subarray, with the start and the scale where they are given. */
    method SubArray(index: int, size: int, origin: Option<int>, factor: Option<int>)
      returns (r: Answer, sub: Array?<T>)
      requires Valid()
      ensures var d, s := index - shape.start, if factor.Some? then factor.value else 1;
              var sound := Machine(index) && Machine(d) && 0 <= d < shape.size && Machine(size) && size >= 1
                && s != 0 &&
                             (origin.Some? ==> Machine(origin.value)) && Machine(s);
              && (r == Done <==> sound && Computable(shape, d, size, s) && Fits(shape, d, size, s))
              && (r == Permission <==> sound && Computable(shape, d, size, s) && !Fits(shape, d, size, s))
              && (r == Overflow <==> (Machine(index) && !Machine(d)) || (sound && !Computable(shape, d, size, s)))
      ensures r == Done ==>
                && sub != null && fresh(sub) && sub.data == data && sub.original == this && sub.Valid()
                && sub.shape == SubShape(shape, index - shape.start, size,
                     if origin.Some? then origin.value else shape.start, if factor.Some? then factor.value else 1)
    {
      var d: int;
      sub := null;
      r, d := Locate(index);
      if r != Done {
        return;
      }
      ElementInside(shape, data.Length, d);
      var offset := d * shape.scale + shape.offset;
      if size < 1 {
        return Domain(2), null;
      } else if !Machine(size) {
        return Representation(2), null;
      }
      var start, scale := shape.start, shape.scale;
      if origin.Some? {
        if !Machine(origin.value) {
          return Representation(3), null;
        }
        start := origin.value;
      }
      if factor.Some? {
        if !Machine(factor.value) {
          return Representation(4), null;
        } else if factor.value == 0 {
          return Domain(4), null;
        }
        scale := factor.value * shape.scale;
      }
      var end := offset + (size - 1) * scale;
      if !Machine(scale) || !Machine((size - 1) * scale) || !Machine(end) {
        return Overflow, null;
      }
      var oldEnd := shape.offset + (shape.size - 1) * shape.scale;
      ghost var s := if factor.Some? then factor.value else 1;
      TestExact(shape, d, size, start, s);
      if OutOfBounds(shape, offset, end, scale, oldEnd) {
        return Permission, null;
      }
      SubInside(shape, data.Length, d, size, start, s);
      sub := new Array<T>.View(data, Shape(size, offset, start, scale), this);
      return Done, sub;
    }
  }

  /** The numbers of the test are machine integers. */
  predicate Computable(whole: Shape, d: int, size: int, s: int) {
    var sub := SubShape(whole, d, size, 0, s);
    Machine(sub.scale) && Machine(Steps(size - 1, sub.scale)) && Machine(Cell(sub, size - 1))
  }

  /** new_array: all elements are the given term. */
  method NewArray<T(0)>(size: int, origin: Option<int>, nil: T) returns (r: Answer, a: Array?<T>)
    ensures r == Done <==> 1 <= size < 0x8000_0000 && (origin.Some? ==> Machine(origin.value))
    ensures r == Done ==> a != null && a.Valid() && a.data.Length == size && a.original == null
    ensures r == Done ==> fresh(a) && fresh(a.data)
    ensures r == Done ==> a.shape == Shape(size, 0, if origin.Some? then origin.value else 0, 1)
    ensures r == Done ==> forall i :: 0 <= i < size ==> a.data[i] == nil
  {
    if size < 1 {
      return Domain(1), null;
    } else if !Machine(size) {
      return Representation(1), null;
    }
    var start := 0;
    if origin.Some? {
      if !Machine(origin.value) {
        return Representation(2), null;
      }
      start := origin.value;
    }
    var data := new T[size](_ => nil);
    a := new Array<T>.View(data, Shape(size, 0, start, 1), null);
    return Done, a;
  }
}
