/** Open addressing in tables that grow: every table is a finite map. Keys that
    compare equal are one key here; the hash value is a function of the key. */
module HashTable {
  import opened HashProbe

  datatype Entry<K, V> = Vacant | Taken(key: K, value: V)

  /** The first j probes for the key meet other keys. */
  ghost predicate Passed<K, V>(e: seq<Entry<K, V>>, h: nat, key: K, j: nat)
    requires |e| > 0
  {
    forall i: nat :: i < j ==> Other(e[Probe(h, |e|, i)], key)
  }

  ghost predicate Other<K, V>(x: Entry<K, V>, key: K) {
    x.Taken? && x.key != key
  }

  /** Looking for the key comes to slot s. */
  ghost predicate Reached<K, V>(e: seq<Entry<K, V>>, h: nat, key: K, s: int)
    requires |e| > 0
  {
    exists j: nat :: Probe(h, |e|, j) == s && Passed(e, h, key, j)
  }

  ghost predicate Holds<K, V>(e: seq<Entry<K, V>>, s: int, key: K) {
    0 <= s < |e| && e[s].Taken? && e[s].key == key
  }

  /** Every key is where looking for it comes to. */
  ghost predicate Placed<K, V>(e: seq<Entry<K, V>>, hash: K -> nat) {
    |e| > 0 && IsPow2(|e|) && forall s :: OnPath(e, hash, s)
  }

  ghost predicate OnPath<K, V>(e: seq<Entry<K, V>>, hash: K -> nat, s: int)
    requires |e| > 0
  {
    0 <= s < |e| && e[s].Taken? ==> Reached(e, hash(e[s].key), e[s].key, s)
  }

  ghost function Used<K, V>(e: seq<Entry<K, V>>): set<int> {
    set s | 0 <= s < |e| && e[s].Taken?
  }

  // ------------------------------------------------ the map

  ghost function KeysOf<K, V>(e: seq<Entry<K, V>>): set<K> {
    set s | 0 <= s < |e| && e[s].Taken? :: e[s].key
  }

  ghost function ValueOf<K, V>(e: seq<Entry<K, V>>, k: K): V
    requires k in KeysOf(e)
  {
    assert exists s :: 0 <= s < |e| && e[s].Taken? && e[s].key == k;
    var s :| 0 <= s < |e| && e[s].Taken? && e[s].key == k;
    e[s].value
  }

  ghost function Contents<K, V>(e: seq<Entry<K, V>>): map<K, V> {
    map k | k in KeysOf(e) :: ValueOf(e, k)
  }

  lemma PassedAt<K, V>(e: seq<Entry<K, V>>, h: nat, key: K, j: nat, i: nat)
    requires |e| > 0 && Passed(e, h, key, j) && i < j
    ensures Other(e[Probe(h, |e|, i)], key)
  {
  }

  /** Where looking for a key passes by, there is another key. */
  lemma TwoPaths<K, V>(e: seq<Entry<K, V>>, h: nat, key: K, s: int, t: int)
    requires |e| > 0 && Reached(e, h, key, s) && Reached(e, h, key, t)
    ensures 0 <= s < |e| && 0 <= t < |e| && (s == t || Other(e[s], key) || Other(e[t], key))
  {
    hide Probe;
    var i: nat :| Probe(h, |e|, i) == s && Passed(e, h, key, i);
    var j: nat :| Probe(h, |e|, j) == t && Passed(e, h, key, j);
    if i < j {
      PassedAt(e, h, key, j, i);
    } else if j < i {
      PassedAt(e, h, key, i, j);
    }
  }

  lemma OneSlot<K, V>(e: seq<Entry<K, V>>, hash: K -> nat, s: int, t: int, key: K)
    requires Placed(e, hash) && Holds(e, s, key) && Holds(e, t, key)
    ensures s == t
  {
    hide IsPow2, Probe, Reached;
    assert OnPath(e, hash, s) && OnPath(e, hash, t);
    TwoPaths(e, hash(key), key, s, t);
  }

  lemma ContentsAt<K, V>(e: seq<Entry<K, V>>, hash: K -> nat, s: int, key: K)
    requires Placed(e, hash) && Holds(e, s, key)
    ensures key in Contents(e) && Contents(e)[key] == e[s].value
  {
    hide Placed;
    assert e[s].key in KeysOf(e);
    var t :| Holds(e, t, key) && ValueOf(e, key) == e[t].value;
    OneSlot(e, hash, s, t, key);
  }

  lemma InContents<K, V>(e: seq<Entry<K, V>>, key: K)
    ensures key in Contents(e) <==> exists s :: Holds(e, s, key)
  {
    if key in KeysOf(e) {
      var s :| 0 <= s < |e| && e[s].Taken? && e[s].key == key;
      assert Holds(e, s, key);
    }
  }

  /** Coming to a vacant slot means that the key is not in the table. */
  lemma NotThere<K, V>(e: seq<Entry<K, V>>, hash: K -> nat, s: int, key: K)
    requires Placed(e, hash) && 0 <= s < |e| && e[s].Vacant? && Reached(e, hash(key), key, s)
    ensures key !in Contents(e)
  {
    hide IsPow2, Probe, Contents, Reached;
    InContents(e, key);
    forall t
      ensures !Holds(e, t, key)
    {
      assert OnPath(e, hash, t);
      if Holds(e, t, key) {
        TwoPaths(e, hash(key), key, s, t);
      }
    }
  }

  /** Writing to a vacant slot, or another value to a taken one, leaves all keys
      where they are looked for. */
  lemma WritePlaced<K, V>(e: seq<Entry<K, V>>, hash: K -> nat, s: int, key: K, value: V)
    requires Placed(e, hash) && 0 <= s < |e| && Reached(e, hash(key), key, s)
    requires e[s].Vacant? || e[s].key == key
    ensures Placed(e[s := Taken(key, value)], hash)
  {
    hide IsPow2, Probe;
    var w := e[s := Taken(key, value)];
    forall t | 0 <= t < |w| && w[t].Taken?
      ensures OnPath(w, hash, t)
    {
      var k := w[t].key;
      assert OnPath(e, hash, t);
      var j: nat :| Probe(hash(k), |e|, j) == t && Passed(e, hash(k), k, j);
      forall i: nat | i < j
        ensures Other(w[Probe(hash(k), |w|, i)], k)
      {
        assert Other(e[Probe(hash(k), |e|, i)], k);
      }
      assert Passed(w, hash(k), k, j);
    }
  }

  lemma WriteContents<K, V>(e: seq<Entry<K, V>>, hash: K -> nat, s: int, key: K, value: V)
    requires Placed(e, hash) && 0 <= s < |e| && Reached(e, hash(key), key, s)
    requires e[s].Vacant? || e[s].key == key
    ensures Contents(e[s := Taken(key, value)]) == Contents(e)[key := value]
  {
    var w := e[s := Taken(key, value)];
    WritePlaced(e, hash, s, key, value);
    hide Placed, Contents, Reached;
    if e[s].Vacant? {
      NotThere(e, hash, s, key);
    } else {
      ContentsAt(e, hash, s, key);
    }
    ContentsAt(w, hash, s, key);
    forall k
      ensures k in Contents(w) <==> k in Contents(e)[key := value]
      ensures k in Contents(w) ==> Contents(w)[k] == Contents(e)[key := value][k]
    {
      InContents(w, k);
      InContents(e, k);
      if t :| k != key && Holds(w, t, k) {
        assert Holds(e, t, k);
        ContentsAt(w, hash, t, k);
        ContentsAt(e, hash, t, k);
      }
      if t :| k != key && Holds(e, t, k) {
        assert Holds(w, t, k);
      }
    }
  }

  lemma WriteUsed<K, V>(e: seq<Entry<K, V>>, s: int, x: Entry<K, V>)
    requires 0 <= s < |e| && x.Taken?
    ensures Used(e[s := x]) == Used(e) + {s}
  {
  }

  // ------------------------------------------------ looking up

  /** Taken slots only: so many have been probed, and there are no more. */
  lemma ProbedUsed<K, V>(e: seq<Entry<K, V>>, h: nat, key: K, j: nat)
    requires IsPow2(|e|) && j <= |e| && Passed(e, h, key, j)
    ensures j <= |Used(e)|
  {
    ProbedSize(h, |e|, j);
    hide Probe, IsPow2, Probed;
    var p := Probed(h, |e|, j);
    forall s | s in p
      ensures s in Used(e)
    {
      ProbedIs(h, |e|, j, s);
      var i: nat :| i < j && Probe(h, |e|, i) == s;
      assert Other(e[Probe(h, |e|, i)], key);
    }
    SubsetSize(p, Used(e));
  }

  lemma PassedNext<K, V>(e: seq<Entry<K, V>>, h: nat, key: K, j: nat)
    requires |e| > 0 && Passed(e, h, key, j) && Other(e[Probe(h, |e|, j)], key)
    ensures Passed(e, h, key, j + 1)
  {
  }

  /** The probe loop. It ends at the key or, as there is one, at a vacant slot. */
  method Search<K(==), V>(entry: array<Entry<K, V>>, h: nat, key: K) returns (found: bool, s: int)
    requires IsPow2(entry.Length) && |Used(entry[..])| < entry.Length
    ensures 0 <= s < entry.Length && Reached(entry[..], h, key, s)
    ensures if found then entry[s].Taken? && entry[s].key == key else entry[s].Vacant?
  {
    var n := entry.Length;
    TableLength(n);
    s := h % n;
    ghost var e, j := entry[..], 0;
    ProbeNext(h, n, 0);
    hide Probe, IsPow2, Used;
    while true
      invariant entry[..] == e && 0 <= s < n && s == Probe(h, n, j) && Passed(e, h, key, j) && j <= |Used(e)|
      decreases |Used(e)| - j
    {
      match entry[s] {
        case Vacant =>
          return false, s;
        case Taken(k, _) =>
          if k == key {
            return true, s;
          }
      }
      PassedNext(e, h, key, j);
      ProbedUsed(e, h, key, j + 1);
      ProbeNext(h, n, j);
      s := (s + Stride(h)) % n;
      j := j + 1;
    }
  }

  // ------------------------------------------------ lengths and limits

  /** Three quarters of the table. */
  function Limit(n: nat): nat {
    n / 2 + n / 4
  }

  lemma {:induction false} NextPow2(s: nat, n: nat)
    requires IsPow2(s) && IsPow2(n) && s < n
    ensures 2 * s <= n
    decreases s
  {
    if s > 1 {
      NextPow2(s / 2, n / 2);
    }
  }

  /** The length of a new table: a power of two, and a power of two asked for
      is given. */
  method LengthFor(n: nat) returns (s: nat)
    ensures IsPow2(s) && s >= 4 && s >= n
    ensures IsPow2(n) && n >= 4 ==> s == n
    ensures s == 4 || (n > 255 && s == 256) || s < 2 * n
  {
    s := 4;
    if n > 255 {
      s := 256;
      assert IsPow2(128) && IsPow2(64) && IsPow2(32) && IsPow2(16);
    }
    while s < n
      invariant IsPow2(s) && s >= 4 && (IsPow2(n) && n >= 4 ==> s <= n)
      invariant s == 4 || (n > 255 && s == 256) || s < 2 * n
      decreases n - s
    {
      if IsPow2(n) {
        NextPow2(s, n);
      }
      s := 2 * s;
    }
  }

  /** clear_hash_table, and the initialisation of a new table. */
  method ClearEntries<K, V>(entry: array<Entry<K, V>>)
    modifies entry
    ensures forall s :: 0 <= s < entry.Length ==> entry[s].Vacant?
  {
    var n := entry.Length;
    while n != 0
      invariant 0 <= n <= entry.Length && forall s :: n <= s < entry.Length ==> entry[s].Vacant?
    {
      n := n - 1;
      entry[n] := Vacant;
    }
  }

  lemma AllVacant<K, V>(e: seq<Entry<K, V>>, hash: K -> nat)
    requires IsPow2(|e|) && forall s :: 0 <= s < |e| ==> e[s].Vacant?
    ensures |e| > 0 && Placed(e, hash) && Contents(e) == map[] && Used(e) == {}
  {
    assert KeysOf(e) == {};
  }

  // ------------------------------------------------ growing

  /** The entries below i as a map, later ones first. */
  ghost function MapTo<K, V>(e: seq<Entry<K, V>>, i: nat): map<K, V>
    requires i <= |e|
  {
    if i == 0 then map[]
    else if e[i - 1].Taken? then MapTo(e, i - 1)[e[i - 1].key := e[i - 1].value]
    else MapTo(e, i - 1)
  }

  lemma {:induction false} InMapTo<K, V>(e: seq<Entry<K, V>>, hash: K -> nat, i: nat, k: K)
    requires Placed(e, hash) && i <= |e|
    ensures k in MapTo(e, i) <==> exists s :: Holds(e, s, k) && s < i
    ensures k in MapTo(e, i) ==> k in Contents(e) && MapTo(e, i)[k] == Contents(e)[k]
    decreases i
  {
    hide Placed, Contents;
    if i > 0 {
      InMapTo(e, hash, i - 1, k);
      if Holds(e, i - 1, k) {
        ContentsAt(e, hash, i - 1, k);
      }
    }
  }

  lemma WholeMap<K, V>(e: seq<Entry<K, V>>, hash: K -> nat)
    requires Placed(e, hash)
    ensures MapTo(e, |e|) == Contents(e)
  {
    hide Placed, Contents;
    var a, b := MapTo(e, |e|), Contents(e);
    forall k | k in a
      ensures k in b && a[k] == b[k]
    {
      InMapTo(e, hash, |e|, k);
    }
    forall k | k in b
      ensures k in a
    {
      InMapTo(e, hash, |e|, k);
      InContents(e, k);
      var s :| Holds(e, s, k);
      assert s < |e|;
    }
    assert a.Keys == b.Keys;
    assert a == b;
  }

  ghost function UsedTo<K, V>(e: seq<Entry<K, V>>, i: nat): set<int> {
    set s | 0 <= s < i && s < |e| && e[s].Taken?
  }

  lemma UsedStep<K, V>(e: seq<Entry<K, V>>, i: nat)
    requires i < |e|
    ensures UsedTo(e, i + 1) == if e[i].Taken? then UsedTo(e, i) + {i} else UsedTo(e, i)
    ensures i !in UsedTo(e, i)
  {
  }

  lemma UsedAll<K, V>(e: seq<Entry<K, V>>)
    ensures UsedTo(e, |e|) == Used(e)
  {
  }

  lemma FirstTime<K, V>(e: seq<Entry<K, V>>, hash: K -> nat, i: nat)
    requires Placed(e, hash) && i < |e| && e[i].Taken?
    ensures e[i].key !in MapTo(e, i)
  {
    hide Placed;
    var k := e[i].key;
    InMapTo(e, hash, i, k);
    if s :| Holds(e, s, k) && s < i {
      OneSlot(e, hash, s, i, k);
    }
  }

  lemma MapStep<K, V>(e: seq<Entry<K, V>>, i: nat)
    requires i < |e|
    ensures MapTo(e, i + 1) == if e[i].Taken? then MapTo(e, i)[e[i].key := e[i].value] else MapTo(e, i)
  {
  }

  lemma MapStart<K, V>(e: seq<Entry<K, V>>)
    ensures MapTo(e, 0) == map[] && UsedTo(e, 0) == {}
  {
  }

  /** A key that is not in the table is looked up to a vacant slot. */
  lemma VacantHere<K, V>(e: seq<Entry<K, V>>, s: int, key: K)
    requires key !in Contents(e) && 0 <= s < |e| && (e[s].Vacant? || e[s].key == key)
    ensures e[s].Vacant? && s !in Used(e)
  {
    InContents(e, key);
    assert !Holds(e, s, key);
  }

  lemma UsedToBound<K, V>(e: seq<Entry<K, V>>, i: nat)
    requires i <= |e|
    ensures |UsedTo(e, i)| <= |e|
  {
    SubsetSize(UsedTo(e, i), Slots(|e|));
  }

  /** Every entry of the old table is looked up in the new one and written where
      that ends; the limit of the new table comes out of it. */
  method Rehash<K(==), V>(from: array<Entry<K, V>>, entry: array<Entry<K, V>>, hash: K -> nat)
    returns (limit: int)
    requires Placed(from[..], hash) && from != entry
    requires IsPow2(entry.Length) && entry.Length >= 2 * from.Length
    requires forall s :: 0 <= s < entry.Length ==> entry[s].Vacant?
    modifies entry
    ensures Placed(entry[..], hash) && Contents(entry[..]) == Contents(from[..])
    ensures |Used(entry[..])| == |Used(from[..])| && limit == Limit(entry.Length) - |Used(entry[..])|
  {
    limit := Limit(entry.Length);
    ghost var e := from[..];
    AllVacant(entry[..], hash);
    var n, i := from.Length, 0;
    hide *;
    MapStart(e);
    while i < n
      invariant 0 <= i <= n && from[..] == e
      invariant |entry[..]| > 0 && Placed(entry[..], hash) && Contents(entry[..]) == MapTo(e, i)
      invariant |Used(entry[..])| == |UsedTo(e, i)| && limit == Limit(entry.Length) - |Used(entry[..])|
    {
      UsedStep(e, i);
      MapStep(e, i);
      match from[i] {
        case Vacant =>
        case Taken(key, value) =>
          ghost var w := entry[..];
          UsedToBound(e, i);
          var found, s := Search(entry, hash(key), key);
          FirstTime(e, hash, i);
          VacantHere(w, s, key);
          entry[s] := from[i];
          WritePlaced(w, hash, s, key, value);
          WriteContents(w, hash, s, key, value);
          WriteUsed(w, s, from[i]);
          limit := limit - 1;
      }
      i := i + 1;
    }
    WholeMap(e, hash);
    UsedAll(e);
  }

  // ------------------------------------------------ tables

  datatype Option<V> = None | Some(value: V)

  class Table<K(==), V> {
    const hash: K -> nat
    var entry: array<Entry<K, V>>
    var limit: int

    /** limit counts the slots left until the table is three quarters full. */
    ghost predicate Sound()
      reads this, entry
    {
      && entry.Length >= 4 && Placed(entry[..], hash)
      && limit == Limit(entry.Length) - |Used(entry[..])| && limit >= 0
    }

    ghost predicate Valid()
      reads this, entry
    {
      Sound() && limit >= 1
    }

    ghost function Map(): map<K, V>
      reads this, entry
    {
      Contents(entry[..])
    }

    /** At least a quarter of the slots is vacant. */
    lemma RoomLeft()
      requires Sound()
      ensures |Used(entry[..])| <= Limit(entry.Length) < entry.Length
    {
    }

    /** new_hash_table */
    constructor (hash: K -> nat, n: nat)
      ensures Valid() && Map() == map[] && this.hash == hash && fresh(entry)
    {
      this.hash := hash;
      var s := LengthFor(n);
      var e := new Entry<K, V>[s](_ => Vacant);
      entry := e;
      limit := Limit(s);
      new;
      AllVacant(entry[..], hash);
    }

    /** HashLookup: found, or the slot where the key is to be entered. */
    method Lookup(key: K) returns (found: bool, s: int)
      requires Valid()
      ensures 0 <= s < entry.Length && Reached(entry[..], hash(key), key, s)
      ensures found <==> key in Map()
      ensures found ==> entry[s] == Taken(key, Map()[key])
      ensures !found ==> entry[s].Vacant?
    {
      RoomLeft();
      found, s := Search(entry, hash(key), key);
      if found {
        ContentsAt(entry[..], hash, s, key);
      } else {
        NotThere(entry[..], hash, s, key);
      }
    }

    /** The value found, overwritten by a new one. */
    method Overwrite(s: int, value: V)
      requires Valid() && 0 <= s < entry.Length && entry[s].Taken?
      modifies entry
      ensures Valid() && Map() == old(Map())[old(entry[s].key) := value]
    {
      ghost var e := entry[..];
      var key := entry[s].key;
      entry[s] := Taken(key, value);
      assert OnPath(e, hash, s);
      assert entry[..] == e[s := Taken(key, value)];
      assert s in Used(e) && Used(e) + {s} == Used(e);
      hide Placed, Contents, Used, Reached, Limit;
      WritePlaced(e, hash, s, key, value);
      WriteContents(e, hash, s, key, value);
      WriteUsed(e, s, Taken(key, value));
    }

    /** HashEnter, after a lookup that came to the vacant slot s. */
    method Enter(s: int, key: K, value: V)
      requires Valid() && 0 <= s < entry.Length && entry[s].Vacant? && Reached(entry[..], hash(key), key, s)
      modifies this, entry
      ensures Valid() && Map() == old(Map())[key := value]
      ensures entry == old(entry) || fresh(entry)
    {
      ghost var e := entry[..];
      entry[s] := Taken(key, value);
      assert entry[..] == e[s := Taken(key, value)];
      WritePlaced(e, hash, s, key, value);
      WriteContents(e, hash, s, key, value);
      WriteUsed(e, s, Taken(key, value));
      limit := limit - 1;
      if limit == 0 {
        Grow();
      }
    }

    /** grow_hash_table: the table is replaced by one twice as long. */
    method Grow()
      requires Sound() && limit == 0
      modifies this
      ensures Valid() && Map() == old(Map()) && fresh(entry) && entry.Length == 2 * old(entry.Length)
    {
      var n := entry.Length;
      var more := LengthFor(2 * n);
      var e := new Entry<K, V>[more](_ => Vacant);
      limit := Rehash(entry, e, hash);
      entry := e;
    }

    /** set: a key gets a value, in place of the one it had. */
    method Set(key: K, value: V)
      requires Valid()
      modifies this, entry
      ensures Valid() && Map() == old(Map())[key := value]
      ensures entry == old(entry) || fresh(entry)
    {
      var found, s := Lookup(key);
      if found {
        Overwrite(s, value);
      } else {
        Enter(s, key, value);
      }
    }

    /** get */
    method Get(key: K) returns (r: Option<V>)
      requires Valid()
      ensures r == if key in Map() then Some(Map()[key]) else None
    {
      var found, s := Lookup(key);
      if found {
        return Some(entry[s].value);
      }
      return None;
    }

    /** clear_hash_table */
    method Clear()
      requires Valid()
      modifies this`limit, entry
      ensures Valid() && Map() == map[]
    {
      ClearEntries(entry);
      limit := Limit(entry.Length);
      AllVacant(entry[..], hash);
    }
  }
}
