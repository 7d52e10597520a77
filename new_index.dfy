/** The `NewIndex` trait of the runtime crate: what `t[index] = item` does to a Rust
    collection exposed to Lua. A vector grows with default values to reach the index; maps
    insert under the key; sets insert the item and ignore the index. */
module NewIndex {

  // ---------------------------------------------------------------------------------------
  // Vectors

  /** The vector after `new_index(index, item)`, where `dflt` is `T::default()`. */
  function VecAfter<T>(s: seq<T>, index: nat, item: T, dflt: T): (r: seq<T>)
    ensures |r| == if index < |s| then |s| else index + 1
    ensures r[index] == item
    ensures forall i :: 0 <= i < |s| && i != index ==> r[i] == s[i]
    ensures forall i :: |s| <= i < |r| && i != index ==> r[i] == dflt
  {
    var grown := if index >= |s| then s + seq(index + 1 - |s|, _ => dflt) else s;
    grown[index := item]
  }

  /** Writing the same item at the same index twice is writing it once. */
  lemma VecIdempotent<T>(s: seq<T>, index: nat, item: T, dflt: T)
    ensures VecAfter(VecAfter(s, index, item, dflt), index, item, dflt) == VecAfter(s, index, item, dflt)
  {
    var once := VecAfter(s, index, item, dflt);
    var twice := VecAfter(once, index, item, dflt);
    assert |twice| == |once|;
    forall i | 0 <= i < |once|
      ensures twice[i] == once[i]
    {
    }
  }

  /** The later of two writes at one index is the one that stays. */
  lemma VecLastWriteWins<T>(s: seq<T>, index: nat, x: T, y: T, dflt: T)
    ensures VecAfter(VecAfter(s, index, x, dflt), index, y, dflt) == VecAfter(s, index, y, dflt)
  {
    var a := VecAfter(VecAfter(s, index, x, dflt), index, y, dflt);
    var b := VecAfter(s, index, y, dflt);
    assert |a| == |b|;
    forall i | 0 <= i < |a|
      ensures a[i] == b[i]
    {
    }
  }

  /** Writes at two different indices commute: the slots between the old end and the highest
      index are defaults either way. */
  lemma VecWritesCommute<T>(s: seq<T>, i: nat, x: T, j: nat, y: T, dflt: T)
    requires i != j
    ensures VecAfter(VecAfter(s, i, x, dflt), j, y, dflt) == VecAfter(VecAfter(s, j, y, dflt), i, x, dflt)
  {
    var a := VecAfter(VecAfter(s, i, x, dflt), j, y, dflt);
    var b := VecAfter(VecAfter(s, j, y, dflt), i, x, dflt);
    assert |a| == |b|;
    forall k | 0 <= k < |a|
      ensures a[k] == b[k]
    {
    }
  }

  /** A `Vec<T>` whose elements Lua assigns by index. */
  class LuaVec<T> {
    var items: seq<T>
    /** `T::default()`. */
    const dflt: T

    constructor (init: seq<T>, dflt: T)
      ensures items == init && this.dflt == dflt
    {
      items := init;
      this.dflt := dflt;
    }

    /** `<Vec<T> as NewIndex>::new_index`. */
    method NewIndex(index: nat, item: T)
      modifies this
      ensures items == VecAfter(old(items), index, item, dflt)
    {
      if index >= |items| {
        items := items + seq(index + 1 - |items|, _ => dflt);
      }
      items := items[index := item];
    }
  }

  // ---------------------------------------------------------------------------------------
  // Maps

  /** The map after `new_index(index, item)`: `insert(index, item)`. */
  function MapAfter<K, V>(m: map<K, V>, index: K, item: V): (r: map<K, V>)
    ensures r.Keys == m.Keys + {index}
    ensures r[index] == item
    ensures forall k :: k in m && k != index ==> r[k] == m[k]
  {
    m[index := item]
  }

  /** Writes under two different keys commute, and a later write under a key replaces the
      earlier one. */
  lemma MapWrites<K, V>(m: map<K, V>, i: K, x: V, j: K, y: V)
    ensures i != j ==> MapAfter(MapAfter(m, i, x), j, y) == MapAfter(MapAfter(m, j, y), i, x)
    ensures i == j ==> MapAfter(MapAfter(m, i, x), j, y) == MapAfter(m, j, y)
  {
  }

  /** A `HashMap<K, V>` or `BTreeMap<K, V>` whose entries Lua assigns by key; the two differ
      only in iteration order, which assignment does not observe. */
  class LuaMap<K(==), V> {
    var entries: map<K, V>

    constructor (init: map<K, V>)
      ensures entries == init
    {
      entries := init;
    }

    /** `<HashMap<K, V> as NewIndex>::new_index` and `<BTreeMap<K, V> as NewIndex>::new_index`. */
    method NewIndex(index: K, item: V)
      modifies this
      ensures entries == MapAfter(old(entries), index, item)
    {
      entries := entries[index := item];
    }
  }

  // ---------------------------------------------------------------------------------------
  // Sets

  /** The set after `new_index(index, item)`: `insert(item)`; the index is not used. */
  function SetAfter<T>(s: set<T>, index: nat, item: T): (r: set<T>)
    ensures item in r
    ensures s <= r && r - {item} <= s
  {
    s + {item}
  }

  /** The index a set is assigned at makes no difference, and assigning an item the set
      already holds changes nothing: `set[1] = x` adds `x` rather than replacing the first
      element. */
  lemma SetIgnoresIndex<T>(s: set<T>, i: nat, j: nat, item: T)
    ensures SetAfter(s, i, item) == SetAfter(s, j, item)
    ensures item in s ==> SetAfter(s, i, item) == s
    ensures |SetAfter(s, i, item)| == if item in s then |s| else |s| + 1
  {
    if item !in s {
      assert SetAfter(s, i, item) - {item} == s;
    }
  }

  /** A `HashSet<T>` or `BTreeSet<T>` that Lua assigns into. */
  class LuaSet<T(==)> {
    var elems: set<T>

    constructor (init: set<T>)
      ensures elems == init
    {
      elems := init;
    }

    /** `<HashSet<T> as NewIndex>::new_index` and `<BTreeSet<T> as NewIndex>::new_index`. */
    method NewIndex(index: nat, item: T)
      modifies this
      ensures elems == SetAfter(old(elems), index, item)
    {
      elems := elems + {item};
    }
  }
}
