/** The java.util objects the tests update in place: HashMap (put, get, merge,
    computeIfAbsent), ArrayList (add, addAll) and AtomicLong (incrementAndGet).
    Null is never stored, so presence in a map is stated with Option. */
module JavaCollections {

  datatype Option<T> = None | Some(value: T)

  /** The entries HashMap.merge(key, value, remapping) leaves behind: an absent
      key receives value, a present key receives remapping(old, value), and
      every other key keeps its value. */
  function Merged<K, V>(m: map<K, V>, key: K, value: V, remapping: (V, V) -> V): (r: map<K, V>)
    ensures r.Keys == m.Keys + {key}
    ensures key !in m ==> r[key] == value
    ensures key in m ==> r[key] == remapping(m[key], value)
    ensures forall k :: k in m && k != key ==> r[k] == m[k]
  {
    m[key := if key in m then remapping(m[key], value) else value]
  }

  /** The entries HashMap.computeIfAbsent(key, k -> created) leaves behind: the
      created value is stored only when the key is absent. */
  function ComputedIfAbsent<K, V>(m: map<K, V>, key: K, created: V): (r: map<K, V>)
    ensures r.Keys == m.Keys + {key}
    ensures key in m ==> r == m
    ensures key !in m ==> r[key] == created && forall k :: k in m ==> r[k] == m[k]
  {
    if key in m then m else m[key := created]
  }

  /** Merging into an absent key is a plain put. */
  lemma MergeAbsentIsPut<K, V>(m: map<K, V>, key: K, value: V, remapping: (V, V) -> V)
    requires key !in m
    ensures Merged(m, key, value, remapping) == m[key := value]
  {
  }

  function Sum(a: int, b: int): int
  {
    a + b
  }

  /** Two merges with the sum remapping (Long::sum) add up: they leave the same
      entries as one merge of the summed value. */
  lemma MergeSumTwice<K>(m: map<K, int>, key: K, a: int, b: int)
    ensures Merged(Merged(m, key, a, Sum), key, b, Sum) == Merged(m, key, a + b, Sum)
  {
  }

  /** java.util.HashMap, with its entries as a map value. */
  class HashMap<K(==), V> {
    var entries: map<K, V>

    constructor ()
      ensures entries == map[]
    {
      entries := map[];
    }

    /** get, with absence as None instead of null. */
    method Get(key: K) returns (r: Option<V>)
      ensures key in entries ==> r == Some(entries[key])
      ensures key !in entries ==> r == None
    {
      if key in entries {
        r := Some(entries[key]);
      } else {
        r := None;
      }
    }

    /** put: stores value under key and returns the value it replaced. */
    method Put(key: K, value: V) returns (previous: Option<V>)
      modifies this
      ensures entries == old(entries)[key := value]
      ensures key in old(entries) ==> previous == Some(old(entries)[key])
      ensures key !in old(entries) ==> previous == None
    {
      previous := Get(key);
      entries := entries[key := value];
    }

    /** merge(key, value, remapping) with a remapping that never returns null:
        returns the value now stored under key. */
    method Merge(key: K, value: V, remapping: (V, V) -> V) returns (r: V)
      modifies this
      ensures entries == Merged(old(entries), key, value, remapping)
      ensures r == entries[key]
    {
      var current := Get(key);
      match current {
        case None =>
          r := value;
        case Some(existing) =>
          r := remapping(existing, value);
      }
      var _ := Put(key, r);
    }

    /** computeIfAbsent(key, k -> created): stores created only when key is
        absent, and returns the value stored under key, which for a present key
        is the very object already there. */
    method ComputeIfAbsent(key: K, created: V) returns (r: V)
      modifies this
      ensures entries == ComputedIfAbsent(old(entries), key, created)
      ensures key in old(entries) ==> r == old(entries)[key]
      ensures key !in old(entries) ==> r == created
    {
      var current := Get(key);
      match current {
        case Some(existing) =>
          r := existing;
        case None =>
          r := created;
          var _ := Put(key, r);
      }
    }
  }

  /** java.util.ArrayList, with its elements as a sequence. */
  class ArrayList<T> {
    var elems: seq<T>

    constructor ()
      ensures elems == []
    {
      elems := [];
    }

    /** new ArrayList<>(List.of(...)): a list holding a copy of xs. */
    constructor Of(xs: seq<T>)
      ensures elems == xs
    {
      elems := xs;
    }

    /** add: appends x; always reports a change. */
    method Add(x: T) returns (changed: bool)
      modifies this
      ensures elems == old(elems) + [x]
      ensures changed
    {
      elems := elems + [x];
      changed := true;
    }

    /** addAll: appends the elements other held at the call, in order; reports
        a change when there was something to append. */
    method AddAll(other: ArrayList<T>) returns (changed: bool)
      modifies this
      ensures elems == old(elems) + old(other.elems)
      ensures changed == (old(other.elems) != [])
    {
      changed := other.elems != [];
      elems := elems + other.elems;
    }
  }

  /** java.util.concurrent.atomic.AtomicLong, used from one thread. */
  class AtomicLong {
    var value: int

    constructor (initial: int)
      ensures value == initial
    {
      value := initial;
    }

    method IncrementAndGet() returns (r: int)
      modifies this
      ensures value == old(value) + 1
      ensures r == value
    {
      value := value + 1;
      r := value;
    }
  }
}
