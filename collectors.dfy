/** The mutable-reduction protocol of java.util.stream (Stream.collect with a
    Collector, or with a supplier, an accumulator and a combiner) and the
    collectors of java.util.stream.Collectors that the tests use: toList,
    counting, toSet, mapping and groupingBy. Containers are values here: an
    accumulator returns the updated container instead of mutating it. */
module Collectors {
  import opened Streams

  /** A collector: the initial container, how one element is added to a
      container, how two partial containers are combined, and the final
      transformation of the container into the result. */
  datatype Collector<!T, !A, R> = Collector(
    supplier: A,
    accumulator: (A, T) -> A,
    combiner: (A, A) -> A,
    finisher: A -> R)

  /** Sequential drain: the elements are added to the container a one after the
      other, in encounter order. */
  function Fold<T, A>(s: seq<T>, accumulator: (A, T) -> A, a: A): A
  {
    if s == [] then a else accumulator(Fold(s[..|s| - 1], accumulator, a), s[|s| - 1])
  }

  /** Stream.collect on a sequential stream: start from supplier(), add every
      element, then apply the finisher. The combiner is not used. */
  function Collect<T, A, R>(s: seq<T>, c: Collector<T, A, R>): R
  {
    c.finisher(Fold(s, c.accumulator, c.supplier))
  }

  /** Draining a + b is draining b starting from where draining a ended. */
  lemma {:induction false} FoldAppend<T, A>(a: seq<T>, b: seq<T>, accumulator: (A, T) -> A, start: A)
    ensures Fold(a + b, accumulator, start) == Fold(b, accumulator, Fold(a, accumulator, start))
    decreases |b|
  {
    if b == [] {
      assert a + b == a;
    } else {
      var front := b[..|b| - 1];
      assert (a + b)[..|a + b| - 1] == a + front;
      assert (a + b)[|a + b| - 1] == b[|b| - 1];
      FoldAppend(a, front, accumulator, start);
    }
  }

  function Identity<T>(x: T): T
  {
    x
  }

  // ---------------------------------------------------------------------------
  // The collectors

  /** Collectors.toList(): an empty list, element append, list concatenation. */
  function ToList<T>(): Collector<T, seq<T>, seq<T>>
  {
    Collector([], (a: seq<T>, t: T) => a + [t], (a: seq<T>, b: seq<T>) => a + b, Identity)
  }

  /** Collectors.counting(): a counter starting at 0, incremented per element,
      partial counts added. */
  function Counting<T>(): Collector<T, int, int>
  {
    Collector(0, (n: int, t: T) => n + 1, (m: int, n: int) => m + n, Identity)
  }

  /** Collectors.toSet(): an empty set, element insertion, set union. */
  function ToSet<T>(): Collector<T, set<T>, set<T>>
  {
    Collector({}, (a: set<T>, t: T) => a + {t}, (a: set<T>, b: set<T>) => a + b, Identity)
  }

  /** Collectors.mapping(mapper, downstream): applies mapper to every element
      before handing it to the downstream collector. */
  function Mapping<T, U, A, R>(mapper: T -> U, downstream: Collector<U, A, R>): Collector<T, A, R>
  {
    Collector(
      downstream.supplier,
      (a: A, t: T) => downstream.accumulator(a, mapper(t)),
      downstream.combiner,
      downstream.finisher)
  }

  /** Merges the entries of m2 into m1, as Map.merge(key, value, combiner) does
      for every entry of m2: keys on one side only are copied through. */
  function MergeMaps<K, A>(m1: map<K, A>, m2: map<K, A>, combiner: (A, A) -> A): map<K, A>
  {
    map k | k in m1.Keys + m2.Keys ::
      if k in m1 && k in m2 then combiner(m1[k], m2[k]) else if k in m1 then m1[k] else m2[k]
  }

  /** Collectors.groupingBy(classifier, downstream) and groupingByConcurrent, run
      sequentially: the container maps each key seen so far to its downstream
      container, created by the downstream supplier on the key's first element;
      the finisher applies the downstream finisher to every value. */
  function GroupingBy<T, K, A, R>(classifier: T -> K, downstream: Collector<T, A, R>): Collector<T, map<K, A>, map<K, R>>
  {
    Collector(
      map[],
      (m: map<K, A>, t: T) =>
        var k := classifier(t);
        m[k := downstream.accumulator(if k in m then m[k] else downstream.supplier, t)],
      (m1: map<K, A>, m2: map<K, A>) => MergeMaps(m1, m2, downstream.combiner),
      (m: map<K, A>) => map k | k in m :: downstream.finisher(m[k]))
  }

  // ---------------------------------------------------------------------------
  // What each collector computes

  /** The keys the classifier produces on the elements of s. */
  function Classes<T(==), K>(s: seq<T>, classifier: T -> K): set<K>
  {
    set x | x in s :: classifier(x)
  }

  /** The test "the key of x is k", as a stream predicate. */
  function KeyIs<T, K(==)>(classifier: T -> K, k: K): T -> bool
  {
    (x: T) => classifier(x) == k
  }

  /** The elements of s whose key is k, in encounter order. */
  function Select<T, K(==)>(s: seq<T>, classifier: T -> K, k: K): seq<T>
  {
    Filter(s, KeyIs(classifier, k))
  }

  /** Grouping by identity yields one key per distinct element. */
  lemma ClassesIdentity<T>(s: seq<T>)
    ensures Classes(s, Identity) == set x | x in s
  {
    assert forall x: T :: Identity(x) == x;
  }

  /** When the downstream finisher is the identity (toList, counting, toSet), so
      is the grouping finisher: the result is the drained container. */
  lemma GroupingIdentityFinish<T, K, A(!new)>(s: seq<T>, classifier: T -> K, downstream: Collector<T, A, A>)
    requires forall a :: downstream.finisher(a) == a
    ensures Collect(s, GroupingBy(classifier, downstream)) == Fold(s, GroupingBy(classifier, downstream).accumulator, map[])
  {
    var g := GroupingBy(classifier, downstream);
    var m := Fold(s, g.accumulator, map[]);
    assert g.finisher(m) == map k | k in m :: downstream.finisher(m[k]);
    var r := map k | k in m :: downstream.finisher(m[k]);
    assert r.Keys == m.Keys;
    forall k | k in m ensures r[k] == m[k] {
      assert downstream.finisher(m[k]) == m[k];
    }
    assert r == m;
  }

  /** toList collects the elements themselves, in encounter order. */
  lemma {:induction false} ToListCollects<T>(s: seq<T>)
    ensures Collect(s, ToList()) == s
  {
    if s != [] {
      ToListCollects(s[..|s| - 1]);
    }
  }

  /** counting collects the number of elements. */
  lemma {:induction false} CountingCollects<T>(s: seq<T>)
    ensures Collect(s, Counting()) == |s|
  {
    if s != [] {
      CountingCollects(s[..|s| - 1]);
    }
  }

  /** toSet collects the set of distinct elements. */
  lemma {:induction false} ToSetCollects<T>(s: seq<T>)
    ensures Collect(s, ToSet()) == set x | x in s
  {
    if s != [] {
      var front := s[..|s| - 1];
      ToSetCollects(front);
      assert s == front + [s[|s| - 1]];
    }
  }

  /** mapping(f, d) collects what d collects from the mapped elements. */
  lemma {:induction false} MappingFolds<T, U, A, R>(s: seq<T>, mapper: T -> U, downstream: Collector<U, A, R>, start: A)
    ensures Fold(s, Mapping(mapper, downstream).accumulator, start) == Fold(Map(s, mapper), downstream.accumulator, start)
  {
    if s != [] {
      var front := s[..|s| - 1];
      MappingFolds(front, mapper, downstream, start);
      assert Map(s, mapper)[..|s| - 1] == Map(front, mapper);
    }
  }

  lemma MappingCollects<T, U, A, R>(s: seq<T>, mapper: T -> U, downstream: Collector<U, A, R>)
    ensures Collect(s, Mapping(mapper, downstream)) == Collect(Map(s, mapper), downstream)
  {
    MappingFolds(s, mapper, downstream, downstream.supplier);
  }

  /** A key the classifier never produces selects nothing. */
  lemma {:induction false} SelectOutsideClasses<T, K>(s: seq<T>, classifier: T -> K, k: K)
    requires k !in Classes(s, classifier)
    ensures Select(s, classifier, k) == []
  {
    if s != [] {
      var front, last := s[..|s| - 1], s[|s| - 1];
      assert s == front + [last];
      assert Classes(front, classifier) <= Classes(s, classifier);
      SelectOutsideClasses(front, classifier, k);
    }
  }

  lemma SelectSnoc<T, K>(front: seq<T>, last: T, classifier: T -> K, k: K)
    ensures Select(front + [last], classifier, k)
         == Select(front, classifier, k) + (if classifier(last) == k then [last] else [])
  {
    var s := front + [last];
    assert s[..|s| - 1] == front && s[|s| - 1] == last;
  }

  lemma ClassesSnoc<T, K>(front: seq<T>, last: T, classifier: T -> K)
    ensures Classes(front + [last], classifier) == Classes(front, classifier) + {classifier(last)}
  {
    var s := front + [last];
    forall x | x in s ensures x in front || x == last { }
  }

  lemma FoldSnoc<T, A>(front: seq<T>, last: T, accumulator: (A, T) -> A, a: A)
    ensures Fold(front + [last], accumulator, a) == accumulator(Fold(front, accumulator, a), last)
  {
    var s := front + [last];
    assert s[..|s| - 1] == front && s[|s| - 1] == last;
  }

  /** The downstream container a grouping starts key k from. */
  function StartOf<T, K, A, R>(m0: map<K, A>, k: K, downstream: Collector<T, A, R>): A
  {
    if k in m0 then m0[k] else downstream.supplier
  }

  /** m is what grouping s from the start container m0 should give: one entry per
      key of m0 or of an element, and for key k the downstream accumulation of
      exactly the elements with key k, from m0's entry or a fresh container. */
  ghost predicate GroupedFrom<T, K, A, R>(s: seq<T>, classifier: T -> K, downstream: Collector<T, A, R>, m0: map<K, A>, m: map<K, A>)
  {
    && m.Keys == m0.Keys + Classes(s, classifier)
    && forall k :: k in m ==> m[k] == Fold(Select(s, classifier, k), downstream.accumulator, StartOf(m0, k, downstream))
  }

  /** One more element extends exactly the group of its key and leaves the
      other groups as they were. */
  lemma GroupingStepAt<T, K, A, R>(front: seq<T>, last: T, classifier: T -> K, downstream: Collector<T, A, R>, m0: map<K, A>, prev: map<K, A>, k: K)
    requires prev.Keys == m0.Keys + Classes(front, classifier)
    requires k in prev ==> prev[k] == Fold(Select(front, classifier, k), downstream.accumulator, StartOf(m0, k, downstream))
    ensures var m := GroupingBy(classifier, downstream).accumulator(prev, last);
      k in m ==> m[k] == Fold(Select(front + [last], classifier, k), downstream.accumulator, StartOf(m0, k, downstream))
  {
    var key := classifier(last);
    var acc, start := downstream.accumulator, StartOf(m0, k, downstream);
    var m := prev[key := acc(StartOf(prev, key, downstream), last)];
    assert GroupingBy(classifier, downstream).accumulator(prev, last) == m;
    var before := Select(front, classifier, k);
    if k == key {
      assert Select(front + [last], classifier, k) == before + [last] by {
        SelectSnoc(front, last, classifier, k);
      }
      assert Fold(before + [last], acc, start) == acc(Fold(before, acc, start), last) by {
        FoldSnoc(before, last, acc, start);
      }
      assert StartOf(prev, key, downstream) == Fold(before, acc, start) by {
        if key !in prev {
          SelectOutsideClasses(front, classifier, key);
        }
      }
    } else {
      assert Select(front + [last], classifier, k) == before by {
        SelectSnoc(front, last, classifier, k);
      }
    }
  }

  lemma GroupingStep<T, K, A, R>(front: seq<T>, last: T, classifier: T -> K, downstream: Collector<T, A, R>, m0: map<K, A>, prev: map<K, A>)
    requires GroupedFrom(front, classifier, downstream, m0, prev)
    ensures GroupedFrom(front + [last], classifier, downstream, m0,
                        GroupingBy(classifier, downstream).accumulator(prev, last))
  {
    var m := GroupingBy(classifier, downstream).accumulator(prev, last);
    assert m.Keys == m0.Keys + Classes(front + [last], classifier) by {
      assert m.Keys == prev.Keys + {classifier(last)};
      ClassesSnoc(front, last, classifier);
    }
    forall k | k in m
      ensures m[k] == Fold(Select(front + [last], classifier, k), downstream.accumulator, StartOf(m0, k, downstream))
    {
      GroupingStepAt(front, last, classifier, downstream, m0, prev, k);
    }
  }

  /** Draining s into a grouping container started at m0 groups s from m0. */
  lemma {:induction false} GroupingFolds<T, K, A, R>(s: seq<T>, classifier: T -> K, downstream: Collector<T, A, R>, m0: map<K, A>)
    ensures GroupedFrom(s, classifier, downstream, m0, Fold(s, GroupingBy(classifier, downstream).accumulator, m0))
  {
    if s == [] {
      assert Classes(s, classifier) == {};
    } else {
      var front, last := s[..|s| - 1], s[|s| - 1];
      assert s == front + [last];
      GroupingFolds(front, classifier, downstream, m0);
      GroupingStep(front, last, classifier, downstream, m0,
                   Fold(front, GroupingBy(classifier, downstream).accumulator, m0));
    }
  }

  /** groupingBy(classifier, d) has exactly the keys the classifier produces on
      the elements, and maps each key to what d collects from exactly the
      elements with that key, in encounter order. */
  lemma GroupingCollects<T, K, A, R>(s: seq<T>, classifier: T -> K, downstream: Collector<T, A, R>)
    ensures var g := Collect(s, GroupingBy(classifier, downstream));
      && g.Keys == Classes(s, classifier)
      && forall k :: k in g ==> g[k] == Collect(Select(s, classifier, k), downstream)
  {
    GroupingFolds(s, classifier, downstream, map[]);
  }

  // ---------------------------------------------------------------------------
  // The combiner requirement: combining partial results equals draining the
  // concatenated input

  /** Combining a container with the result of draining s from a fresh
      container gives the same as draining s into the first container. */
  ghost predicate CombinerConsistent<T(!new), A(!new), R>(c: Collector<T, A, R>)
  {
    forall a: A, s: seq<T> {:trigger Fold(s, c.accumulator, a)} ::
      c.combiner(a, Fold(s, c.accumulator, c.supplier)) == Fold(s, c.accumulator, a)
  }

  /** For a consistent collector, the combination of the partial results of
      two halves equals the result of draining the whole input. */
  lemma CombineHalves<T(!new), A(!new), R>(c: Collector<T, A, R>, s1: seq<T>, s2: seq<T>)
    requires CombinerConsistent(c)
    ensures c.combiner(Fold(s1, c.accumulator, c.supplier), Fold(s2, c.accumulator, c.supplier))
         == Fold(s1 + s2, c.accumulator, c.supplier)
  {
    FoldAppend(s1, s2, c.accumulator, c.supplier);
  }

  lemma {:induction false} ToListFolds<T>(s: seq<T>, a: seq<T>)
    ensures Fold(s, ToList<T>().accumulator, a) == a + s
  {
    if s != [] {
      ToListFolds(s[..|s| - 1], a);
      assert a + s == a + s[..|s| - 1] + [s[|s| - 1]];
    }
  }

  lemma ToListConsistent<T(!new)>()
    ensures CombinerConsistent(ToList<T>())
  {
    forall a: seq<T>, s: seq<T>
      ensures ToList<T>().combiner(a, Fold(s, ToList<T>().accumulator, [])) == Fold(s, ToList<T>().accumulator, a)
    {
      ToListFolds(s, a);
      ToListFolds(s, []);
    }
  }

  lemma {:induction false} CountingFolds<T>(s: seq<T>, a: int)
    ensures Fold(s, Counting<T>().accumulator, a) == a + |s|
  {
    if s != [] {
      CountingFolds(s[..|s| - 1], a);
    }
  }

  lemma CountingConsistent<T(!new)>()
    ensures CombinerConsistent(Counting<T>())
  {
    forall a: int, s: seq<T>
      ensures Counting<T>().combiner(a, Fold(s, Counting<T>().accumulator, 0)) == Fold(s, Counting<T>().accumulator, a)
    {
      CountingFolds(s, a);
      CountingFolds(s, 0);
    }
  }

  lemma {:induction false} ToSetFolds<T>(s: seq<T>, a: set<T>)
    ensures Fold(s, ToSet<T>().accumulator, a) == a + set x | x in s
  {
    if s != [] {
      var front := s[..|s| - 1];
      ToSetFolds(front, a);
      assert s == front + [s[|s| - 1]];
    }
  }

  lemma ToSetConsistent<T(!new)>()
    ensures CombinerConsistent(ToSet<T>())
  {
    forall a: set<T>, s: seq<T>
      ensures ToSet<T>().combiner(a, Fold(s, ToSet<T>().accumulator, {})) == Fold(s, ToSet<T>().accumulator, a)
    {
      ToSetFolds(s, a);
      ToSetFolds(s, {});
    }
  }

  lemma MappingConsistent<T(!new), U(!new), A(!new), R>(mapper: T -> U, downstream: Collector<U, A, R>)
    requires CombinerConsistent(downstream)
    ensures CombinerConsistent(Mapping(mapper, downstream))
  {
    var c := Mapping(mapper, downstream);
    forall a: A, s: seq<T>
      ensures c.combiner(a, Fold(s, c.accumulator, c.supplier)) == Fold(s, c.accumulator, a)
    {
      MappingFolds(s, mapper, downstream, a);
      MappingFolds(s, mapper, downstream, downstream.supplier);
      assert downstream.combiner(a, Fold(Map(s, mapper), downstream.accumulator, downstream.supplier))
          == Fold(Map(s, mapper), downstream.accumulator, a);
    }
  }

  /** groupingBy's combiner merges key by key with the downstream combiner; it
      is consistent whenever the downstream collector's is. */
  lemma GroupingConsistent<T(!new), K(!new), A(!new), R>(classifier: T -> K, downstream: Collector<T, A, R>)
    requires CombinerConsistent(downstream)
    ensures CombinerConsistent(GroupingBy(classifier, downstream))
  {
    var g := GroupingBy(classifier, downstream);
    forall m1: map<K, A>, s: seq<T>
      ensures g.combiner(m1, Fold(s, g.accumulator, g.supplier)) == Fold(s, g.accumulator, m1)
    {
      GroupingFolds(s, classifier, downstream, map[]);
      GroupingFolds(s, classifier, downstream, m1);
      var drained := Fold(s, g.accumulator, map[]);
      var l := MergeMaps(m1, drained, downstream.combiner);
      var r := Fold(s, g.accumulator, m1);
      forall k | k in l ensures k in r && l[k] == r[k] {
        var sel := Select(s, classifier, k);
        if k in m1 && k in drained {
          assert downstream.combiner(m1[k], Fold(sel, downstream.accumulator, downstream.supplier))
              == Fold(sel, downstream.accumulator, m1[k]);
        } else if k in m1 {
          SelectOutsideClasses(s, classifier, k);
        }
      }
      assert l == r;
    }
  }

  // ---------------------------------------------------------------------------
  // Grouping by identity

  lemma {:induction false} AllCopiesCount<T>(r: seq<T>, k: T)
    requires forall x :: x in r ==> x == k
    ensures multiset(r)[k] == |r|
  {
    if r != [] {
      var front, last := r[..|r| - 1], r[|r| - 1];
      assert r == front + [last];
      assert last in r;
      assert forall x :: x in front ==> x in r;
      AllCopiesCount(front, k);
      assert multiset(r) == multiset(front) + multiset{last};
    }
  }

  /** Grouping by identity: the group of k holds only copies of k, as many as k
      occurs in s. */
  lemma SelectIdentity<T>(s: seq<T>, k: T)
    ensures forall x :: x in Select(s, Identity, k) ==> x == k
    ensures |Select(s, Identity, k)| == multiset(s)[k]
  {
    var r := Select(s, Identity, k);
    FilterCounts(s, KeyIs(Identity, k));
    forall x | x in r ensures x == k {
      assert KeyIs(Identity, k)(x) && Identity(x) == x;
    }
    AllCopiesCount(r, k);
  }

  // ---------------------------------------------------------------------------
  // Sum of the values of a map

  ghost function SumValues<K>(m: map<K, int>): int
    decreases |m|
  {
    if m == map[] then 0
    else
      var k :| k in m;
      assert |m - {k}| < |m| by { assert (m - {k}).Keys == m.Keys - {k}; }
      m[k] + SumValues(m - {k})
  }

  /** The sum does not depend on which key is taken first. */
  lemma {:induction false} SumValuesRemove<K>(m: map<K, int>, k: K)
    requires k in m
    ensures SumValues(m) == m[k] + SumValues(m - {k})
    decreases |m|
  {
    var j :| j in m && SumValues(m) == m[j] + SumValues(m - {j});
    if j != k {
      assert (m - {j}).Keys == m.Keys - {j};
      assert (m - {k}).Keys == m.Keys - {k};
      SumValuesRemove(m - {j}, k);
      SumValuesRemove(m - {k}, j);
      assert m - {j} - {k} == m - {k} - {j};
    }
  }

  lemma SumValuesUpdate<K>(m: map<K, int>, k: K, v: int)
    ensures SumValues(m[k := v]) == SumValues(m) - (if k in m then m[k] else 0) + v
  {
    SumValuesRemove(m[k := v], k);
    assert m[k := v] - {k} == m - {k};
    if k in m {
      SumValuesRemove(m, k);
    } else {
      assert m - {k} == m;
    }
  }

  /** groupingBy with a counting downstream: the counts add up to the number
      of elements. */
  lemma {:induction false} GroupCountsSum<T, K>(s: seq<T>, classifier: T -> K)
    ensures SumValues(Collect(s, GroupingBy(classifier, Counting()))) == |s|
  {
    var g := GroupingBy(classifier, Counting<T>());
    var m := Fold(s, g.accumulator, map[]);
    assert Collect(s, g) == m;
    CountsSum(s, classifier);
  }

  lemma {:induction false} CountsSum<T, K>(s: seq<T>, classifier: T -> K)
    ensures SumValues(Fold(s, GroupingBy(classifier, Counting<T>()).accumulator, map[])) == |s|
  {
    if s != [] {
      var front := s[..|s| - 1];
      var g := GroupingBy(classifier, Counting<T>());
      CountsSum(front, classifier);
      var prev := Fold(front, g.accumulator, map[]);
      var key := classifier(s[|s| - 1]);
      SumValuesUpdate(prev, key, (if key in prev then prev[key] else 0) + 1);
    }
  }
}
