/** The element-wise stream stages the tests use (Stream.map and Stream.filter),
    as functions over finite sequences in encounter order. */
module Streams {

  /** Stream.map: applies f to every element, keeping the encounter order. */
  function Map<T, U>(s: seq<T>, f: T -> U): (r: seq<U>)
    ensures |r| == |s|
    ensures forall i :: 0 <= i < |s| ==> r[i] == f(s[i])
  {
    if s == [] then [] else Map(s[..|s| - 1], f) + [f(s[|s| - 1])]
  }

  /** Stream.filter: keeps, in encounter order, the elements that satisfy p. */
  function Filter<T>(s: seq<T>, p: T -> bool): (r: seq<T>)
    ensures |r| <= |s|
    ensures forall x :: x in r ==> x in s && p(x)
    ensures forall x :: x in s && p(x) ==> x in r
  {
    if s == [] then []
    else
      var front, last := s[..|s| - 1], s[|s| - 1];
      assert forall x :: x in s ==> x in front || x == last;
      Filter(front, p) + (if p(last) then [last] else [])
  }

  /** Mapping distributes over concatenation: map(a ++ b) = map(a) ++ map(b). */
  lemma {:induction false} MapAppend<T, U>(a: seq<T>, b: seq<T>, f: T -> U)
    ensures Map(a + b, f) == Map(a, f) + Map(b, f)
  {
    // both sides agree element by element, by the index characterisation of Map
    var l, r := Map(a + b, f), Map(a, f) + Map(b, f);
    assert |l| == |r|;
    forall i | 0 <= i < |l| ensures l[i] == r[i] {
      if i < |a| {
        assert (a + b)[i] == a[i];
      } else {
        assert (a + b)[i] == b[i - |a|];
      }
    }
  }

  /** Filtering a sequence with one more element at its end. */
  lemma FilterSnoc<T>(front: seq<T>, last: T, p: T -> bool)
    ensures Filter(front + [last], p) == Filter(front, p) + (if p(last) then [last] else [])
  {
    assert (front + [last])[..|front|] == front;
  }

  /** Filtering distributes over concatenation. */
  lemma {:induction false} FilterAppend<T>(a: seq<T>, b: seq<T>, p: T -> bool)
    ensures Filter(a + b, p) == Filter(a, p) + Filter(b, p)
    decreases |b|
  {
    if b == [] {
      assert a + b == a;
    } else {
      var front, last := b[..|b| - 1], b[|b| - 1];
      assert (a + b)[..|a + b| - 1] == a + front;
      assert (a + b)[|a + b| - 1] == last;
      FilterAppend(a, front, p);
    }
  }

  /** No element is lost or duplicated by a filter: every element that passes keeps
      its multiplicity, every other element disappears. */
  lemma {:induction false} FilterCounts<T>(s: seq<T>, p: T -> bool)
    ensures forall x :: multiset(Filter(s, p))[x] == if p(x) then multiset(s)[x] else 0
  {
    if s != [] {
      var front, last := s[..|s| - 1], s[|s| - 1];
      assert s == front + [last];
      FilterCounts(front, p);
      assert multiset(s) == multiset(front) + multiset{last};
    }
  }

  /** Filtering twice is filtering by the conjunction of the two predicates. */
  lemma {:induction false} FilterFilter<T>(s: seq<T>, p: T -> bool, q: T -> bool, pq: T -> bool)
    requires forall x :: pq(x) == (p(x) && q(x))
    ensures Filter(Filter(s, p), q) == Filter(s, pq)
  {
    if s != [] {
      var front, last := s[..|s| - 1], s[|s| - 1];
      FilterFilter(front, p, q, pq);
      FilterAppend(Filter(front, p), if p(last) then [last] else [], q);
    }
  }
}
