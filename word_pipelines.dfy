/** The two word pipelines: a stream of words mapped to their lengths, and a
    stream of words filtered to those longer than three characters, upper-cased
    and collected into a list. */
module WordPipelines {
  import opened Streams
  import opened JavaStrings
  import opened Collectors

  /** Stream.of("apple", "banana", "orange", "grape"). */
  const Fruits: seq<string> := ["apple", "banana", "orange", "grape"]

  /** Stream.of("one", "two", "three", "four"). */
  const Numbers: seq<string> := ["one", "two", "three", "four"]

  /** The filter e -> e.length() > 3. */
  predicate IsLong(e: string)
  {
    Length(e) > 3
  }

  /** filter(e -> e.length() > 3).map(String::toUpperCase)
      .collect(Collectors.toList()). */
  function LongWordsUpper(words: seq<string>): seq<string>
  {
    Collect(Map(Filter(words, IsLong), ToUpperCase), ToList())
  }

  /** map(String::length) on the fruits gives 5, 6, 6 and 5, in that order. */
  lemma FruitLengths()
    ensures Map(Fruits, Length) == [5, 6, 6, 5]
  {
    var r := Map(Fruits, Length);
    assert r[0] == |"apple"| && r[1] == |"banana"| && r[2] == |"orange"| && r[3] == |"grape"|;
  }

  /** Upper-casing keeps the length of a string. */
  lemma UpperKeepsLength(s: string)
    ensures |ToUpperCase(s)| == |s|
  {
  }

  /** An upper-cased string has no lower-case ASCII letter left, and
      upper-casing it again changes nothing. */
  lemma UpperIsIdempotent(s: string)
    ensures forall i :: 0 <= i < |ToUpperCase(s)| ==> !('a' <= ToUpperCase(s)[i] <= 'z')
    ensures ToUpperCase(ToUpperCase(s)) == ToUpperCase(s)
  {
    var u := ToUpperCase(s);
    forall i | 0 <= i < |u| ensures !('a' <= u[i] <= 'z') && UpperChar(u[i]) == u[i] {
      assert u[i] == UpperChar(s[i]);
    }
  }

  /** Because upper-casing keeps lengths, filtering the long words and then
      upper-casing them is the same as upper-casing every word and then
      filtering the long ones. */
  lemma {:induction false} FilterThenUpper(words: seq<string>)
    ensures Map(Filter(words, IsLong), ToUpperCase) == Filter(Map(words, ToUpperCase), IsLong)
  {
    if words != [] {
      var front, last := words[..|words| - 1], words[|words| - 1];
      assert words == front + [last];
      FilterThenUpper(front);
      FilterAppend(front, [last], IsLong);
      MapAppend(front, [last], ToUpperCase);
      MapAppend(Filter(front, IsLong), Filter([last], IsLong), ToUpperCase);
      FilterAppend(Map(front, ToUpperCase), Map([last], ToUpperCase), IsLong);
      assert Filter([last], IsLong) == Filter([] + [last], IsLong);
      assert Map([last], ToUpperCase) == [ToUpperCase(last)];
      assert Filter([ToUpperCase(last)], IsLong) == Filter([] + [ToUpperCase(last)], IsLong);
      UpperKeepsLength(last);
    }
  }

  /** The collected list holds, in encounter order, the upper-cased form of
      each word longer than three characters, each itself longer than three
      characters. */
  lemma LongWordsUpperOrder(words: seq<string>)
    ensures var r := LongWordsUpper(words);
      && |r| == |Filter(words, IsLong)|
      && forall i :: 0 <= i < |r| ==> r[i] == ToUpperCase(Filter(words, IsLong)[i]) && |r[i]| > 3
  {
    var long := Filter(words, IsLong);
    var r := LongWordsUpper(words);
    ToListCollects(Map(long, ToUpperCase));
    forall i | 0 <= i < |r| ensures r[i] == ToUpperCase(long[i]) && |r[i]| > 3 {
      assert long[i] in long;
      UpperKeepsLength(long[i]);
    }
  }

  /** A string is in the collected list exactly when it is the upper-cased
      form of some word longer than three characters. */
  lemma LongWordsUpperMembers(words: seq<string>)
    ensures var r := LongWordsUpper(words);
      && (forall w :: w in words && |w| > 3 ==> ToUpperCase(w) in r)
      && (forall u :: u in r ==> exists w :: w in words && |w| > 3 && u == ToUpperCase(w))
  {
    var long := Filter(words, IsLong);
    var r := LongWordsUpper(words);
    ToListCollects(Map(long, ToUpperCase));
    assert r == Map(long, ToUpperCase);
    forall w | w in words && |w| > 3 ensures ToUpperCase(w) in r {
      assert IsLong(w);
      var i :| 0 <= i < |long| && long[i] == w;
      assert r[i] == ToUpperCase(w);
    }
    forall u | u in r ensures exists w :: w in words && |w| > 3 && u == ToUpperCase(w) {
      var i :| 0 <= i < |r| && r[i] == u;
      assert long[i] in long;
    }
  }

  /** Filtering four elements of which only the last two pass. */
  lemma FilterLastTwo(a: string, b: string, c: string, d: string, p: string -> bool)
    requires !p(a) && !p(b) && p(c) && p(d)
    ensures Filter([a, b, c, d], p) == [c, d]
  {
    FilterSnoc([], a, p);
    FilterSnoc([a], b, p);
    FilterSnoc([a, b], c, p);
    FilterSnoc([a, b, c], d, p);
    assert [] + [a] == [a] && [a] + [b] == [a, b] && [a, b] + [c] == [a, b, c] && [a, b, c] + [d] == [a, b, c, d];
  }

  /** Only three and four are longer than three characters. */
  lemma LongNumbers()
    ensures Filter(Numbers, IsLong) == ["three", "four"]
  {
    assert !IsLong("one") && !IsLong("two") && IsLong("three") && IsLong("four");
    FilterLastTwo("one", "two", "three", "four", IsLong);
  }

  lemma UpperNumbers()
    ensures ToUpperCase("three") == "THREE" && ToUpperCase("four") == "FOUR"
  {
    var u, v := ToUpperCase("three"), ToUpperCase("four");
    assert u[0] == UpperChar('t') && u[1] == UpperChar('h') && u[2] == UpperChar('r') && u[3] == UpperChar('e') && u[4] == UpperChar('e');
    assert v[0] == UpperChar('f') && v[1] == UpperChar('o') && v[2] == UpperChar('u') && v[3] == UpperChar('r');
  }

  /** Of one, two, three and four, the list is [THREE, FOUR]. */
  lemma NumbersUpper()
    ensures LongWordsUpper(Numbers) == ["THREE", "FOUR"]
  {
    LongNumbers();
    UpperNumbers();
    ToListCollects(Map(["three", "four"], ToUpperCase));
  }
}
