/** The character statistics of the tests: the sentence is stripped of spaces,
    lower-cased and split into one-character strings, which are then grouped
    by identity into lists (groupingBy(identity)), counts (groupingBy with
    counting, directly or through mapping(identity, counting)) and sets
    (mapping(identity, toSet)). The lemmas hold for every input sequence of
    strings, so in particular for the sentence's characters. */
module CharacterGrouping {
  import opened Streams
  import opened JavaStrings
  import opened Collectors

  /** The sentence every character test starts from. */
  const Sentence: string := "This implementation assumes that the ConcurrentMap cannot contain null values and returning null unambiguously means the key is absent"

  /** str.replaceAll(" ", "").toLowerCase().split("") on the sentence. */
  function Letters(): seq<string>
  {
    Prepare(Sentence)
  }

  /** groupingBy(s -> s): every string to the list of its occurrences. */
  function GroupByLetter(): Collector<string, map<string, seq<string>>, map<string, seq<string>>>
  {
    GroupingBy(Identity, ToList())
  }

  /** groupingBy(s -> s, counting()). */
  function CountByLetter(): Collector<string, map<string, int>, map<string, int>>
  {
    GroupingBy(Identity, Counting())
  }

  /** groupingBy(s -> s, HashMap::new, mapping(identity(), counting())). */
  function CountByLetterMapped(): Collector<string, map<string, int>, map<string, int>>
  {
    GroupingBy(Identity, Mapping(Identity, Counting()))
  }

  /** groupingBy(s -> s, HashMap::new, mapping(identity(), toSet())). */
  function SetByLetter(): Collector<string, map<string, set<string>>, map<string, set<string>>>
  {
    GroupingBy(Identity, Mapping(Identity, ToSet()))
  }

  /** n copies of k. */
  function Copies(k: string, n: nat): (r: seq<string>)
    ensures |r| == n && forall x :: x in r ==> x == k
  {
    seq(n, _ => k)
  }

  /** Each string's occurrence count plus one (the AtomicLong counters seeded at
      1 and incremented once per occurrence). */
  function Incremented(counts: map<string, int>): (r: map<string, int>)
    ensures r.Keys == counts.Keys
    ensures forall k :: k in r ==> r[k] == counts[k] + 1
  {
    map k | k in counts :: counts[k] + 1
  }

  /** The distinct strings of a sequence. */
  function Distinct(strings: seq<string>): set<string>
  {
    set x | x in strings
  }

  /** An element of the sequence selects a non-empty group. */
  lemma SelectMember(strings: seq<string>, k: string)
    requires k in strings
    ensures k in Select(strings, Identity, k)
  {
    assert KeyIs(Identity, k)(k);
  }

  /** groupingBy(identity) maps every distinct string, and only those, to the
      list of its occurrences: as many copies of it as it occurs. */
  lemma GroupsAreCopies(strings: seq<string>)
    ensures var g := Collect(strings, GroupByLetter());
      && g.Keys == Distinct(strings)
      && forall k :: k in g ==> g[k] == Copies(k, multiset(strings)[k])
  {
    var g := Collect(strings, GroupByLetter());
    GroupingCollects(strings, Identity, ToList());
    ClassesIdentity(strings);
    forall k | k in g ensures g[k] == Copies(k, multiset(strings)[k]) {
      var sel := Select(strings, Identity, k);
      ToListCollects(sel);
      SelectIdentity(strings, k);
      var c := Copies(k, multiset(strings)[k]);
      forall i | 0 <= i < |sel| ensures sel[i] == c[i] {
        assert sel[i] in sel;
      }
    }
  }

  /** groupingBy(identity, counting()) maps every distinct string, and only
      those, to its number of occurrences. */
  lemma CountsAreOccurrences(strings: seq<string>)
    ensures var c := Collect(strings, CountByLetter());
      && c.Keys == Distinct(strings)
      && forall k :: k in c ==> c[k] == multiset(strings)[k]
  {
    var c := Collect(strings, CountByLetter());
    GroupingCollects(strings, Identity, Counting());
    ClassesIdentity(strings);
    forall k | k in c ensures c[k] == multiset(strings)[k] {
      CountingCollects(Select(strings, Identity, k));
      SelectIdentity(strings, k);
    }
  }

  /** The counts add up to the number of strings (116 for the sentence). */
  lemma CountsSumToLength(strings: seq<string>)
    ensures SumValues(Collect(strings, CountByLetter())) == |strings|
  {
    GroupCountsSum(strings, Identity);
  }

  /** The counts are the sizes of the groups of groupingBy(identity). */
  lemma CountsAreGroupSizes(strings: seq<string>)
    ensures var g := Collect(strings, GroupByLetter());
      Collect(strings, CountByLetter()) == map k | k in g :: |g[k]|
  {
    GroupsAreCopies(strings);
    CountsAreOccurrences(strings);
  }

  /** Counting through mapping(identity(), counting()) gives the same map as
      counting directly. */
  lemma MappedCountsAgree(strings: seq<string>)
    ensures Collect(strings, CountByLetterMapped()) == Collect(strings, CountByLetter())
  {
    var direct, mapped := Collect(strings, CountByLetter()), Collect(strings, CountByLetterMapped());
    GroupingCollects(strings, Identity, Counting());
    GroupingCollects(strings, Identity, Mapping(Identity, Counting()));
    forall k | k in mapped ensures mapped[k] == direct[k] {
      var sel := Select(strings, Identity, k);
      MappingCollects(sel, Identity, Counting());
      CountingCollects(Map(sel, Identity));
      CountingCollects(sel);
    }
  }

  /** mapping(identity(), toSet()) gives every distinct string the singleton
      set of itself. */
  lemma SetsAreSingletons(strings: seq<string>)
    ensures var g := Collect(strings, SetByLetter());
      && g.Keys == Distinct(strings)
      && forall k :: k in g ==> g[k] == {k}
  {
    var g := Collect(strings, SetByLetter());
    GroupingCollects(strings, Identity, Mapping(Identity, ToSet()));
    ClassesIdentity(strings);
    forall k | k in g ensures g[k] == {k} {
      var sel := Select(strings, Identity, k);
      MappingCollects(sel, Identity, ToSet());
      ToSetCollects(Map(sel, Identity));
      SelectIdentity(strings, k);
      SelectMember(strings, k);
      var mapped := Map(sel, Identity);
      assert forall x :: x in mapped ==> x == k by {
        forall x | x in mapped ensures x == k {
          var i :| 0 <= i < |mapped| && mapped[i] == x;
          assert sel[i] in sel;
        }
      }
      var i :| 0 <= i < |sel| && sel[i] == k;
      assert mapped[i] == k;
    }
  }

  /** The sentence has a character other than a space. */
  lemma SentenceNotBlank()
    ensures RemoveSpaces(Sentence) != []
  {
    var last := Sentence[|Sentence| - 1];
    assert last == 't';
    assert last in Sentence && NotSpace(last);
  }

  /** The grouping of a prepared sentence with some non-space character: one
      list of copies per distinct one-character string, the counts adding up to
      the number of non-space characters. */
  lemma PreparedGrouping(str: string)
    requires RemoveSpaces(str) != []
    ensures var g := Collect(Prepare(str), GroupByLetter());
      && g.Keys == Distinct(Prepare(str))
      && (forall k :: k in g ==> |k| == 1 && g[k] == Copies(k, multiset(Prepare(str))[k]))
      && SumValues(Collect(Prepare(str), CountByLetter())) == |RemoveSpaces(str)|
  {
    var parts := Prepare(str);
    GroupsAreCopies(parts);
    CountsSumToLength(parts);
    PrepareParts(str);
    forall k | k in parts ensures |k| == 1 {
      var i :| 0 <= i < |parts| && parts[i] == k;
    }
  }

  /** The tests' own sentence: its one-character strings group into lists of
      copies, one key per distinct character, and the counts add up to the
      number of non-space characters. */
  lemma SentenceGrouping()
    ensures var g := Collect(Letters(), GroupByLetter());
      && g.Keys == Distinct(Letters())
      && (forall k :: k in g ==> |k| == 1 && g[k] == Copies(k, multiset(Letters())[k]))
      && SumValues(Collect(Letters(), CountByLetter())) == |RemoveSpaces(Sentence)|
  {
    SentenceNotBlank();
    PreparedGrouping(Sentence);
  }
}
