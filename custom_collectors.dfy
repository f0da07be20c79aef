/** The hand-written collectors of the tests, given as a supplier, an
    accumulator and a combiner to Stream.collect over the hash codes of the
    sentence's one-character strings: one whose accumulator and combiner do
    nothing, and one that builds an ArrayList of the decimal texts of the
    hash codes with add and addAll. */
module CustomCollectors {
  import opened Streams
  import opened JavaStrings
  import opened Collectors
  import opened JavaCollections
  import CharacterGrouping

  // ---------------------------------------------------------------------------
  // A supplier of the empty string, with an accumulator and a combiner that
  // do nothing

  /** Strings are immutable, so the do-nothing accumulator and combiner leave
      the supplied container as it is. */
  function NoOpCollector(): Collector<int32, string, string>
  {
    Collector("", (container: string, i: int32) => container, (container: string, other: string) => container, Identity)
  }

  lemma {:induction false} NoOpFolds(hashes: seq<int32>, start: string)
    ensures Fold(hashes, NoOpCollector().accumulator, start) == start
  {
    if hashes != [] {
      NoOpFolds(hashes[..|hashes| - 1], start);
    }
  }

  /** The collect with the do-nothing collector returns the supplied empty
      string, whatever the input. */
  lemma NoOpCollectsEmpty(hashes: seq<int32>)
    ensures Collect(hashes, NoOpCollector()) == ""
  {
    NoOpFolds(hashes, "");
  }

  /** Its combiner agrees with draining the concatenated input. */
  lemma NoOpConsistent()
    ensures CombinerConsistent(NoOpCollector())
  {
    forall a: string, s: seq<int32>
      ensures NoOpCollector().combiner(a, Fold(s, NoOpCollector().accumulator, "")) == Fold(s, NoOpCollector().accumulator, a)
    {
      NoOpFolds(s, "");
      NoOpFolds(s, a);
    }
  }

  // ---------------------------------------------------------------------------
  // A supplier of new ArrayLists, objects.add(String.valueOf(e)) and
  // objects.addAll(c)

  /** String.valueOf applied to a boxed int hash code. */
  function Decimal(e: int32): string
  {
    ValueOf(e)
  }

  /** The accumulator: appends the decimal text of one hash code. */
  method Accumulate(objects: ArrayList<string>, e: int32)
    modifies objects
    ensures objects.elems == old(objects.elems) + [Decimal(e)]
  {
    var _ := objects.Add(Decimal(e));
  }

  /** The combiner: appends the elements of the second partial list. */
  method Combine(objects: ArrayList<string>, c: ArrayList<string>)
    modifies objects
    ensures objects.elems == old(objects.elems) + old(c.elems)
  {
    var _ := objects.AddAll(c);
  }

  /** The sequential drain: the accumulator applied to every hash code in
      encounter order appends their decimal texts in that order. */
  method AccumulateAll(objects: ArrayList<string>, hashes: seq<int32>)
    modifies objects
    ensures objects.elems == old(objects.elems) + Map(hashes, Decimal)
  {
    for i := 0 to |hashes|
      invariant objects.elems == old(objects.elems) + Map(hashes[..i], Decimal)
    {
      assert hashes[..i + 1] == hashes[..i] + [hashes[i]];
      MapAppend(hashes[..i], [hashes[i]], Decimal);
      Accumulate(objects, hashes[i]);
    }
    assert hashes[..|hashes|] == hashes;
  }

  /** The collect of the test: a new list, then every hash code of the parts
      added as its decimal text, in encounter order. */
  method CollectDecimals(strings: seq<string>) returns (list: ArrayList<string>)
    ensures fresh(list)
    ensures list.elems == Map(Map(strings, HashCode), Decimal)
  {
    list := new ArrayList();
    AccumulateAll(list, Map(strings, HashCode));
  }

  /** Two partial lists, each drained from its own new list, combined with
      addAll: the same list as draining the whole input into one. */
  method CollectInTwoParts(hashes: seq<int32>, cut: nat) returns (list: ArrayList<string>)
    requires cut <= |hashes|
    ensures fresh(list)
    ensures list.elems == Map(hashes, Decimal)
  {
    var first, rest := hashes[..cut], hashes[cut..];
    assert first + rest == hashes;
    MapAppend(first, rest, Decimal);
    list := new ArrayList();
    AccumulateAll(list, first);
    var second := new ArrayList();
    AccumulateAll(second, rest);
    assert list.elems == Map(first, Decimal) && second.elems == Map(rest, Decimal);
    Combine(list, second);
  }

  /** On a prepared sentence the collected list holds, in order, the decimal
      character code of every non-space character, lower-cased. */
  lemma DecimalsAreCharCodes(str: string)
    requires RemoveSpaces(str) != []
    ensures var decimals := Map(Map(Prepare(str), HashCode), Decimal);
      && |decimals| == |RemoveSpaces(str)|
      && forall i :: 0 <= i < |decimals| ==> decimals[i] == ValueOf(ToLowerCase(RemoveSpaces(str))[i] as int)
  {
    PrepareParts(str);
    var lowered := ToLowerCase(RemoveSpaces(str));
    var parts := Prepare(str);
    var decimals := Map(Map(parts, HashCode), Decimal);
    forall i | 0 <= i < |decimals| ensures decimals[i] == ValueOf(lowered[i] as int) {
      assert parts[i] == Singleton(lowered[i]);
    }
  }

  /** Every decimal text in the list parses back to its hash code. */
  lemma DecimalsParseBack(hashes: seq<int32>, i: nat)
    requires i < |hashes|
    ensures var d := Map(hashes, Decimal)[i];
      && d != [] && (d[0] == '-' ==> AllDigits(d[1..])) && (d[0] != '-' ==> AllDigits(d))
      && ParseInt(d) == hashes[i]
  {
    ValueOfRoundTrip(hashes[i]);
  }

  /** On the tests' sentence, the collected list holds the decimal code of
      every non-space character, lower-cased, in order. */
  lemma SentenceDecimals()
    ensures var lowered := ToLowerCase(RemoveSpaces(CharacterGrouping.Sentence));
      var decimals := Map(Map(CharacterGrouping.Letters(), HashCode), Decimal);
      && |decimals| == |lowered|
      && forall i :: 0 <= i < |decimals| ==> decimals[i] == ValueOf(lowered[i] as int)
  {
    CharacterGrouping.SentenceNotBlank();
    DecimalsAreCharCodes(CharacterGrouping.Sentence);
  }
}
