/** IntStream.summaryStatistics() over the hash codes of the sentence's
    one-character strings: a count, a sum, a minimum and a maximum, collected
    with IntSummaryStatistics' accept and combine. The average, a double, is
    not modelled. */
module SummaryStatistics {
  import opened Streams
  import opened JavaStrings
  import opened Collectors
  import CharacterGrouping

  const IntMax: int32 := 0x7fff_ffff
  const IntMin: int32 := -0x8000_0000

  /** The state of an IntSummaryStatistics; count and sum are Java longs. */
  datatype IntSummary = IntSummary(count: int, sum: int, min: int32, max: int32)

  function Min(a: int32, b: int32): int32
  {
    if a <= b then a else b
  }

  function Max(a: int32, b: int32): int32
  {
    if a >= b then a else b
  }

  /** new IntSummaryStatistics(): nothing seen, the minimum at Integer.MAX_VALUE
      and the maximum at Integer.MIN_VALUE. */
  const Empty: IntSummary := IntSummary(0, 0, IntMax, IntMin)

  /** accept(value). */
  function Accept(st: IntSummary, value: int32): IntSummary
  {
    IntSummary(st.count + 1, st.sum + value, Min(st.min, value), Max(st.max, value))
  }

  /** combine(other). */
  function Combine(st: IntSummary, other: IntSummary): IntSummary
  {
    IntSummary(st.count + other.count, st.sum + other.sum, Min(st.min, other.min), Max(st.max, other.max))
  }

  /** summaryStatistics() as collect(IntSummaryStatistics::new,
      IntSummaryStatistics::accept, IntSummaryStatistics::combine). */
  function SummaryCollector(): Collector<int32, IntSummary, IntSummary>
  {
    Collector(Empty, Accept, Combine, Identity)
  }

  /** The sum of the values. */
  function SumOf(xs: seq<int32>): int
  {
    if xs == [] then 0 else SumOf(xs[..|xs| - 1]) + xs[|xs| - 1]
  }

  /** Accepting the values one after the other adds their number and their
      sum. */
  lemma {:induction false} SummaryCounts(xs: seq<int32>, start: IntSummary)
    ensures var st := Fold(xs, Accept, start);
      st.count == start.count + |xs| && st.sum == start.sum + SumOf(xs)
  {
    if xs != [] {
      SummaryCounts(xs[..|xs| - 1], start);
    }
  }

  /** Accepting the values one after the other moves the bounds to cover
      every value, and only to values seen. */
  lemma {:induction false} SummaryBounds(xs: seq<int32>, start: IntSummary)
    ensures var st := Fold(xs, Accept, start);
      && st.min <= start.min && st.max >= start.max
      && (st.min == start.min || st.min in xs)
      && (st.max == start.max || st.max in xs)
      && forall i :: 0 <= i < |xs| ==> st.min <= xs[i] <= st.max
  {
    if xs != [] {
      var front, last := xs[..|xs| - 1], xs[|xs| - 1];
      SummaryBounds(front, start);
      var prev := Fold(front, Accept, start);
      var st := Fold(xs, Accept, start);
      assert st == Accept(prev, last);
      assert xs == front + [last];
      assert forall x :: x in front ==> x in xs;
      forall i | 0 <= i < |xs| ensures st.min <= xs[i] <= st.max {
        if i < |front| {
          assert xs[i] == front[i];
        }
      }
    }
  }

  /** The statistics of a sequence of ints: its length, its sum, and its least
      and greatest element; with no element, the minimum stays at
      Integer.MAX_VALUE and the maximum at Integer.MIN_VALUE. */
  lemma SummaryOf(xs: seq<int32>)
    ensures var st := Collect(xs, SummaryCollector());
      && st.count == |xs|
      && st.sum == SumOf(xs)
      && (forall i :: 0 <= i < |xs| ==> st.min <= xs[i] <= st.max)
      && (xs != [] ==> st.min in xs && st.max in xs)
      && (xs == [] ==> st.min == IntMax && st.max == IntMin)
  {
    SummaryCounts(xs, Empty);
    SummaryBounds(xs, Empty);
    if xs != [] {
      var st := Collect(xs, SummaryCollector());
      assert xs[0] in xs;
      assert st.min <= xs[0] <= st.max;
    }
  }

  /** Accepting from any state equals combining that state with the
      statistics accepted from the empty state. */
  lemma {:induction false} FoldIsCombine(xs: seq<int32>, start: IntSummary)
    ensures Fold(xs, Accept, start) == Combine(start, Fold(xs, Accept, Empty))
  {
    if xs != [] {
      FoldIsCombine(xs[..|xs| - 1], start);
    }
  }

  /** combine agrees with accepting the concatenated input. */
  lemma SummaryConsistent()
    ensures CombinerConsistent(SummaryCollector())
  {
    forall a: IntSummary, s: seq<int32>
      ensures Combine(a, Fold(s, Accept, Empty)) == Fold(s, Accept, a)
    {
      FoldIsCombine(s, a);
    }
  }

  /** On a prepared sentence: one value per non-space character, and the
      bounds are codes of lower-cased characters of the sentence. */
  lemma SentenceSummary(str: string)
    requires RemoveSpaces(str) != []
    ensures var lowered := ToLowerCase(RemoveSpaces(str));
      var st := Collect(Map(Prepare(str), HashCode), SummaryCollector());
      && st.count == |lowered|
      && (exists i :: 0 <= i < |lowered| && st.min == lowered[i] as int)
      && (exists i :: 0 <= i < |lowered| && st.max == lowered[i] as int)
      && forall i :: 0 <= i < |lowered| ==> st.min <= lowered[i] as int <= st.max
  {
    var lowered := ToLowerCase(RemoveSpaces(str));
    var parts := Prepare(str);
    var hashes := Map(parts, HashCode);
    PrepareParts(str);
    SummaryOf(hashes);
    forall i | 0 <= i < |hashes| ensures hashes[i] == lowered[i] as int {
      assert parts[i] == Singleton(lowered[i]);
    }
  }

  /** The statistics of the tests' sentence: one value per non-space
      character, with a minimum and a maximum that are codes of its lower-cased
      characters and bound all of them. */
  lemma SentenceStatistics()
    ensures var lowered := ToLowerCase(RemoveSpaces(CharacterGrouping.Sentence));
      var st := Collect(Map(CharacterGrouping.Letters(), HashCode), SummaryCollector());
      && st.count == |lowered|
      && (exists i :: 0 <= i < |lowered| && st.min == lowered[i] as int)
      && (exists i :: 0 <= i < |lowered| && st.max == lowered[i] as int)
      && forall i :: 0 <= i < |lowered| ==> st.min <= lowered[i] as int <= st.max
  {
    CharacterGrouping.SentenceNotBlank();
    SentenceSummary(CharacterGrouping.Sentence);
  }
}
