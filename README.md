# Java stream and map idioms of `ReactiveTests`, modelled in Dafny

The test class `ReactiveTests` walks through a series of `java.util.stream`
and `java.util.HashMap` idioms:

- mapping words to their lengths;
- filtering, upper-casing and collecting words;
- grouping people by sex, and by sex and then name;
- custom three-part collectors (supplier, accumulator, combiner);
- `groupingBy` over the characters of a sentence, with `toList`, `counting`,
  `mapping(identity, counting)` and `mapping(identity, toSet)` downstreams;
- `IntSummaryStatistics`;
- `HashMap.merge` and `HashMap.computeIfAbsent` loops that count or collect
  the characters of the same sentence.

This project restates each of those idioms in Dafny and proves general
properties of what the tests print or rely on, for every input and not only
for the tests' fixed data. For the word lists and the people lists the
printed values themselves are proved. For the sentence, the general lemmas
are instantiated on it, but its own printed values (the individual
character counts, the minimum, the maximum and the sum) are not computed.

The model follows the program's two styles:

- **Pure pipelines** (`Stream.map`, `filter`, `collect`, the `Collectors`
  factories) are functions. `Streams` holds `Map` and `Filter`. `Collectors`
  holds a `Collector` datatype (supplier, accumulator, combiner, finisher) and
  `Collect`. `Collect` is the sequential drain: a left fold of the accumulator
  from the supplier, then the finisher. `GroupingBy` models both `groupingBy`
  and `groupingByConcurrent`. The central theorem,
  `Collectors.GroupingCollects`, says that the result has exactly the keys the
  classifier produces. Under each key it holds what the downstream collects
  from the elements with that key, in encounter order.
- **In-place updates** are classes with `modifies` clauses.
  `JavaCollections` holds these:
  - `HashMap`, with its entries as a `map` field;
  - `ArrayList`, with its elements as a `seq` field;
  - `AtomicLong`, with a `value` field.

  The loops of the tests (building the people list, the `merge` and
  `computeIfAbsent` loops, and the custom collector's `add`/`addAll`) are
  methods with loop invariants. Each is proved to end in exactly the state
  that the corresponding pure function or collector describes.

Modules:

- `Streams`: `Map` and `Filter`.
- `JavaStrings`: `hashCode` with 32-bit wrap, `String.valueOf(int)` and its
  inverse, ASCII case mapping, `replaceAll(" ", "")`, `split("")`.
- `Collectors`: the collector datatype and the collectors the tests use.
- `JavaCollections`: `HashMap`, `ArrayList`, `AtomicLong`.
- `WordPipelines`: the word pipelines (test_00, test_01).
- `PeopleGrouping`: the people tests (test_02_0, test_02_2).
- `CustomCollectors`: the three-part collectors (test_03_0, test_03_1).
- `CharacterGrouping`: grouping the sentence's characters (test_03_2 to
  test_03_5).
- `SummaryStatistics`: summary statistics (test_03_7).
- `MapAggregation`: the `merge` and `computeIfAbsent` loops (test_04_0 to
  test_05_1).

Where a printed comment in the source disagrees with the code, the model
follows the code. test_04_0's comment prints `tom=14`, but the merge of 13
into `tom` is commented out, so `tom` keeps 1.

## Model

All source cells refer to `src/test/java/com/yxy/reactive/ReactiveTests.java`.

| member | source | states |
|---|---|---|
| Streams.Map | src/test/java/com/yxy/reactive/ReactiveTests.java:24 | `Stream.map` keeps the length and puts `f` of the i-th element at index i |
| Streams.Filter | src/test/java/com/yxy/reactive/ReactiveTests.java:32 | `Stream.filter` keeps exactly the elements that pass (sound and complete), never more than it got |
| Streams.MapAppend | src/test/java/com/yxy/reactive/ReactiveTests.java:24 | map distributes over concatenation |
| Streams.FilterSnoc | src/test/java/com/yxy/reactive/ReactiveTests.java:32 | filtering one more element appends it exactly when it passes |
| Streams.FilterAppend | src/test/java/com/yxy/reactive/ReactiveTests.java:32 | filter distributes over concatenation |
| Streams.FilterCounts | src/test/java/com/yxy/reactive/ReactiveTests.java:32 | a filter keeps every passing element with its multiplicity and drops the rest |
| Streams.FilterFilter | src/test/java/com/yxy/reactive/ReactiveTests.java:98 | filtering by p and then by q equals filtering by p and q (used by `CellIsFilter` for the nested grouping's cells) |
| JavaStrings.Wrap32 | src/test/java/com/yxy/reactive/ReactiveTests.java:113 | int arithmetic wraps modulo 2^32 into the int range, leaving in-range values unchanged |
| JavaStrings.HashCodeOfChar | src/test/java/com/yxy/reactive/ReactiveTests.java:113 | `String::hashCode` of a one-character string is that character's code |
| JavaStrings.DigitChar | src/test/java/com/yxy/reactive/ReactiveTests.java:148 | a decimal digit value gives a digit character |
| JavaStrings.DigitValue | src/test/java/com/yxy/reactive/ReactiveTests.java:148 | a digit character's value is below 10 and gives the character back |
| JavaStrings.Digits | src/test/java/com/yxy/reactive/ReactiveTests.java:148 | the decimal text of a natural number is a non-empty string of digits, with no leading zero unless the number is 0 |
| JavaStrings.ParseDigitsOfDigits | src/test/java/com/yxy/reactive/ReactiveTests.java:148 | parsing the decimal digits of n gives back n |
| JavaStrings.ValueOfRoundTrip | src/test/java/com/yxy/reactive/ReactiveTests.java:148 | `String.valueOf(int)` is an optional minus followed by digits, and parses back to the same int |
| JavaStrings.ValueOfInjective | src/test/java/com/yxy/reactive/ReactiveTests.java:90 | distinct ints have distinct decimal texts |
| JavaStrings.LowerChar | src/test/java/com/yxy/reactive/ReactiveTests.java:112 | lower-casing moves an ASCII upper-case letter 32 code points up to its lower-case letter and keeps every other character |
| JavaStrings.UpperChar | src/test/java/com/yxy/reactive/ReactiveTests.java:34 | upper-casing moves an ASCII lower-case letter 32 code points down to its upper-case letter and keeps every other character |
| JavaStrings.CaseRoundTrip | src/test/java/com/yxy/reactive/ReactiveTests.java:34 | lower-casing and upper-casing are inverse on ASCII letters, each taking a letter to a letter of the other case |
| JavaStrings.SplitCharsJoins | src/test/java/com/yxy/reactive/ReactiveTests.java:112 | `split("")` loses nothing: the parts join back to the string, and each part of a non-empty string is one character |
| JavaStrings.PrepareParts | src/test/java/com/yxy/reactive/ReactiveTests.java:111-112 | the prepared parts are one per non-space character, each one character long, neither a space nor upper case, with its code as its hash |
| Collectors.FoldAppend | src/test/java/com/yxy/reactive/ReactiveTests.java:113-131 | draining a + b is draining b from where draining a ended |
| Collectors.ClassesIdentity | src/test/java/com/yxy/reactive/ReactiveTests.java:169-174 | grouping by identity produces one key per distinct element |
| Collectors.GroupingIdentityFinish | src/test/java/com/yxy/reactive/ReactiveTests.java:186 | with an identity downstream finisher, groupingBy's result is the drained map itself |
| Collectors.ToListCollects | src/test/java/com/yxy/reactive/ReactiveTests.java:38 | `toList()` collects the elements themselves, in encounter order |
| Collectors.CountingCollects | src/test/java/com/yxy/reactive/ReactiveTests.java:186 | `counting()` collects the number of elements |
| Collectors.ToSetCollects | src/test/java/com/yxy/reactive/ReactiveTests.java:206 | `toSet()` collects the set of distinct elements |
| Collectors.MappingFolds | src/test/java/com/yxy/reactive/ReactiveTests.java:196 | `mapping(f, d)` drains what d drains from the mapped elements, from any start |
| Collectors.MappingCollects | src/test/java/com/yxy/reactive/ReactiveTests.java:196 | `mapping(f, d)` collects what d collects from the mapped elements |
| Collectors.SelectOutsideClasses | src/test/java/com/yxy/reactive/ReactiveTests.java:56 | a key the classifier never produces selects no element |
| Collectors.SelectSnoc | src/test/java/com/yxy/reactive/ReactiveTests.java:56 | proof step (helper): one more element joins exactly the selection of its own key |
| Collectors.ClassesSnoc | src/test/java/com/yxy/reactive/ReactiveTests.java:56 | proof step (helper): one more element adds exactly its own key to the keys produced |
| Collectors.FoldSnoc | src/test/java/com/yxy/reactive/ReactiveTests.java:113-131 | proof step (helper): draining one more element applies the accumulator once more |
| Collectors.GroupingStepAt | src/test/java/com/yxy/reactive/ReactiveTests.java:56 | groupingBy's accumulator extends exactly the group of the new element's key and leaves every other group as it was |
| Collectors.GroupingStep | src/test/java/com/yxy/reactive/ReactiveTests.java:56 | the groupingBy accumulator keeps the grouping invariant (keys and per-key contents) when one more element is added |
| Collectors.GroupingFolds | src/test/java/com/yxy/reactive/ReactiveTests.java:56 | draining any sequence into a grouping container groups it by key, per key in encounter order |
| Collectors.GroupingCollects | src/test/java/com/yxy/reactive/ReactiveTests.java:56 | `groupingBy(c, d)` has exactly the keys c produces, and under each key what d collects from that key's elements in encounter order |
| Collectors.CombineHalves | src/test/java/com/yxy/reactive/ReactiveTests.java:150-155 | for a consistent collector, combining two partial results equals draining the concatenated input |
| Collectors.ToListFolds | src/test/java/com/yxy/reactive/ReactiveTests.java:38 | `toList`'s accumulator appends the drained elements to the start list |
| Collectors.ToListConsistent | src/test/java/com/yxy/reactive/ReactiveTests.java:38 | `toList`'s combiner (list concatenation) agrees with sequential draining |
| Collectors.CountingFolds | src/test/java/com/yxy/reactive/ReactiveTests.java:186 | `counting`'s accumulator adds the number of drained elements |
| Collectors.CountingConsistent | src/test/java/com/yxy/reactive/ReactiveTests.java:186 | `counting`'s combiner (addition) agrees with sequential draining |
| Collectors.ToSetFolds | src/test/java/com/yxy/reactive/ReactiveTests.java:206 | `toSet`'s accumulator adds the drained elements to the start set |
| Collectors.ToSetConsistent | src/test/java/com/yxy/reactive/ReactiveTests.java:206 | `toSet`'s combiner (union) agrees with sequential draining |
| Collectors.MappingConsistent | src/test/java/com/yxy/reactive/ReactiveTests.java:196 | `mapping` keeps a consistent downstream consistent |
| Collectors.GroupingConsistent | src/test/java/com/yxy/reactive/ReactiveTests.java:56 | groupingBy's key-by-key merging combiner is consistent whenever its downstream's is |
| Collectors.AllCopiesCount | src/test/java/com/yxy/reactive/ReactiveTests.java:169-174 | a sequence holding only copies of k holds k as many times as its length |
| Collectors.SelectIdentity | src/test/java/com/yxy/reactive/ReactiveTests.java:169-174 | grouping by identity: the group of k holds only k, once per occurrence of k |
| Collectors.SumValuesRemove | src/test/java/com/yxy/reactive/ReactiveTests.java:186 | proof step (helper): the sum of a map's values splits off any one key |
| Collectors.SumValuesUpdate | src/test/java/com/yxy/reactive/ReactiveTests.java:186 | proof step (helper): updating one key changes the sum of values by the difference |
| Collectors.GroupCountsSum | src/test/java/com/yxy/reactive/ReactiveTests.java:186 | groupingBy with `counting()`: the counts add up to the number of elements |
| Collectors.CountsSum | src/test/java/com/yxy/reactive/ReactiveTests.java:186 | the drained counting map's values add up to the number of elements |
| JavaCollections.Merged | src/test/java/com/yxy/reactive/ReactiveTests.java:240-246 | `HashMap.merge`'s entries: an absent key gets the value, a present key gets remapping(old, value), other keys are unchanged |
| JavaCollections.ComputedIfAbsent | src/test/java/com/yxy/reactive/ReactiveTests.java:310 | `computeIfAbsent`'s entries: an absent key gets the created value, a present key leaves the map unchanged |
| JavaCollections.MergeAbsentIsPut | src/test/java/com/yxy/reactive/ReactiveTests.java:246 | merging into an absent key is a plain put |
| JavaCollections.MergeSumTwice | src/test/java/com/yxy/reactive/ReactiveTests.java:271 | two `Long::sum` merges into one key add up to one merge of the sum |
| JavaCollections.HashMap.constructor | src/test/java/com/yxy/reactive/ReactiveTests.java:238 | a new HashMap is empty |
| JavaCollections.HashMap.Get | src/test/java/com/yxy/reactive/ReactiveTests.java:285 | get returns the stored value, or absence |
| JavaCollections.HashMap.Put | src/test/java/com/yxy/reactive/ReactiveTests.java:239 | put stores the value under the key and returns the value it replaced, if any |
| JavaCollections.HashMap.Merge | src/test/java/com/yxy/reactive/ReactiveTests.java:240-246 | merge leaves exactly the `Merged` entries and returns the new value |
| JavaCollections.HashMap.ComputeIfAbsent | src/test/java/com/yxy/reactive/ReactiveTests.java:310 | computeIfAbsent leaves the `ComputedIfAbsent` entries and returns the stored value (the old one, or the created one) |
| JavaCollections.ArrayList.constructor | src/test/java/com/yxy/reactive/ReactiveTests.java:45 | a new ArrayList is empty |
| JavaCollections.ArrayList.Of | src/test/java/com/yxy/reactive/ReactiveTests.java:285 | `new ArrayList<>(List.of(s))` holds exactly s |
| JavaCollections.ArrayList.Add | src/test/java/com/yxy/reactive/ReactiveTests.java:54 | add appends one element and reports a change |
| JavaCollections.ArrayList.AddAll | src/test/java/com/yxy/reactive/ReactiveTests.java:153 | addAll appends the other list's elements in order and reports a change exactly when there were any |
| JavaCollections.AtomicLong.constructor | src/test/java/com/yxy/reactive/ReactiveTests.java:329 | a new AtomicLong holds its initial value |
| JavaCollections.AtomicLong.IncrementAndGet | src/test/java/com/yxy/reactive/ReactiveTests.java:329 | incrementAndGet adds one and returns the new value |
| WordPipelines.FruitLengths | src/test/java/com/yxy/reactive/ReactiveTests.java:24-25 | the fruit lengths are 5, 6, 6, 5 in that order |
| WordPipelines.UpperKeepsLength | src/test/java/com/yxy/reactive/ReactiveTests.java:34 | upper-casing keeps the length, so the length filter gives the same answer before and after |
| WordPipelines.UpperIsIdempotent | src/test/java/com/yxy/reactive/ReactiveTests.java:34 | an upper-cased string has no lower-case ASCII letter, and upper-casing again changes nothing |
| WordPipelines.FilterThenUpper | src/test/java/com/yxy/reactive/ReactiveTests.java:31-35 | filtering the long words and then upper-casing equals upper-casing and then filtering |
| WordPipelines.LongWordsUpperOrder | src/test/java/com/yxy/reactive/ReactiveTests.java:31-38 | the list holds, in encounter order, the upper-cased long words, one per long word, each still longer than 3 |
| WordPipelines.LongWordsUpperMembers | src/test/java/com/yxy/reactive/ReactiveTests.java:31-38 | a string is in the list exactly when it is the upper-cased form of an input word longer than 3 |
| WordPipelines.FilterLastTwo | src/test/java/com/yxy/reactive/ReactiveTests.java:32 | of four elements where only the last two pass, the filter keeps those two in order |
| WordPipelines.LongNumbers | src/test/java/com/yxy/reactive/ReactiveTests.java:31-32 | of one, two, three and four, only three and four are longer than 3 |
| WordPipelines.UpperNumbers | src/test/java/com/yxy/reactive/ReactiveTests.java:34-37 | three and four upper-case to THREE and FOUR |
| WordPipelines.NumbersUpper | src/test/java/com/yxy/reactive/ReactiveTests.java:31-39 | the collected list is [THREE, FOUR] |
| PeopleGrouping.Roster | src/test/java/com/yxy/reactive/ReactiveTests.java:45-55 | the loop creates n people |
| PeopleGrouping.RosterSnoc | src/test/java/com/yxy/reactive/ReactiveTests.java:46-54 | proof step (helper): round n - 1 appends one person to the list |
| PeopleGrouping.RosterAt | src/test/java/com/yxy/reactive/ReactiveTests.java:46-54 | person i has the name the loop gave it, and is Male for even i and Female for odd i |
| PeopleGrouping.BuildPeople | src/test/java/com/yxy/reactive/ReactiveTests.java:45-55 | the loop's ArrayList ends holding exactly the first n people, in creation order |
| PeopleGrouping.MaleIsNotFemale | src/test/java/com/yxy/reactive/ReactiveTests.java:49-53 | proof step (helper): the two sexes are different keys |
| PeopleGrouping.SexCounts | src/test/java/com/yxy/reactive/ReactiveTests.java:46-53 | of n people, (n + 1) / 2 are Male and n / 2 Female |
| PeopleGrouping.RosterSexes | src/test/java/com/yxy/reactive/ReactiveTests.java:46-53 | the sexes occurring among n people are none, Male, or Male and Female |
| PeopleGrouping.GroupBySex | src/test/java/com/yxy/reactive/ReactiveTests.java:56 | grouping by sex: the keys are the sexes that occur, each group holds exactly that sex's people in list order, with (n + 1) / 2 and n / 2 members |
| PeopleGrouping.TenPeopleBySex | src/test/java/com/yxy/reactive/ReactiveTests.java:46-59 | ten people group into Male and Female, five each, whatever their names |
| PeopleGrouping.CellIsFilter | src/test/java/com/yxy/reactive/ReactiveTests.java:98 | a nested grouping cell (sex, then name) is the single filter of the people with that sex and that name, in list order |
| PeopleGrouping.NestedGrouping | src/test/java/com/yxy/reactive/ReactiveTests.java:98 | nested grouping: the outer keys are the sexes, the inner keys the names occurring with each sex, and each cell holds exactly the people with that sex and name |
| PeopleGrouping.NestedKeys | src/test/java/com/yxy/reactive/ReactiveTests.java:98 | a (sex, name) cell exists exactly when some person has both |
| PeopleGrouping.CellCounts | src/test/java/com/yxy/reactive/ReactiveTests.java:98 | a cell holds each person of its sex and name as often as the list does, and no one else |
| PeopleGrouping.NestedGroupingKeepsEveryone | src/test/java/com/yxy/reactive/ReactiveTests.java:98 | nested grouping loses and duplicates no one, and a cell holds only its own sex and name |
| PeopleGrouping.NamedByThree | src/test/java/com/yxy/reactive/ReactiveTests.java:88-97 | the second loop builds exactly the ten people (0, Male), (1, Female), (2, Male), … (0, Female) |
| PeopleGrouping.CellSnoc | src/test/java/com/yxy/reactive/ReactiveTests.java:96-98 | one more person enlarges exactly the cell of their sex and name, by one |
| PeopleGrouping.SexMatches | src/test/java/com/yxy/reactive/ReactiveTests.java:91-95 | person i has the sex of person s exactly when i and s have the same parity |
| PeopleGrouping.NameMatches | src/test/java/com/yxy/reactive/ReactiveTests.java:90 | person i has the name of person r exactly when i is r modulo 3 |
| PeopleGrouping.RosterCellSize | src/test/java/com/yxy/reactive/ReactiveTests.java:88-98 | with names of period 3, a cell's size is the number of indices with the matching residues modulo 2 and 3 |
| PeopleGrouping.RosterCellStep | src/test/java/com/yxy/reactive/ReactiveTests.java:88-98 | round n - 1 enlarges a cell exactly when n - 1 has that cell's residues |
| PeopleGrouping.NamesOfThree | src/test/java/com/yxy/reactive/ReactiveTests.java:90-92 | the names of persons 0, 1, 2 are "0", "1", "2"; persons 0 and 1 are Male and Female |
| PeopleGrouping.NamesRepeat | src/test/java/com/yxy/reactive/ReactiveTests.java:90 | `String.valueOf(i % 3)` repeats with period 3, and with no shorter pattern |
| PeopleGrouping.CountIdxAt | src/test/java/com/yxy/reactive/ReactiveTests.java:88 | proof step (helper): an index below n with the given residues makes the count positive |
| PeopleGrouping.CountStep | src/test/java/com/yxy/reactive/ReactiveTests.java:88 | proof step (helper): one more index adds one to the count exactly when it has the given residues |
| PeopleGrouping.SixOnce | src/test/java/com/yxy/reactive/ReactiveTests.java:88 | proof step (helper): among indices 0 to 5 each pair of residues modulo 2 and 3 occurs once |
| PeopleGrouping.CountIdxPeriodic | src/test/java/com/yxy/reactive/ReactiveTests.java:88 | proof step (helper): six more indices add exactly one with given residues |
| PeopleGrouping.CountsOfTen | src/test/java/com/yxy/reactive/ReactiveTests.java:88 | among indices 0 to 9, the pairs (even, 1) and (odd, 2) occur once and the others twice |
| PeopleGrouping.NameIsDigit | src/test/java/com/yxy/reactive/ReactiveTests.java:90 | every name is "0", "1" or "2" |
| PeopleGrouping.NamesOfRoster | src/test/java/com/yxy/reactive/ReactiveTests.java:88-98 | a non-empty cell's name is "0", "1" or "2" |
| PeopleGrouping.NamesOfCells | src/test/java/com/yxy/reactive/ReactiveTests.java:88-98 | no cell exists for a name other than "0", "1" or "2" |
| PeopleGrouping.InnerKeys | src/test/java/com/yxy/reactive/ReactiveTests.java:98 | a sex's inner keys are exactly the names whose cells are non-empty |
| PeopleGrouping.CountPositive | src/test/java/com/yxy/reactive/ReactiveTests.java:88 | proof step (helper): from six indices on, every pair of residues occurs |
| PeopleGrouping.CellFilled | src/test/java/com/yxy/reactive/ReactiveTests.java:88-98 | from six people on, every (sex, name) cell is non-empty |
| PeopleGrouping.CellsOfSexFilled | src/test/java/com/yxy/reactive/ReactiveTests.java:88-98 | from six people on, each sex has people named 0, 1 and 2 |
| PeopleGrouping.InnerKeysByThree | src/test/java/com/yxy/reactive/ReactiveTests.java:98-105 | from six people on, each sex's inner keys are exactly 0, 1 and 2 |
| PeopleGrouping.CellByThree | src/test/java/com/yxy/reactive/ReactiveTests.java:100-105 | the ten people's cell sizes: Male 2, 1, 2 and Female 2, 2, 1 for names 0, 1, 2 |
| PeopleGrouping.NestedGroupingByThree | src/test/java/com/yxy/reactive/ReactiveTests.java:87-105 | the printed nested map: keys Male and Female, each with names 0, 1, 2, and the cell sizes of the printed lists |
| CustomCollectors.NoOpFolds | src/test/java/com/yxy/reactive/ReactiveTests.java:119-124 | the do-nothing accumulator leaves any container as it was |
| CustomCollectors.NoOpCollectsEmpty | src/test/java/com/yxy/reactive/ReactiveTests.java:113-131 | the collect with the do-nothing collector returns the supplied empty string for any input |
| CustomCollectors.NoOpConsistent | src/test/java/com/yxy/reactive/ReactiveTests.java:125-130 | the do-nothing combiner agrees with sequential draining |
| CustomCollectors.Accumulate | src/test/java/com/yxy/reactive/ReactiveTests.java:145-149 | the accumulator appends the decimal text of one hash code |
| CustomCollectors.Combine | src/test/java/com/yxy/reactive/ReactiveTests.java:150-154 | the combiner appends the other partial list's elements |
| CustomCollectors.AccumulateAll | src/test/java/com/yxy/reactive/ReactiveTests.java:139-149 | draining appends the decimal texts of all hash codes, in encounter order |
| CustomCollectors.CollectDecimals | src/test/java/com/yxy/reactive/ReactiveTests.java:138-155 | the collected list is the decimal text of every part's hash code, in order |
| CustomCollectors.CollectInTwoParts | src/test/java/com/yxy/reactive/ReactiveTests.java:139-155 | two partial lists combined with addAll equal the whole input drained into one list |
| CustomCollectors.DecimalsAreCharCodes | src/test/java/com/yxy/reactive/ReactiveTests.java:137-161 | on a prepared sentence, the list holds the decimal code of each non-space lower-cased character, in order |
| CustomCollectors.SentenceDecimals | src/test/java/com/yxy/reactive/ReactiveTests.java:137-161 | on the tests' sentence: the list holds the decimal code of each non-space lower-cased character, in order |
| CustomCollectors.DecimalsParseBack | src/test/java/com/yxy/reactive/ReactiveTests.java:148 | every decimal text in the list parses back to its hash code |
| CharacterGrouping.Copies | src/test/java/com/yxy/reactive/ReactiveTests.java:176-178 | n copies of k: length n, only k |
| CharacterGrouping.Incremented | src/test/java/com/yxy/reactive/ReactiveTests.java:329-332 | same keys, every count plus one |
| CharacterGrouping.SelectMember | src/test/java/com/yxy/reactive/ReactiveTests.java:169 | an occurring string selects a non-empty group |
| CharacterGrouping.GroupsAreCopies | src/test/java/com/yxy/reactive/ReactiveTests.java:166-178 | `groupingBy(identity)` maps exactly the distinct strings, each to as many copies of itself as it occurs |
| CharacterGrouping.CountsAreOccurrences | src/test/java/com/yxy/reactive/ReactiveTests.java:183-187 | `groupingBy(s -> s, counting())` maps exactly the distinct strings, each to its number of occurrences |
| CharacterGrouping.CountsSumToLength | src/test/java/com/yxy/reactive/ReactiveTests.java:183-187 | the counts add up to the number of strings |
| CharacterGrouping.CountsAreGroupSizes | src/test/java/com/yxy/reactive/ReactiveTests.java:176-187 | the counts are the sizes of the `groupingBy(identity)` lists |
| CharacterGrouping.MappedCountsAgree | src/test/java/com/yxy/reactive/ReactiveTests.java:193-198 | counting through `mapping(identity(), counting())` gives the same map as `counting()` directly |
| CharacterGrouping.SetsAreSingletons | src/test/java/com/yxy/reactive/ReactiveTests.java:203-208 | `mapping(identity(), toSet())` maps each distinct string to the singleton of itself |
| CharacterGrouping.SentenceNotBlank | src/test/java/com/yxy/reactive/ReactiveTests.java:111 | the sentence has a non-space character |
| CharacterGrouping.SentenceGrouping | src/test/java/com/yxy/reactive/ReactiveTests.java:166-178 | on the tests' sentence: one key per distinct character, each group its copies, the counts adding up to the number of non-space characters |
| CharacterGrouping.PreparedGrouping | src/test/java/com/yxy/reactive/ReactiveTests.java:166-178 | on a prepared sentence, every key is one character, each group is its copies, and the counts add up to the number of non-space characters |
| SummaryStatistics.SummaryCounts | src/test/java/com/yxy/reactive/ReactiveTests.java:227 | accepting values adds their number and their sum |
| SummaryStatistics.SummaryBounds | src/test/java/com/yxy/reactive/ReactiveTests.java:227 | accepting values widens the bounds to cover every value, only to values seen |
| SummaryStatistics.SummaryOf | src/test/java/com/yxy/reactive/ReactiveTests.java:227-232 | count is the length, sum the sum, min and max bound every value and occur in the input; with no input they stay at Integer.MAX_VALUE and Integer.MIN_VALUE |
| SummaryStatistics.FoldIsCombine | src/test/java/com/yxy/reactive/ReactiveTests.java:227 | accepting from any state equals combining that state with the statistics from the empty state |
| SummaryStatistics.SummaryConsistent | src/test/java/com/yxy/reactive/ReactiveTests.java:227 | `IntSummaryStatistics::combine` agrees with sequential accepting |
| SummaryStatistics.SentenceStatistics | src/test/java/com/yxy/reactive/ReactiveTests.java:224-232 | on the tests' sentence: count is the number of non-space characters, and min and max are codes occurring in it that bound all of them |
| SummaryStatistics.SentenceSummary | src/test/java/com/yxy/reactive/ReactiveTests.java:224-232 | on a prepared sentence: count is the number of non-space characters, and min and max are codes of characters that occur, bounding all of them |
| MapAggregation.MergeExamples | src/test/java/com/yxy/reactive/ReactiveTests.java:237-261 | the merge examples end with {孙悟空=花果山 水帘洞, 猪八戒=天河} and {tom=1, jerry=-6} |
| MapAggregation.MergeOneIsCounting | src/test/java/com/yxy/reactive/ReactiveTests.java:271 | `merge(s, 1L, Long::sum)` is the counting accumulator of `groupingBy(s -> s, counting())` |
| MapAggregation.CountWithMerge | src/test/java/com/yxy/reactive/ReactiveTests.java:269-272 | the merge loop builds the `groupingBy(s -> s, counting())` map: each distinct string mapped to its number of occurrences |
| MapAggregation.MergeAddAll | src/test/java/com/yxy/reactive/ReactiveTests.java:285-291 | merge with an addAll remapping: an absent key gets the new list, a present key's list has the new elements appended and remains the stored list |
| MapAggregation.AppendIsGrouping | src/test/java/com/yxy/reactive/ReactiveTests.java:285-310 | appending s to the list of s is `groupingBy(s -> s)`'s accumulator |
| MapAggregation.GroupWithMerge | src/test/java/com/yxy/reactive/ReactiveTests.java:283-292 | the merge/addAll loop builds the `groupingBy(s -> s)` map with unshared lists: each string mapped to its copies |
| MapAggregation.AddOccurrence | src/test/java/com/yxy/reactive/ReactiveTests.java:310 | `computeIfAbsent(s, k -> new ArrayList<>()).add(s)` appends s to the list of s (created empty if absent) and changes no other list |
| MapAggregation.GroupWithComputeIfAbsent | src/test/java/com/yxy/reactive/ReactiveTests.java:307-311 | the computeIfAbsent loop builds the `groupingBy(s -> s)` map with unshared lists: each string mapped to its copies |
| MapAggregation.CounterStepIsCounting | src/test/java/com/yxy/reactive/ReactiveTests.java:328-332 | counters seeded at 1 end at each string's occurrence count plus one |
| MapAggregation.ZeroStepIsCounting | src/test/java/com/yxy/reactive/ReactiveTests.java:328-329 | counters seeded at 0 step exactly as the counting accumulator |
| MapAggregation.CountOccurrence | src/test/java/com/yxy/reactive/ReactiveTests.java:329 | `computeIfAbsent(s, k -> new AtomicLong(initial)).incrementAndGet()`: the counter of s (new, at initial, if absent) goes up by one and is returned; no other counter changes |
| MapAggregation.CountInto | src/test/java/com/yxy/reactive/ReactiveTests.java:326-330 | the loop leaves one live counter per distinct string, with the values of the counter step folded over the input |
| MapAggregation.CountWithCounters | src/test/java/com/yxy/reactive/ReactiveTests.java:326-332 | as written: each distinct string's counter ends at its number of occurrences plus one |
| MapAggregation.CountersEnd | src/test/java/com/yxy/reactive/ReactiveTests.java:326-332 | the incremented counts have the distinct strings as keys and occurrences plus one as values |
| MapAggregation.CountersOffByOne | src/test/java/com/yxy/reactive/ReactiveTests.java:329 | a string occurring once ends with a counter of 2 |
| MapAggregation.CountWithZeroCounters | src/test/java/com/yxy/reactive/ReactiveTests.java:326-332 | with counters seeded at 0, each counter ends at its string's number of occurrences, the `groupingBy(s -> s, counting())` map |

## Left out

- Output (`System.out.println`, `forEach(System.out::println)`, the `peek`
  printing) is left out. The model states what would be printed.
- `groupingByConcurrent` and `ConcurrentMap` are modelled as a sequential
  `groupingBy`. The tests use sequential streams, so neither concurrency nor
  the combiner's scheduling is exercised.
- `AtomicLong` is modelled as a plain field used from one thread.
- test_02_0 names people with random short UUIDs. Names are a parameter
  (`nameOf`), and every lemma about that test holds for any names.
- test_02_1 (`toConcurrentMap` by name) is not part of this model.
- The empty tests test_06 to test_19 are not part of this model. Neither is
  test_03_6 (four ways to count).
- `IntSummaryStatistics.getAverage` is left out, because it is a `double`.
- `HashMap` iteration order, and therefore the printed order of keys, is not
  modelled. The entries are a `map`.
- `toUpperCase` and `toLowerCase` map only ASCII letters. Characters are
  Dafny `char`s, not UTF-16 code units.
- Java's `Long` arithmetic is modelled without 64-bit wrap-around. Counts and
  sums stay far below 2^63.
- `HashMap.merge`'s removal of a key when the remapping returns `null` is left
  out. No remapping in the tests returns `null`.
- `computeIfAbsent(k, k -> new X())` is given the candidate object,
  allocated beforehand. The map stores it only when the key is absent, so
  the model allocates on every call where Java allocates only when the key
  is absent.
- The concrete values printed for the sentence (the per-character lists,
  counts and sets, and the statistics' minimum, maximum and sum) are left
  out. Evaluating them on the literal is beyond what the verifier can do
  here. `SentenceGrouping`, `SentenceStatistics` and `SentenceDecimals` state
  for the sentence itself what holds for every sentence.
- `CustomCollectors.NoOpCollector`: test_03_0's accumulator and combiner are
  empty `void` methods. On an immutable `String` container they change
  nothing, which is how they are modelled.
- `"".split("")` returns `[""]` in Java. `SplitChars` models this case, but
  the sentence lemmas require a non-blank sentence, as the tests' sentence
  is.

## Findings

| source | as written | input that shows it | evidently intended | confidence | as-written member | corrected member |
|---|---|---|---|---|---|---|
| src/test/java/com/yxy/reactive/ReactiveTests.java:329 | each counter is created at 1 and incremented on the first occurrence, so it ends one above the string's number of occurrences | the input `["a"]` gives a counter of 2 for "a", which occurs once | `computeIfAbsent(s, k -> new AtomicLong()).incrementAndGet()`, seeded at 0, so the counter is the number of occurrences, as the test's title says | medium, not executed (the printed comment shows the off-by-one values, a=12 against test_04_1's a=11) | MapAggregation.CountersOffByOne | MapAggregation.CountWithZeroCounters |
