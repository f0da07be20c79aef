/** The loops that fold the characters into a HashMap in place: merge with
    Long::sum (counting), merge with an addAll remapping and
    computeIfAbsent(...).add (lists of occurrences), and
    computeIfAbsent(..., new AtomicLong(1)).incrementAndGet() (live counters);
    and the two merge examples on fixed keys. Each loop is proved to build the
    same map as the corresponding groupingBy collector. */
module MapAggregation {
  import opened Streams
  import opened JavaStrings
  import opened Collectors
  import opened JavaCollections
  import opened CharacterGrouping

  /** The merge examples: a String::concat merge on a present key and on an
      absent key, and a Long::sum merge on an absent key (the merge of 13 into
      "tom" is commented out, so "tom" keeps 1). */
  method MergeExamples() returns (places: HashMap<string, string>, scores: HashMap<string, int>)
    ensures places.entries == map["孙悟空" := "花果山 水帘洞", "猪八戒" := "天河"]
    ensures scores.entries == map["tom" := 1, "jerry" := -6]
  {
    places := new HashMap();
    var _ := places.Put("孙悟空", "花果山");
    var _ := places.Merge("孙悟空", " 水帘洞", StrConcat);
    assert StrConcat("花果山", " 水帘洞") == "花果山 水帘洞";
    var _ := places.Merge("猪八戒", "天河", StrConcat);
    assert "孙悟空" != "猪八戒" by { assert "孙悟空"[0] != "猪八戒"[0]; }

    scores := new HashMap();
    var _ := scores.Put("tom", 1);
    var _ := scores.Merge("jerry", -6, Sum);
    assert "tom" != "jerry" by { assert |"tom"| != |"jerry"|; }
  }

  /** The counting accumulator of groupingBy(s -> s, counting()) is what
      merge(s, 1L, Long::sum) does to the map. */
  lemma MergeOneIsCounting(m: map<string, int>, s: string)
    ensures Merged(m, s, 1, Sum) == CountByLetter().accumulator(m, s)
  {
    var g := GroupingBy(Identity, Counting<string>());
    assert CountByLetter() == g && Identity(s) == s;
    assert g.accumulator(m, s) == m[s := Counting<string>().accumulator(if s in m then m[s] else 0, s)];
  }

  /** for (String s : strings) hashMap.merge(s, 1L, Long::sum): the map is the
      groupingBy(s -> s, counting()) result, so each distinct string is
      mapped to its number of occurrences. */
  method CountWithMerge(strings: seq<string>) returns (counts: HashMap<string, int>)
    ensures fresh(counts)
    ensures counts.entries == Collect(strings, CountByLetter())
    ensures counts.entries.Keys == Distinct(strings)
    ensures forall k :: k in counts.entries ==> counts.entries[k] == multiset(strings)[k]
  {
    counts := new HashMap();
    for i := 0 to |strings|
      invariant counts.entries == Fold(strings[..i], CountByLetter().accumulator, map[])
    {
      FoldSnoc(strings[..i], strings[i], CountByLetter().accumulator, map[]);
      assert strings[..i + 1] == strings[..i] + [strings[i]];
      MergeOneIsCounting(counts.entries, strings[i]);
      var _ := counts.Merge(strings[i], 1, Sum);
    }
    assert strings[..|strings|] == strings;
    GroupingIdentityFinish(strings, Identity, Counting());
    CountsAreOccurrences(strings);
  }

  // ---------------------------------------------------------------------------
  // Maps whose values are live objects

  /** The elements of the lists a map points to. */
  function ListContents<K, T>(m: map<K, ArrayList<T>>): map<K, seq<T>>
    reads m.Values
  {
    map k | k in m :: m[k].elems
  }

  /** The values of the counters a map points to. */
  function CounterValues<K>(m: map<K, AtomicLong>): map<K, int>
    reads m.Values
  {
    map k | k in m :: m[k].value
  }

  /** No two keys share a value object, so updating one value changes no other
      key's. */
  predicate Unshared<K, V(==)>(m: map<K, V>)
  {
    forall j, k :: j in m && k in m && j != k ==> m[j] != m[k]
  }

  /** merge(s, new ArrayList<>(List.of(s)), (old, value) -> { old.addAll(value);
      return old; }): an absent key receives the new list; a present key's list
      has the new list's elements appended and stays the stored value. */
  method MergeAddAll(m: HashMap<string, ArrayList<string>>, key: string, value: ArrayList<string>)
    requires Unshared(m.entries) && value !in m.entries.Values
    modifies m, if key in m.entries then {m.entries[key]} else {}
    ensures key !in old(m.entries) ==> m.entries == old(m.entries)[key := value]
    ensures key in old(m.entries) ==> m.entries == old(m.entries)
    ensures Unshared(m.entries)
    ensures ListContents(m.entries) ==
      old(ListContents(m.entries))[key := (if key in old(m.entries) then old(m.entries[key].elems) else []) + old(value.elems)]
  {
    var current := m.Get(key);
    match current {
      case None =>
        var _ := m.Put(key, value);
        assert forall k :: k in old(m.entries) ==> m.entries[k].elems == old(m.entries[k].elems);
        assert [] + value.elems == value.elems;
      case Some(existing) =>
        var _ := existing.AddAll(value);
        var _ := m.Put(key, existing);
    }
  }

  /** The list-building accumulator of groupingBy(s -> s) is what the merge
      with addAll of [s], and computeIfAbsent(s, ...).add(s), do to the lists. */
  lemma AppendIsGrouping(contents: map<string, seq<string>>, s: string)
    ensures contents[s := (if s in contents then contents[s] else []) + [s]] == GroupByLetter().accumulator(contents, s)
  {
    var g := GroupingBy(Identity, ToList<string>());
    assert GroupByLetter() == g && Identity(s) == s;
    assert g.accumulator(contents, s) == contents[s := ToList<string>().accumulator(if s in contents then contents[s] else [], s)];
  }

  /** The loop of the merge-with-addAll grouping: every distinct string ends up
      with the list of its occurrences, as groupingBy(s -> s) gives. */
  method GroupWithMerge(strings: seq<string>) returns (groups: HashMap<string, ArrayList<string>>)
    ensures fresh(groups)
    ensures Unshared(groups.entries)
    ensures ListContents(groups.entries) == Collect(strings, GroupByLetter())
    ensures groups.entries.Keys == Distinct(strings)
    ensures forall k :: k in groups.entries ==> groups.entries[k].elems == Copies(k, multiset(strings)[k])
  {
    groups := new HashMap();
    for i := 0 to |strings|
      invariant Unshared(groups.entries)
      invariant forall k :: k in groups.entries ==> fresh(groups.entries[k])
      invariant ListContents(groups.entries) == Fold(strings[..i], GroupByLetter().accumulator, map[])
    {
      var s := strings[i];
      FoldSnoc(strings[..i], s, GroupByLetter().accumulator, map[]);
      assert strings[..i + 1] == strings[..i] + [s];
      AppendIsGrouping(ListContents(groups.entries), s);
      var value := new ArrayList.Of([s]);
      MergeAddAll(groups, s, value);
    }
    assert strings[..|strings|] == strings;
    GroupingIdentityFinish(strings, Identity, ToList());
    GroupsAreCopies(strings);
  }

  /** computeIfAbsent(s, k -> new ArrayList<>()).add(s): the list stored under
      s, created empty for an absent s, gets s appended; no other list changes.
      The candidate list is allocated on every call and stored only when s is
      absent. */
  method AddOccurrence(groups: HashMap<string, ArrayList<string>>, s: string)
    requires Unshared(groups.entries)
    modifies groups, if s in groups.entries then {groups.entries[s]} else {}
    ensures groups.entries.Keys == old(groups.entries).Keys + {s}
    ensures forall k :: k in old(groups.entries) ==> groups.entries[k] == old(groups.entries)[k]
    ensures s !in old(groups.entries) ==> fresh(groups.entries[s])
    ensures Unshared(groups.entries)
    ensures ListContents(groups.entries) ==
      old(ListContents(groups.entries))[s := (if s in old(groups.entries) then old(groups.entries[s].elems) else []) + [s]]
  {
    var created := new ArrayList();
    var list := groups.ComputeIfAbsent(s, created);
    var _ := list.Add(s);
  }

  /** The loop of the computeIfAbsent grouping: the list created for a string's
      first occurrence is the one every later occurrence is added to. */
  method GroupWithComputeIfAbsent(strings: seq<string>) returns (groups: HashMap<string, ArrayList<string>>)
    ensures fresh(groups)
    ensures Unshared(groups.entries)
    ensures ListContents(groups.entries) == Collect(strings, GroupByLetter())
    ensures groups.entries.Keys == Distinct(strings)
    ensures forall k :: k in groups.entries ==> groups.entries[k].elems == Copies(k, multiset(strings)[k])
  {
    groups := new HashMap();
    for i := 0 to |strings|
      invariant Unshared(groups.entries)
      invariant forall k :: k in groups.entries ==> fresh(groups.entries[k])
      invariant ListContents(groups.entries) == Fold(strings[..i], GroupByLetter().accumulator, map[])
    {
      var s := strings[i];
      FoldSnoc(strings[..i], s, GroupByLetter().accumulator, map[]);
      assert strings[..i + 1] == strings[..i] + [s];
      AppendIsGrouping(ListContents(groups.entries), s);
      AddOccurrence(groups, s);
    }
    assert strings[..|strings|] == strings;
    GroupingIdentityFinish(strings, Identity, ToList());
    GroupsAreCopies(strings);
  }

  /** What computeIfAbsent(s, k -> new AtomicLong(initial)).incrementAndGet()
      does to the counter values: a new counter starts at initial and is
      incremented, an existing one goes up by 1. */
  function CounterStep(initial: int): (map<string, int>, string) -> map<string, int>
  {
    (values: map<string, int>, s: string) => values[s := (if s in values then values[s] else initial) + 1]
  }

  /** Counters seeded at 1 end at each string's occurrence count plus one. */
  lemma {:induction false} CounterStepIsCounting(strings: seq<string>)
    ensures Fold(strings, CounterStep(1), map[]) == Incremented(Fold(strings, CountByLetter().accumulator, map[]))
  {
    if strings != [] {
      var front, last := strings[..|strings| - 1], strings[|strings| - 1];
      CounterStepIsCounting(front);
      var counts := Fold(front, CountByLetter().accumulator, map[]);
      MergeOneIsCounting(counts, last);
      assert CountByLetter().accumulator(counts, last) == Merged(counts, last, 1, Sum);
    }
  }

  /** Counters seeded at 0 step exactly as groupingBy(s -> s, counting())
      accumulates. */
  lemma {:induction false} ZeroStepIsCounting(strings: seq<string>)
    ensures Fold(strings, CounterStep(0), map[]) == Fold(strings, CountByLetter().accumulator, map[])
  {
    if strings != [] {
      var front, last := strings[..|strings| - 1], strings[|strings| - 1];
      ZeroStepIsCounting(front);
      var counts := Fold(front, CountByLetter().accumulator, map[]);
      MergeOneIsCounting(counts, last);
      assert CountByLetter().accumulator(counts, last) == Merged(counts, last, 1, Sum);
    }
  }

  /** computeIfAbsent(s, k -> new AtomicLong(initial)).incrementAndGet(): the
      counter stored under s, created at initial for an absent s, goes up by
      one and its new value is returned; no other counter changes. */
  method CountOccurrence(counters: HashMap<string, AtomicLong>, s: string, initial: int) returns (r: int)
    requires Unshared(counters.entries)
    modifies counters, if s in counters.entries then {counters.entries[s]} else {}
    ensures counters.entries.Keys == old(counters.entries).Keys + {s}
    ensures forall k :: k in old(counters.entries) ==> counters.entries[k] == old(counters.entries)[k]
    ensures s !in old(counters.entries) ==> fresh(counters.entries[s])
    ensures Unshared(counters.entries)
    ensures r == (if s in old(counters.entries) then old(counters.entries[s].value) else initial) + 1
    ensures CounterValues(counters.entries) == CounterStep(initial)(old(CounterValues(counters.entries)), s)
  {
    var created := new AtomicLong(initial);
    var counter := counters.ComputeIfAbsent(s, created);
    r := counter.IncrementAndGet();
  }

  /** for (String s : strings) hashMap.computeIfAbsent(s, k -> new
      AtomicLong(initial)).incrementAndGet(): the counter of a string is
      created at its first occurrence and the same live counter is incremented
      at every occurrence. */
  method CountInto(strings: seq<string>, initial: int) returns (counters: HashMap<string, AtomicLong>)
    ensures fresh(counters)
    ensures Unshared(counters.entries)
    ensures CounterValues(counters.entries) == Fold(strings, CounterStep(initial), map[])
  {
    counters := new HashMap();
    for i := 0 to |strings|
      invariant Unshared(counters.entries)
      invariant forall k :: k in counters.entries ==> fresh(counters.entries[k])
      invariant CounterValues(counters.entries) == Fold(strings[..i], CounterStep(initial), map[])
    {
      var s := strings[i];
      FoldSnoc(strings[..i], s, CounterStep(initial), map[]);
      assert strings[..i + 1] == strings[..i] + [s];
      var _ := CountOccurrence(counters, s, initial);
    }
    assert strings[..|strings|] == strings;
  }

  /** The loop with the counters seeded at 1, as written: each counter ends
      one above its string's number of occurrences. */
  method CountWithCounters(strings: seq<string>) returns (counters: HashMap<string, AtomicLong>)
    ensures fresh(counters)
    ensures Unshared(counters.entries)
    ensures CounterValues(counters.entries) == Incremented(Collect(strings, CountByLetter()))
    ensures counters.entries.Keys == Distinct(strings)
    ensures forall k :: k in counters.entries ==> counters.entries[k].value == multiset(strings)[k] + 1
  {
    counters := CountInto(strings, 1);
    CounterStepIsCounting(strings);
    CountersEnd(strings);
  }

  /** Where the counters seeded at 1 end: the incremented occurrence counts. */
  lemma CountersEnd(strings: seq<string>)
    ensures var values := Incremented(Fold(strings, CountByLetter().accumulator, map[]));
      && values == Incremented(Collect(strings, CountByLetter()))
      && values.Keys == Distinct(strings)
      && forall k :: k in values ==> values[k] == multiset(strings)[k] + 1
  {
    GroupingIdentityFinish(strings, Identity, Counting());
    CountsAreOccurrences(strings);
  }

  /** The counters seeded at 1 do not count: a string that occurs once ends
      with a counter of 2. */
  lemma CountersOffByOne()
    ensures Fold(["a"], CounterStep(1), map[]) == map["a" := 2]
    ensures multiset(["a"])["a"] == 1
  {
    assert ["a"] == [] + ["a"];
    FoldSnoc([], "a", CounterStep(1), map[]);
  }

  /** The same loop with the counters seeded at 0
      (computeIfAbsent(s, k -> new AtomicLong()).incrementAndGet()): each
      counter ends at its string's number of occurrences, the map
      groupingBy(s -> s, counting()) builds. */
  method CountWithZeroCounters(strings: seq<string>) returns (counters: HashMap<string, AtomicLong>)
    ensures fresh(counters)
    ensures Unshared(counters.entries)
    ensures CounterValues(counters.entries) == Collect(strings, CountByLetter())
    ensures counters.entries.Keys == Distinct(strings)
    ensures forall k :: k in counters.entries ==> counters.entries[k].value == multiset(strings)[k]
  {
    counters := CountInto(strings, 0);
    ZeroStepIsCounting(strings);
    GroupingIdentityFinish(strings, Identity, Counting());
    CountsAreOccurrences(strings);
  }
}
