/** The people examples: a loop builds a list of people, person i being Male
    for even i and Female for odd i, which is then grouped by sex, and by sex
    and then by name. Person names are a parameter: random short UUIDs in one
    test, String.valueOf(i % 3) in the other. */
module PeopleGrouping {
  import opened Streams
  import opened JavaStrings
  import opened Collectors
  import opened JavaCollections

  /** A person as the tests see one: a name and a sex. */
  datatype Person = Person(name: string, sex: string)

  /** Person::getSex. */
  function Sex(p: Person): string
  {
    p.sex
  }

  /** Person::getName. */
  function Name(p: Person): string
  {
    p.name
  }

  /** The sex the loop gives person i. */
  function SexOf(i: int): string
  {
    if i % 2 == 0 then "Male" else "Female"
  }

  /** The first n people the loop builds, in order. */
  function Roster(n: nat, nameOf: int -> string): (r: seq<Person>)
    ensures |r| == n
  {
    if n == 0 then [] else Roster(n - 1, nameOf) + [Person(nameOf(n - 1), SexOf(n - 1))]
  }

  lemma RosterSnoc(n: nat, nameOf: int -> string)
    requires n > 0
    ensures Roster(n, nameOf) == Roster(n - 1, nameOf) + [Person(nameOf(n - 1), SexOf(n - 1))]
  {
  }

  /** Person i of the list is the one the loop created in round i: named
      nameOf(i), Male for even i and Female for odd i. */
  lemma {:induction false} RosterAt(n: nat, nameOf: int -> string, i: int)
    requires 0 <= i < n
    ensures Roster(n, nameOf)[i] == Person(nameOf(i), SexOf(i))
  {
    if i < n - 1 {
      RosterAt(n - 1, nameOf, i);
    }
  }

  /** The loop that creates person i, sets its name and its sex, and adds it
      to the list. */
  method BuildPeople(n: nat, nameOf: int -> string) returns (people: ArrayList<Person>)
    ensures fresh(people)
    ensures people.elems == Roster(n, nameOf)
  {
    people := new ArrayList();
    for i := 0 to n
      invariant people.elems == Roster(i, nameOf)
    {
      var person := Person(nameOf(i), SexOf(i));
      var _ := people.Add(person);
    }
  }

  /** The names of the second test. */
  function NameByThree(i: int): string
  {
    ValueOf(i % 3)
  }

  /** groupingByConcurrent(Person::getSex), run sequentially. */
  function BySex(): Collector<Person, map<string, seq<Person>>, map<string, seq<Person>>>
  {
    GroupingBy(Sex, ToList())
  }

  /** groupingByConcurrent(Person::getSex, groupingBy(Person::getName)), run
      sequentially. */
  function BySexThenName(): Collector<Person, map<string, map<string, seq<Person>>>, map<string, map<string, seq<Person>>>>
  {
    GroupingBy(Sex, GroupingBy(Name, ToList()))
  }

  lemma MaleIsNotFemale()
    ensures "Male" != "Female"
  {
    assert |"Male"| != |"Female"|;
  }

  /** Of the first n people, (n + 1) / 2 are Male and n / 2 Female. */
  lemma {:induction false} SexCounts(n: nat, nameOf: int -> string)
    ensures |Select(Roster(n, nameOf), Sex, "Male")| == (n + 1) / 2
    ensures |Select(Roster(n, nameOf), Sex, "Female")| == n / 2
  {
    if n > 0 {
      var front, last := Roster(n - 1, nameOf), Person(nameOf(n - 1), SexOf(n - 1));
      assert Roster(n, nameOf) == front + [last];
      SexCounts(n - 1, nameOf);
      var males, females := |Select(front, Sex, "Male")|, |Select(front, Sex, "Female")|;
      assert males == n / 2 && females == (n - 1) / 2;
      SelectSnoc(front, last, Sex, "Male");
      SelectSnoc(front, last, Sex, "Female");
      MaleIsNotFemale();
      var m := (n - 1) / 2;
      if (n - 1) % 2 == 0 {
        assert Sex(last) == "Male";
        assert n == 2 * m + 1;
        assert n / 2 == m && (n + 1) / 2 == m + 1;
      } else {
        assert Sex(last) == "Female";
        assert n == 2 * m + 2;
        assert n / 2 == m + 1 && (n + 1) / 2 == m + 1;
      }
    } else {
      assert Roster(n, nameOf) == [];
    }
  }

  /** The sexes that occur among the first n people. */
  lemma {:induction false} RosterSexes(n: nat, nameOf: int -> string)
    ensures Classes(Roster(n, nameOf), Sex) == if n == 0 then {} else if n == 1 then {"Male"} else {"Male", "Female"}
  {
    if n > 0 {
      var front, last := Roster(n - 1, nameOf), Person(nameOf(n - 1), SexOf(n - 1));
      assert Roster(n, nameOf) == front + [last];
      RosterSexes(n - 1, nameOf);
      ClassesSnoc(front, last, Sex);
    }
  }

  /** Grouping the first n people by sex: the sexes that occur are the keys,
      each group holds exactly the people of that sex in list order, and the
      groups have (n + 1) / 2 and n / 2 people. */
  lemma GroupBySex(n: nat, nameOf: int -> string)
    ensures var people := Roster(n, nameOf);
      var g := Collect(people, BySex());
      && g.Keys == (if n == 0 then {} else if n == 1 then {"Male"} else {"Male", "Female"})
      && (forall k :: k in g ==> g[k] == Select(people, Sex, k))
      && (n >= 1 ==> |g["Male"]| == (n + 1) / 2)
      && (n >= 2 ==> |g["Female"]| == n / 2)
  {
    var people := Roster(n, nameOf);
    GroupingCollects(people, Sex, ToList());
    RosterSexes(n, nameOf);
    SexCounts(n, nameOf);
    forall k | k in Collect(people, BySex()) ensures Collect(people, BySex())[k] == Select(people, Sex, k) {
      ToListCollects(Select(people, Sex, k));
    }
  }

  /** The ten people of the tests: two groups of five. */
  lemma TenPeopleBySex(nameOf: int -> string)
    ensures var g := Collect(Roster(10, nameOf), BySex());
      g.Keys == {"Male", "Female"} && |g["Male"]| == 5 && |g["Female"]| == 5
  {
    GroupBySex(10, nameOf);
  }

  /** The people of the list with sex k and name j, in list order. */
  function Cell(people: seq<Person>, k: string, j: string): seq<Person>
  {
    Select(Select(people, Sex, k), Name, j)
  }

  /** A cell is the people with both that sex and that name, in list order:
      the two nested selections are one filter by the pair. */
  lemma CellIsFilter(people: seq<Person>, k: string, j: string)
    ensures Cell(people, k, j) == Filter(people, (p: Person) => p.sex == k && p.name == j)
  {
    FilterFilter(people, KeyIs(Sex, k), KeyIs(Name, j), (p: Person) => p.sex == k && p.name == j);
  }

  /** Grouping by sex and then by name: the outer keys are the sexes that
      occur, the inner keys of a sex the names that occur with it, and each
      cell holds exactly the people with that sex and that name. */
  lemma NestedGrouping(people: seq<Person>)
    ensures var g := Collect(people, BySexThenName());
      && g.Keys == Classes(people, Sex)
      && forall k :: k in g ==>
           && g[k].Keys == Classes(Select(people, Sex, k), Name)
           && forall j :: j in g[k] ==> g[k][j] == Cell(people, k, j)
  {
    var g := Collect(people, BySexThenName());
    GroupingCollects(people, Sex, GroupingBy(Name, ToList()));
    forall k | k in g
      ensures g[k].Keys == Classes(Select(people, Sex, k), Name)
      ensures forall j :: j in g[k] ==> g[k][j] == Cell(people, k, j)
    {
      var sel := Select(people, Sex, k);
      GroupingCollects(sel, Name, ToList());
      forall j | j in g[k] ensures g[k][j] == Cell(people, k, j) {
        ToListCollects(Cell(people, k, j));
      }
    }
  }

  /** The nested grouping has a cell for a sex and a name exactly when some
      person of the list has both. */
  lemma NestedKeys(people: seq<Person>)
    ensures var g := Collect(people, BySexThenName());
      forall k, j :: (k in g && j in g[k]) <==> Cell(people, k, j) != []
  {
    var g := Collect(people, BySexThenName());
    NestedGrouping(people);
    forall k, j | k in g && j in g[k] ensures Cell(people, k, j) != [] {
      var sel := Select(people, Sex, k);
      var x :| x in sel && Name(x) == j;
      assert KeyIs(Name, j)(x);
    }
    forall k, j | Cell(people, k, j) != [] ensures k in g && j in g[k] {
      var sel := Select(people, Sex, k);
      var x := Cell(people, k, j)[0];
      assert x in Cell(people, k, j);
      assert x in sel && KeyIs(Name, j)(x);
      assert x in people && KeyIs(Sex, k)(x);
    }
  }

  /** A cell of the nested grouping counts every person with its sex and name
      as often as the list holds it, and no one else. */
  lemma CellCounts(people: seq<Person>, k: string, j: string)
    ensures forall p :: multiset(Cell(people, k, j))[p] == if p.sex == k && p.name == j then multiset(people)[p] else 0
  {
    var sel := Select(people, Sex, k);
    FilterCounts(people, KeyIs(Sex, k));
    FilterCounts(sel, KeyIs(Name, j));
    forall p ensures KeyIs(Sex, k)(p) == (p.sex == k) && KeyIs(Name, j)(p) == (p.name == j) {
      assert Sex(p) == p.sex && Name(p) == p.name;
    }
  }

  /** No person is lost or duplicated by the nested grouping: every person of
      the list is in the cell of its sex and name, exactly as often as in the
      list, and a cell holds only people of its sex and name. */
  lemma NestedGroupingKeepsEveryone(people: seq<Person>)
    ensures var g := Collect(people, BySexThenName());
      && (forall p :: p in people ==>
            p.sex in g && p.name in g[p.sex] && multiset(g[p.sex][p.name])[p] == multiset(people)[p])
      && forall k, j, p: Person :: k in g && j in g[k] && p in g[k][j] ==> p.sex == k && p.name == j
  {
    var g := Collect(people, BySexThenName());
    NestedGrouping(people);
    forall p | p in people
      ensures p.sex in g && p.name in g[p.sex] && multiset(g[p.sex][p.name])[p] == multiset(people)[p]
    {
      assert Sex(p) == p.sex && Name(p) == p.name;
      var sel := Select(people, Sex, p.sex);
      assert KeyIs(Sex, p.sex)(p);
      assert p in sel;
      CellCounts(people, p.sex, p.name);
    }
    forall k, j, p: Person | k in g && j in g[k] && p in g[k][j] ensures p.sex == k && p.name == j {
      CellCounts(people, k, j);
      assert multiset(Cell(people, k, j))[p] > 0;
    }
  }

  /** The ten people of the second test, named String.valueOf(i % 3). */
  function PeopleByThree(): seq<Person>
  {
    [Person("0", "Male"), Person("1", "Female"), Person("2", "Male"), Person("0", "Female"), Person("1", "Male"),
     Person("2", "Female"), Person("0", "Male"), Person("1", "Female"), Person("2", "Male"), Person("0", "Female")]
  }

  /** The loop of the second test builds exactly those ten people. */
  lemma NamedByThree()
    ensures Roster(10, NameByThree) == PeopleByThree()
  {
    assert ValueOf(0) == "0" && ValueOf(1) == "1" && ValueOf(2) == "2";
    assert forall i :: 0 <= i < 10 ==> NameByThree(i) == ValueOf(i % 3);
  }

  /** How many of the indices below n are congruent to s modulo 2 and to r
      modulo 3. */
  function CountIdx(n: nat, s: int, r: int): nat
  {
    if n == 0 then 0 else CountIdx(n - 1, s, r) + (if (n - 1) % 2 == s && (n - 1) % 3 == r then 1 else 0)
  }

  /** One more person at the end of the list joins the cell of its own sex
      and name and no other. */
  lemma CellSnoc(front: seq<Person>, last: Person, k: string, j: string)
    ensures |Cell(front + [last], k, j)| == |Cell(front, k, j)| + (if last.sex == k && last.name == j then 1 else 0)
  {
    var sel := Select(front, Sex, k);
    SelectSnoc(front, last, Sex, k);
    if Sex(last) == k {
      SelectSnoc(sel, last, Name, j);
    } else {
      assert sel + [] == sel;
    }
  }

  /** Person i has the sex of index s exactly when i and s have the same
      parity. */
  lemma SexMatches(i: int, s: nat)
    requires s < 2
    ensures (SexOf(i) == SexOf(s)) == (i % 2 == s)
  {
    MaleIsNotFemale();
  }

  /** Person i has the name of index r exactly when i is r modulo 3. */
  lemma NameMatches(i: int, r: nat)
    requires r < 3
    ensures (NameByThree(i) == NameByThree(r)) == (i % 3 == r)
  {
    if NameByThree(i) == NameByThree(r) {
      ValueOfInjective(i % 3, r % 3);
    }
  }

  /** In the list the loop builds with names that repeat with period 3 (as
      String.valueOf(i % 3) does), the people with the sex of index s and the
      name of index r are as many as the indices with the same parities as s
      modulo 2 and r modulo 3. */
  lemma {:induction false} RosterCellSize(n: nat, nameOf: int -> string, s: nat, r: nat)
    requires s < 2 && r < 3
    requires forall i :: (nameOf(i) == nameOf(r)) == (i % 3 == r)
    ensures |Cell(Roster(n, nameOf), SexOf(s), nameOf(r))| == CountIdx(n, s, r)
  {
    if n > 0 {
      RosterCellSize(n - 1, nameOf, s, r);
      RosterCellStep(n, nameOf, s, r);
      CountStep(n - 1, s, r);
    }
  }

  /** The person created in round n - 1 joins the cell of the sex of index s
      and the name of index r exactly when n - 1 has their residues. */
  lemma RosterCellStep(n: nat, nameOf: int -> string, s: nat, r: nat)
    requires n > 0 && s < 2 && r < 3
    requires (nameOf(n - 1) == nameOf(r)) == ((n - 1) % 3 == r)
    ensures |Cell(Roster(n, nameOf), SexOf(s), nameOf(r))|
         == |Cell(Roster(n - 1, nameOf), SexOf(s), nameOf(r))| + (if (n - 1) % 2 == s && (n - 1) % 3 == r then 1 else 0)
  {
    var k, j := SexOf(s), nameOf(r);
    var front, last := Roster(n - 1, nameOf), Person(nameOf(n - 1), SexOf(n - 1));
    RosterSnoc(n, nameOf);
    CellSnoc(front, last, k, j);
    SexMatches(n - 1, s);
  }

  /** The names of the second test are the texts 0, 1 and 2. */
  lemma NamesOfThree()
    ensures NameByThree(0) == "0" && NameByThree(1) == "1" && NameByThree(2) == "2"
    ensures SexOf(0) == "Male" && SexOf(1) == "Female"
  {
    assert ValueOf(0) == "0" && ValueOf(1) == "1" && ValueOf(2) == "2";
  }

  /** The names String.valueOf(i % 3) repeat with period 3. */
  lemma NamesRepeat(r: nat)
    requires r < 3
    ensures forall i :: (NameByThree(i) == NameByThree(r)) == (i % 3 == r)
  {
    forall i ensures (NameByThree(i) == NameByThree(r)) == (i % 3 == r) {
      NameMatches(i, r);
    }
  }

  /** An index below n with the right residues makes the count positive. */
  lemma {:induction false} CountIdxAt(n: nat, s: int, r: int, i: nat)
    requires i < n && i % 2 == s && i % 3 == r
    ensures CountIdx(n, s, r) >= 1
  {
    if i < n - 1 {
      CountIdxAt(n - 1, s, r, i);
    }
  }

  /** One more index adds one to the count exactly when it has the given
      residues. */
  lemma CountStep(n: nat, s: int, r: int)
    ensures CountIdx(n + 1, s, r) == CountIdx(n, s, r) + (if n % 2 == s && n % 3 == r then 1 else 0)
  {
  }

  /** Among six consecutive indices exactly one has given residues modulo 2
      and 3. */
  lemma SixOnce(s: nat, r: nat)
    requires s < 2 && r < 3
    ensures CountIdx(6, s, r) == 1
  {
    CountStep(0, s, r);
    CountStep(1, s, r);
    CountStep(2, s, r);
    CountStep(3, s, r);
    CountStep(4, s, r);
    CountStep(5, s, r);
  }

  /** Every six more people add one person to each cell. */
  lemma {:induction false} CountIdxPeriodic(n: nat, s: nat, r: nat)
    requires s < 2 && r < 3
    ensures CountIdx(n + 6, s, r) == CountIdx(n, s, r) + 1
  {
    if n == 0 {
      SixOnce(s, r);
    } else {
      var m := n - 1;
      CountIdxPeriodic(m, s, r);
      CountStep(m + 6, s, r);
      CountStep(m, s, r);
      assert (m + 6) % 2 == m % 2 && (m + 6) % 3 == m % 3;
    }
  }

  /** The counts for ten people: one for Male with name 1 and for Female with
      name 2, two for every other pair. */
  lemma CountsOfTen(s: nat, r: nat)
    requires s < 2 && r < 3
    ensures CountIdx(10, s, r) == if (s == 0 && r == 1) || (s == 1 && r == 2) then 1 else 2
  {
    CountIdxPeriodic(4, s, r);
    CountStep(0, s, r);
    CountStep(1, s, r);
    CountStep(2, s, r);
    CountStep(3, s, r);
  }

  /** Person i is named 0, 1 or 2. */
  lemma NameIsDigit(i: int)
    ensures NameByThree(i) in {"0", "1", "2"}
  {
    var r := i % 3;
    assert NameByThree(i) == ValueOf(r);
    if r == 0 {
      assert ValueOf(0) == "0";
    } else if r == 1 {
      assert ValueOf(1) == "1";
    } else {
      assert r == 2;
      assert ValueOf(2) == "2";
    }
  }

  /** Every name the loop gives is 0, 1 or 2. */
  lemma NamesOfRoster(n: nat, k: string, j: string)
    requires Cell(Roster(n, NameByThree), k, j) != []
    ensures j in {"0", "1", "2"}
  {
    var people := Roster(n, NameByThree);
    var x := Cell(people, k, j)[0];
    assert x in Cell(people, k, j);
    assert x in Select(people, Sex, k) && KeyIs(Name, j)(x);
    var i :| 0 <= i < |people| && people[i] == x;
    RosterAt(n, NameByThree, i);
    assert j == NameByThree(i);
    NameIsDigit(i);
  }

  /** The inner keys of a sex are exactly the names whose cell is non-empty. */
  lemma InnerKeys(people: seq<Person>, k: string, names: set<string>)
    requires names != {}
    requires forall j :: Cell(people, k, j) != [] <==> j in names
    ensures var g := Collect(people, BySexThenName());
      k in g && g[k].Keys == names
  {
    var g := Collect(people, BySexThenName());
    NestedKeys(people);
    var j0 :| j0 in names;
    assert Cell(people, k, j0) != [];
    assert k in g;
    forall j ensures j in g[k] <==> j in names {
      assert (k in g && j in g[k]) <==> Cell(people, k, j) != [];
    }
  }

  /** Among the first six indices every pair of remainders occurs. */
  lemma CountPositive(n: nat, s: int, r: int)
    requires n >= 6 && 0 <= s < 2 && 0 <= r < 3
    ensures CountIdx(n, s, r) >= 1
  {
    if s == 0 {
      if r == 0 { CountIdxAt(n, 0, 0, 0); }
      else if r == 1 { CountIdxAt(n, 0, 1, 4); }
      else { CountIdxAt(n, 0, 2, 2); }
    } else {
      if r == 0 { CountIdxAt(n, 1, 0, 3); }
      else if r == 1 { CountIdxAt(n, 1, 1, 1); }
      else { CountIdxAt(n, 1, 2, 5); }
    }
  }

  /** Once the loop has created at least six people, every cell has
      someone in it. */
  lemma CellFilled(n: nat, s: nat, r: nat)
    requires n >= 6 && s < 2 && r < 3
    ensures |Cell(Roster(n, NameByThree), SexOf(s), NameByThree(r))| >= 1
  {
    NamesRepeat(r);
    RosterCellSize(n, NameByThree, s, r);
    CountPositive(n, s, r);
  }

  /** Every name in the list is 0, 1 or 2. */
  lemma NamesOfCells(n: nat, k: string)
    ensures forall j :: Cell(Roster(n, NameByThree), k, j) != [] ==> j in {"0", "1", "2"}
  {
    forall j | Cell(Roster(n, NameByThree), k, j) != [] ensures j in {"0", "1", "2"} {
      NamesOfRoster(n, k, j);
    }
  }

  /** Each sex has someone named 0, someone named 1 and someone named 2. */
  lemma CellsOfSexFilled(n: nat, s: nat)
    requires n >= 6 && s < 2
    ensures var people, k := Roster(n, NameByThree), SexOf(s);
      Cell(people, k, "0") != [] && Cell(people, k, "1") != [] && Cell(people, k, "2") != []
  {
    NamesOfThree();
    CellFilled(n, s, 0);
    CellFilled(n, s, 1);
    CellFilled(n, s, 2);
  }

  /** Once the loop has created at least six people, each sex has people
      named 0, 1 and 2, and no other name. */
  lemma InnerKeysByThree(n: nat, s: nat)
    requires n >= 6 && s < 2
    ensures var g := Collect(Roster(n, NameByThree), BySexThenName());
      SexOf(s) in g && g[SexOf(s)].Keys == {"0", "1", "2"}
  {
    CellsOfSexFilled(n, s);
    NamesOfCells(n, SexOf(s));
    InnerKeys(Roster(n, NameByThree), SexOf(s), {"0", "1", "2"});
  }

  /** The sizes of the cells of the second test: Male has two people named 0,
      one named 1 and two named 2; Female two named 0, two named 1 and one
      named 2. */
  lemma CellByThree(s: nat, r: nat)
    requires s < 2 && r < 3
    ensures |Cell(Roster(10, NameByThree), SexOf(s), NameByThree(r))|
         == if (s == 0 && r == 1) || (s == 1 && r == 2) then 1 else 2
  {
    NamesRepeat(r);
    RosterCellSize(10, NameByThree, s, r);
    CountsOfTen(s, r);
  }

  /** The nested grouping of the second test: the sexes Male and Female,
      each with the names 0, 1 and 2; Male has two people named 0, one named
      1 and two named 2, Female two named 0, two named 1 and one named 2. */
  lemma NestedGroupingByThree()
    ensures var g := Collect(Roster(10, NameByThree), BySexThenName());
      && g.Keys == {"Male", "Female"}
      && g["Male"].Keys == {"0", "1", "2"} && g["Female"].Keys == {"0", "1", "2"}
      && |g["Male"]["0"]| == 2 && |g["Male"]["1"]| == 1 && |g["Male"]["2"]| == 2
      && |g["Female"]["0"]| == 2 && |g["Female"]["1"]| == 2 && |g["Female"]["2"]| == 1
  {
    var people := Roster(10, NameByThree);
    var g := Collect(people, BySexThenName());
    NestedGrouping(people);
    assert g.Keys == {"Male", "Female"} by {
      RosterSexes(10, NameByThree);
    }
    NamesOfThree();
    InnerKeysByThree(10, 0);
    InnerKeysByThree(10, 1);
    CellByThree(0, 0);
    CellByThree(0, 1);
    CellByThree(0, 2);
    CellByThree(1, 0);
    CellByThree(1, 1);
    CellByThree(1, 2);
  }
}
