/** The java.lang.String and java.lang.Integer operations the tests apply to their
    input: hashCode, String.valueOf(int), replaceAll(" ", ""), toLowerCase,
    toUpperCase, length and split(""). Characters are restricted to ASCII where
    the Java operation depends on Unicode tables. */
module JavaStrings {
  import opened Streams

  /** Java's 32-bit signed int. */
  type int32 = x: int | -0x8000_0000 <= x < 0x8000_0000

  /** Two's-complement wrap-around of int arithmetic. */
  function Wrap32(x: int): (r: int32)
    ensures (x - r) % 0x1_0000_0000 == 0
    ensures -0x8000_0000 <= x < 0x8000_0000 ==> r == x
  {
    var m := x % 0x1_0000_0000;
    if m < 0x8000_0000 then m else m - 0x1_0000_0000
  }

  /** String.hashCode: s[0]*31^(n-1) + ... + s[n-1], in int arithmetic. */
  function HashCode(s: string): int32
  {
    if s == [] then 0 else Wrap32(31 * HashCode(s[..|s| - 1]) + s[|s| - 1] as int)
  }

  /** The hash of a one-character string is that character's code. */
  lemma HashCodeOfChar(c: char)
    ensures HashCode([c]) == c as int
  {
    assert [c][..0] == [];
  }

  /** String::concat, the remapping of the merge examples. */
  function StrConcat(a: string, b: string): string
  {
    a + b
  }

  /** String.length. */
  function Length(s: string): nat
  {
    |s|
  }

  // ---------------------------------------------------------------------------
  // String.valueOf(int) and its inverse Integer.parseInt

  predicate IsDigit(c: char)
  {
    '0' <= c <= '9'
  }

  function DigitChar(d: nat): (c: char)
    requires d < 10
    ensures IsDigit(c)
  {
    ('0' as int + d) as char
  }

  function DigitValue(c: char): (d: nat)
    requires IsDigit(c)
    ensures d < 10 && DigitChar(d) == c
  {
    c as int - '0' as int
  }

  /** Decimal digits of n, most significant first, without leading zeros. */
  function Digits(n: nat): (r: string)
    ensures |r| >= 1
    ensures forall i :: 0 <= i < |r| ==> IsDigit(r[i])
    ensures r[0] == '0' ==> n == 0
  {
    if n < 10 then [DigitChar(n)] else Digits(n / 10) + [DigitChar(n % 10)]
  }

  /** String.valueOf(int): an optional minus sign followed by the digits. */
  function ValueOf(i: int): string
  {
    if i < 0 then "-" + Digits(-i) else Digits(i)
  }

  predicate AllDigits(s: string)
  {
    forall i :: 0 <= i < |s| ==> IsDigit(s[i])
  }

  function ParseDigits(s: string): nat
    requires AllDigits(s)
  {
    if s == [] then 0 else ParseDigits(s[..|s| - 1]) * 10 + DigitValue(s[|s| - 1])
  }

  /** Integer.parseInt on the strings String.valueOf produces. */
  function ParseInt(s: string): int
    requires s != [] && (s[0] == '-' ==> AllDigits(s[1..])) && (s[0] != '-' ==> AllDigits(s))
  {
    if s[0] == '-' then 0 - ParseDigits(s[1..]) as int else ParseDigits(s)
  }

  lemma {:induction false} ParseDigitsOfDigits(n: nat)
    ensures ParseDigits(Digits(n)) == n
  {
    if n >= 10 {
      var d := Digits(n);
      assert d[..|d| - 1] == Digits(n / 10);
      ParseDigitsOfDigits(n / 10);
    }
  }

  /** String.valueOf is undone by Integer.parseInt: the decimal text of a value
      determines it. */
  lemma ValueOfRoundTrip(i: int)
    ensures var s := ValueOf(i);
            s != [] && (s[0] == '-' ==> AllDigits(s[1..])) && (s[0] != '-' ==> AllDigits(s)) &&
            ParseInt(s) == i
  {
    var s := ValueOf(i);
    if i < 0 {
      assert s[1..] == Digits(-i);
      ParseDigitsOfDigits(-i);
    } else {
      ParseDigitsOfDigits(i);
    }
  }

  /** Two values with the same decimal text are equal. */
  lemma ValueOfInjective(i: int, j: int)
    requires ValueOf(i) == ValueOf(j)
    ensures i == j
  {
    ValueOfRoundTrip(i);
    ValueOfRoundTrip(j);
  }

  // ---------------------------------------------------------------------------
  // Case mapping (ASCII letters only) and the preprocessing of the sentence

  function LowerChar(c: char): (r: char)
    ensures 'A' <= c <= 'Z' ==> r as int == c as int + 32
    ensures !('A' <= c <= 'Z') ==> r == c
  {
    if 'A' <= c <= 'Z' then (c as int + 32) as char else c
  }

  function UpperChar(c: char): (r: char)
    ensures 'a' <= c <= 'z' ==> r as int == c as int - 32
    ensures !('a' <= c <= 'z') ==> r == c
  {
    if 'a' <= c <= 'z' then (c as int - 32) as char else c
  }

  /** Lower-casing and upper-casing are inverse on ASCII letters: an upper-case
      letter lower-cases to a lower-case letter that upper-cases back, and the
      other way round. */
  lemma CaseRoundTrip(c: char)
    ensures 'A' <= c <= 'Z' ==> 'a' <= LowerChar(c) <= 'z' && UpperChar(LowerChar(c)) == c
    ensures 'a' <= c <= 'z' ==> 'A' <= UpperChar(c) <= 'Z' && LowerChar(UpperChar(c)) == c
  {
  }

  /** String.toLowerCase on ASCII text. */
  function ToLowerCase(s: string): string
  {
    Map(s, LowerChar)
  }

  /** String.toUpperCase on ASCII text. */
  function ToUpperCase(s: string): string
  {
    Map(s, UpperChar)
  }

  predicate NotSpace(c: char)
  {
    c != ' '
  }

  /** s.replaceAll(" ", ""): every space removed, everything else kept in order. */
  function RemoveSpaces(s: string): string
  {
    Filter(s, NotSpace)
  }

  function Singleton(c: char): string
  {
    [c]
  }

  /** s.split(""): the one-character strings of s, in order; like Java, the empty
      string splits into one empty string. */
  function SplitChars(s: string): (r: seq<string>)
  {
    if s == [] then [""] else Map(s, Singleton)
  }

  /** Concatenation of a sequence of strings. */
  function Concat(parts: seq<string>): string
  {
    if parts == [] then [] else Concat(parts[..|parts| - 1]) + parts[|parts| - 1]
  }

  /** Splitting into characters loses nothing: the parts join back to s, and
      every part of a non-empty s is one character long. */
  lemma {:induction false} SplitCharsJoins(s: string)
    ensures Concat(SplitChars(s)) == s
    ensures s != [] ==> forall i :: 0 <= i < |SplitChars(s)| ==> |SplitChars(s)[i]| == 1
  {
    if |s| > 1 {
      var front := s[..|s| - 1];
      SplitCharsJoins(front);
      var parts := SplitChars(s);
      assert parts[..|parts| - 1] == SplitChars(front);
    } else if |s| == 1 {
      var parts := SplitChars(s);
      assert parts[..0] == [];
      assert s == [s[0]];
    }
  }

  /** str.replaceAll(" ", "").toLowerCase().split("") */
  function Prepare(str: string): seq<string>
  {
    SplitChars(ToLowerCase(RemoveSpaces(str)))
  }

  /** The prepared parts of a sentence that is not all spaces are one-character
      strings, none a space or an upper-case ASCII letter, as many as the
      sentence has non-space characters; each one's hashCode is its code. */
  lemma PrepareParts(str: string)
    requires RemoveSpaces(str) != []
    ensures var parts := Prepare(str);
      |parts| == |RemoveSpaces(str)| &&
      forall i :: 0 <= i < |parts| ==>
        |parts[i]| == 1 && parts[i][0] != ' ' && !('A' <= parts[i][0] <= 'Z') &&
        HashCode(parts[i]) == parts[i][0] as int
  {
    var kept := RemoveSpaces(str);
    var parts := Prepare(str);
    forall i | 0 <= i < |parts|
      ensures |parts[i]| == 1 && parts[i][0] != ' ' && !('A' <= parts[i][0] <= 'Z')
      ensures HashCode(parts[i]) == parts[i][0] as int
    {
      assert kept[i] in kept;
      HashCodeOfChar(parts[i][0]);
    }
  }
}
