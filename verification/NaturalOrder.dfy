/** The natural order of display names: digit runs by value, everything else by collation. */
module NaturalOrder {
  import opened Text
  import opened Ordering

  /** What the order takes from its platform: Unicode normalisation, which characters a digit run is
      made of, and the culture's collation, given by a sort key (any total preorder of strings has
      one). */
  datatype Culture = Culture(normalize: string -> string, isDigit: char -> bool, key: string -> real)

  predicate AsciiDigit(c: char) {
    '0' <= c <= '9'
  }

  function Collate(culture: Culture, a: string, b: string): int {
    if culture.key(a) < culture.key(b) then -1 else if culture.key(a) > culture.key(b) then 1 else 0
  }

  /** The length of the run of digits, or of non-digits, that a string starts with. */
  function RunLength(culture: Culture, s: string, digits: bool): (n: nat)
    ensures n <= |s|
    ensures forall i :: 0 <= i < n ==> culture.isDigit(s[i]) == digits
    ensures n < |s| ==> culture.isDigit(s[n]) != digits
  {
    if |s| == 0 || culture.isDigit(s[0]) != digits then 0 else 1 + RunLength(culture, s[1..], digits)
  }

  /** The maximal runs of a name, left to right. */
  function Parts(culture: Culture, s: string): (r: seq<string>)
    ensures forall i :: 0 <= i < |r| ==> |r[i]| > 0
  {
    if |s| == 0 then []
    else
      var n := RunLength(culture, s, culture.isDigit(s[0]));
      [s[..n]] + Parts(culture, s[n..])
  }

  /** The parts of a name once it has been normalised. */
  function NameParts(culture: Culture, name: string): seq<string> {
    Parts(culture, culture.normalize(name))
  }

  const LONG_LIMIT: nat := 0x8000_0000_0000_0000

  predicate AllAscii(s: string) {
    forall i :: 0 <= i < |s| ==> AsciiDigit(s[i])
  }

  function Value(s: string): nat
    requires AllAscii(s)
  {
    if |s| == 0 then 0 else 10 * Value(s[..|s| - 1]) + (s[|s| - 1] as int - '0' as int)
  }

  /** long.TryParse without any style: ASCII digits only, and no overflow. */
  function TryParse(s: string): Option<nat> {
    if |s| > 0 && AllAscii(s) && Value(s) < LONG_LIMIT then Some(Value(s)) else None
  }

  function ComparePart(culture: Culture, a: string, b: string): int {
    var m, n := TryParse(a), TryParse(b);
    if m.Some? && n.Some? then m.value - n.value else Collate(culture, a, b)
  }

  /** The first pair of parts that differ decides, then the number of parts. */
  function CompareParts(culture: Culture, a: seq<string>, b: seq<string>): int {
    if |a| == 0 || |b| == 0 then |a| - |b|
    else
      var c := ComparePart(culture, a[0], b[0]);
      if c != 0 then c else CompareParts(culture, a[1..], b[1..])
  }

  function Natural(culture: Culture, a: string, b: string): int {
    var c := CompareParts(culture, NameParts(culture, a), NameParts(culture, b));
    if c != 0 then c else Ordinal(a, b)
  }

  /** The comparer as the program runs it.  The last tie is broken on the names as they are. */
  method Compare(culture: Culture, left: string, right: string) returns (r: int)
    ensures r == Natural(culture, left, right)
  {
    var leftParts, rightParts := NameParts(culture, left), NameParts(culture, right);
    var count := if |leftParts| <= |rightParts| then |leftParts| else |rightParts|;
    for index := 0 to count
      invariant CompareParts(culture, leftParts, rightParts)
             == CompareParts(culture, leftParts[index..], rightParts[index..])
    {
      var leftPart, rightPart := leftParts[index], rightParts[index];
      var leftNumber, rightNumber := TryParse(leftPart), TryParse(rightPart);
      var comparison: int;
      if leftNumber.Some? && rightNumber.Some? {
        comparison := leftNumber.value as int - rightNumber.value as int;
      } else {
        comparison := Collate(culture, leftPart, rightPart);
      }
      assert leftParts[index..][1..] == leftParts[index + 1..];
      assert rightParts[index..][1..] == rightParts[index + 1..];
      if comparison != 0 {
        return comparison;
      }
    }
    var lengthComparison := |leftParts| - |rightParts|;
    return if lengthComparison != 0 then lengthComparison else Ordinal(left, right);
  }

  /* ---------- what it compares ---------- */

  /** Two parts that both read as numbers compare by value, all others by collation. */
  lemma PartsByValue(culture: Culture, a: string, b: string)
    ensures
      var c := ComparePart(culture, a, b);
      if |a| > 0 && |b| > 0 && AllAscii(a) && AllAscii(b) && Value(a) < 0x8000_0000_0000_0000
         && Value(b) < 0x8000_0000_0000_0000 then
        (c < 0 <==> Value(a) < Value(b)) && (c == 0 <==> Value(a) == Value(b))
      else (c < 0 <==> culture.key(a) < culture.key(b)) && (c == 0 <==> culture.key(a) == culture.key(b))
  {
  }

  /** Names agree up to part k. */
  predicate AgreeUpTo(culture: Culture, a: seq<string>, b: seq<string>, k: nat) {
    k <= |a| && k <= |b| && forall i :: 0 <= i < k ==> ComparePart(culture, a[i], b[i]) == 0
  }

  lemma {:induction false} DifferenceDecides(culture: Culture, a: seq<string>, b: seq<string>, k: nat)
    requires AgreeUpTo(culture, a, b, k)
    ensures CompareParts(culture, a, b) == CompareParts(culture, a[k..], b[k..])
  {
    if k > 0 {
      DifferenceDecides(culture, a[1..], b[1..], k - 1);
      assert a[1..][k - 1..] == a[k..] && b[1..][k - 1..] == b[k..];
    }
  }

  /** The first parts that differ decide; then the name with fewer parts comes first; and last the names
      as they are. */
  lemma NaturalDecides(culture: Culture, a: string, b: string, k: nat)
    requires AgreeUpTo(culture, NameParts(culture, a), NameParts(culture, b), k)
    ensures
      var x, y, c := NameParts(culture, a), NameParts(culture, b), Natural(culture, a, b);
      && (k < |x| && k < |y| && ComparePart(culture, x[k], y[k]) != 0 ==> c == ComparePart(culture, x[k], y[k]))
      && (k == |x| < |y| ==> c < 0) && (k == |y| < |x| ==> c > 0)
      && (k == |x| == |y| ==> c == Ordinal(a, b))
  {
    DifferenceDecides(culture, NameParts(culture, a), NameParts(culture, b), k);
  }

  /* ---------- where it is a strict total order ---------- */

  /** A digit run of ASCII digits whose value is below a bound. */
  predicate SmallRun(s: string, bound: nat) {
    |s| > 0 && AllAscii(s) && Value(s) < bound
  }

  predicate WordRun(culture: Culture, s: string) {
    |s| > 0 && forall i :: 0 <= i < |s| ==> !culture.isDigit(s[i])
  }

  predicate InDomain(culture: Culture, bound: nat, name: string) {
    forall i :: 0 <= i < |NameParts(culture, name)| ==>
      SmallRun(NameParts(culture, name)[i], bound) || WordRun(culture, NameParts(culture, name)[i])
  }

  /** The collation puts a word below every digit run or above every digit run. */
  ghost predicate Separates(culture: Culture, word: string) {
    (forall run :: |run| > 0 && AllAscii(run) ==> culture.key(word) < culture.key(run))
    || (forall run :: |run| > 0 && AllAscii(run) ==> culture.key(word) > culture.key(run))
  }

  ghost predicate WellFormed(culture: Culture) {
    && (forall run :: AllAscii(run) ==> culture.normalize(run) == run)
    && (forall c :: AsciiDigit(c) ==> culture.isDigit(c))
    && (forall word :: WordRun(culture, word) ==> Separates(culture, word))
  }

  ghost predicate TotalBelow(culture: Culture, bound: nat) {
    && (forall a, b :: InDomain(culture, bound, a) && InDomain(culture, bound, b) ==>
          (Natural(culture, a, b) == 0 <==> a == b)
          && (Natural(culture, a, b) < 0 <==> Natural(culture, b, a) > 0))
    && (forall a, b, c :: InDomain(culture, bound, a) && InDomain(culture, bound, b) && InDomain(culture, bound, c)
                          && Natural(culture, a, b) <= 0 && Natural(culture, b, c) <= 0 ==>
          Natural(culture, a, c) <= 0)
  }

  predicate GoodPart(culture: Culture, s: string) {
    SmallRun(s, LONG_LIMIT) || WordRun(culture, s)
  }

  lemma WordDoesNotParse(culture: Culture, s: string)
    requires WellFormed(culture) && WordRun(culture, s)
    ensures TryParse(s).None? && !AllAscii(s)
  {
    assert !AsciiDigit(s[0]);
  }

  lemma PartAntisymmetric(culture: Culture, a: string, b: string)
    ensures ComparePart(culture, a, b) < 0 <==> ComparePart(culture, b, a) > 0
    ensures ComparePart(culture, a, b) == 0 <==> ComparePart(culture, b, a) == 0
  {
  }

  /** On good parts the comparison is a total preorder: numbers by value, words by collation, and
      each word on one side of all numbers. */
  lemma PartTransitive(culture: Culture, a: string, b: string, c: string)
    requires WellFormed(culture) && GoodPart(culture, a) && GoodPart(culture, b) && GoodPart(culture, c)
    requires ComparePart(culture, a, b) <= 0 && ComparePart(culture, b, c) <= 0
    ensures ComparePart(culture, a, c) <= 0
    ensures ComparePart(culture, a, c) == 0 ==> ComparePart(culture, a, b) == 0 && ComparePart(culture, b, c) == 0
  {
    if WordRun(culture, a) {
      WordDoesNotParse(culture, a);
      assert Separates(culture, a);
    }
    if WordRun(culture, b) {
      WordDoesNotParse(culture, b);
      assert Separates(culture, b);
    }
    if WordRun(culture, c) {
      WordDoesNotParse(culture, c);
      assert Separates(culture, c);
    }
  }

  predicate GoodParts(culture: Culture, s: seq<string>) {
    forall i :: 0 <= i < |s| ==> GoodPart(culture, s[i])
  }

  lemma {:induction false} PartsAntisymmetric(culture: Culture, a: seq<string>, b: seq<string>)
    ensures CompareParts(culture, a, b) < 0 <==> CompareParts(culture, b, a) > 0
    ensures CompareParts(culture, a, b) == 0 <==> CompareParts(culture, b, a) == 0
  {
    if |a| > 0 && |b| > 0 {
      PartAntisymmetric(culture, a[0], b[0]);
      PartsAntisymmetric(culture, a[1..], b[1..]);
    }
  }

  lemma {:induction false} PartsTransitive(culture: Culture, a: seq<string>, b: seq<string>, c: seq<string>)
    requires WellFormed(culture) && GoodParts(culture, a) && GoodParts(culture, b) && GoodParts(culture, c)
    requires CompareParts(culture, a, b) <= 0 && CompareParts(culture, b, c) <= 0
    ensures CompareParts(culture, a, c) <= 0
    ensures CompareParts(culture, a, c) == 0 ==> CompareParts(culture, a, b) == 0 && CompareParts(culture, b, c) == 0
  {
    if |a| > 0 && |b| > 0 && |c| > 0 {
      PartTransitive(culture, a[0], b[0], c[0]);
      if ComparePart(culture, a[0], c[0]) == 0 {
        PartsTransitive(culture, a[1..], b[1..], c[1..]);
      }
    }
  }

  lemma DomainParts(culture: Culture, bound: nat, name: string)
    requires InDomain(culture, bound, name) && bound <= LONG_LIMIT
    ensures GoodParts(culture, NameParts(culture, name))
  {
  }

  lemma NaturalTransitive(culture: Culture, a: string, b: string, c: string)
    requires WellFormed(culture)
    requires GoodParts(culture, NameParts(culture, a)) && GoodParts(culture, NameParts(culture, b))
    requires GoodParts(culture, NameParts(culture, c))
    requires Natural(culture, a, b) <= 0 && Natural(culture, b, c) <= 0
    ensures Natural(culture, a, c) <= 0
  {
    PartsTransitive(culture, NameParts(culture, a), NameParts(culture, b), NameParts(culture, c));
    if CompareParts(culture, NameParts(culture, a), NameParts(culture, c)) == 0 {
      OrdinalTransitive(a, b, c);
    }
  }

  lemma NaturalAntisymmetric(culture: Culture, a: string, b: string)
    ensures Natural(culture, a, b) == 0 ==> a == b
    ensures Natural(culture, a, a) == 0
    ensures Natural(culture, a, b) < 0 <==> Natural(culture, b, a) > 0
  {
    PartsAntisymmetric(culture, NameParts(culture, a), NameParts(culture, b));
    PartsAntisymmetric(culture, NameParts(culture, a), NameParts(culture, a));
    OrdinalZero(a, b);
    OrdinalZero(a, a);
    OrdinalAntisymmetric(a, b);
  }

  lemma TotalBelowLong(culture: Culture, bound: nat)
    requires WellFormed(culture) && bound <= LONG_LIMIT
    ensures TotalBelow(culture, bound)
  {
    forall a, b | InDomain(culture, bound, a) && InDomain(culture, bound, b)
      ensures Natural(culture, a, b) == 0 <==> a == b
      ensures Natural(culture, a, b) < 0 <==> Natural(culture, b, a) > 0
    {
      NaturalAntisymmetric(culture, a, b);
      NaturalAntisymmetric(culture, a, a);
    }
    forall a, b, c | InDomain(culture, bound, a) && InDomain(culture, bound, b) && InDomain(culture, bound, c)
                     && Natural(culture, a, b) <= 0 && Natural(culture, b, c) <= 0
      ensures Natural(culture, a, c) <= 0
    {
      DomainParts(culture, bound, a);
      DomainParts(culture, bound, b);
      DomainParts(culture, bound, c);
      NaturalTransitive(culture, a, b, c);
    }
  }

  /* ---------- where it is not ---------- */

  const SMALL := Digits(93)
  const LARGE := Digits(100)
  const HUGE := Digits(LONG_LIMIT)

  /** Collation looks at the first digit first. */
  predicate CollatesDigits(culture: Culture) {
    culture.key(LARGE) < culture.key(HUGE) < culture.key(SMALL)
  }

  lemma DigitRunIsOnePart(culture: Culture, s: string)
    requires forall c :: AsciiDigit(c) ==> culture.isDigit(c)
    requires |s| > 0 && AllAscii(s)
    ensures Parts(culture, s) == [s]
  {
    var n := RunLength(culture, s, culture.isDigit(s[0]));
    assert forall i :: 0 <= i < |s| ==> AsciiDigit(s[i]);
    assert s[..n] == s && s[n..] == "";
  }

  lemma ValueAppend(s: string, c: char)
    requires AllAscii(s) && AsciiDigit(c)
    ensures AllAscii(s + [c]) && Value(s + [c]) == 10 * Value(s) + (c as int - '0' as int)
  {
    assert (s + [c])[..|s|] == s;
  }

  lemma {:induction false} ValueOfDigits(n: nat)
    ensures AllAscii(Digits(n)) && Value(Digits(n)) == n
  {
    if n < 10 {
      ValueAppend("", Digit(n));
      assert "" + [Digit(n)] == Digits(n);
    } else {
      ValueOfDigits(n / 10);
      ValueAppend(Digits(n / 10), Digit(n % 10));
    }
  }

  lemma NumberParts(culture: Culture, n: nat)
    requires WellFormed(culture)
    ensures NameParts(culture, Digits(n)) == [Digits(n)]
    ensures TryParse(Digits(n)) == if n < LONG_LIMIT then Some(n) else None
    ensures forall bound :: n < bound ==> InDomain(culture, bound, Digits(n))
  {
    ValueOfDigits(n);
    DigitRunIsOnePart(culture, Digits(n));
  }

  /** 93 precedes 100 as a number, 100 precedes 9223372036854775808 as text, which precedes 93. */
  lemma NaturalCycle(culture: Culture)
    requires WellFormed(culture) && CollatesDigits(culture)
    ensures Natural(culture, SMALL, LARGE) < 0
    ensures Natural(culture, LARGE, HUGE) < 0
    ensures Natural(culture, HUGE, SMALL) < 0
  {
    NumberParts(culture, 93);
    NumberParts(culture, 100);
    NumberParts(culture, LONG_LIMIT);
  }

  /** Names whose digit runs stay below a bound are totally ordered exactly when every such run
      fits a signed 64-bit integer. */
  lemma NaturalOrderExactly(culture: Culture, bound: nat)
    requires WellFormed(culture) && CollatesDigits(culture)
    ensures TotalBelow(culture, bound) <==> bound <= LONG_LIMIT
  {
    if bound <= LONG_LIMIT {
      TotalBelowLong(culture, bound);
    } else {
      NaturalCycle(culture);
      NumberParts(culture, 93);
      NumberParts(culture, 100);
      NumberParts(culture, LONG_LIMIT);
      NaturalAntisymmetric(culture, HUGE, SMALL);
      assert !(Natural(culture, SMALL, HUGE) <= 0);
    }
  }

  /* ---------- the assumptions can be met ---------- */

  function FirstTwoDigits(n: nat): nat {
    if n < 100 then n else FirstTwoDigits(n / 10)
  }

  const SAMPLE := Culture(
    (s: string) => s,
    AsciiDigit,
    (s: string) => if |s| > 0 && AllAscii(s) then FirstTwoDigits(Value(s)) as real else -1.0)

  lemma HugeStartsWith92()
    ensures FirstTwoDigits(LONG_LIMIT) == 92
  {
    assert FirstTwoDigits(9223) == 92;
    assert FirstTwoDigits(922337) == 92;
    assert FirstTwoDigits(92233720) == 92;
    assert FirstTwoDigits(9223372036) == 92;
    assert FirstTwoDigits(922337203685) == 92;
    assert FirstTwoDigits(92233720368547) == 92;
    assert FirstTwoDigits(9223372036854775) == 92;
    assert FirstTwoDigits(922337203685477580) == 92;
    assert FirstTwoDigits(9223372036854775808) == 92;
  }

  /** A culture that puts words first and collates numbers by their leading digits. */
  lemma SampleCulture()
    ensures WellFormed(SAMPLE) && CollatesDigits(SAMPLE)
  {
    forall word | WordRun(SAMPLE, word) ensures Separates(SAMPLE, word) {
      assert !AsciiDigit(word[0]);
      assert SAMPLE.key(word) == -1.0;
    }
    ValueOfDigits(93);
    ValueOfDigits(100);
    ValueOfDigits(LONG_LIMIT);
    HugeStartsWith92();
  }
}
