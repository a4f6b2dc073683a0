/** Optional values and the few string functions whose exact behaviour the proofs depend on. */
module Text {

  datatype Option<+T> = None | Some(value: T) {
    function GetOr(default: T): T {
      match this
      case Some(v) => v
      case None => default
    }
  }

  /** SQL's two-argument COALESCE. */
  function Coalesce<T>(first: Option<T>, second: Option<T>): Option<T> {
    if first.Some? then first else second
  }

  function Digit(d: nat): char
    requires d < 10
  {
    '0' + d as char
  }

  /** Decimal digits, most significant first, without leading zeros. */
  function Digits(n: nat): (s: string)
    ensures |s| > 0
    ensures forall c | c in s :: '0' <= c <= '9'
  {
    if n < 10 then [Digit(n)] else Digits(n / 10) + [Digit(n % 10)]
  }

  /** Invariant-culture integer formatting. */
  function Decimal(n: int): (s: string)
    ensures |s| > 0
    ensures forall c | c in s :: '0' <= c <= '9' || c == '-'
  {
    if n < 0 then ['-'] + Digits(-n) else Digits(n)
  }

  lemma {:induction false} DigitsInjective(m: nat, n: nat)
    requires Digits(m) == Digits(n)
    ensures m == n
  {
    var s, t := Digits(m), Digits(n);
    assert s[|s| - 1] == Digit(m % 10) && t[|t| - 1] == Digit(n % 10);
    if m >= 10 && n >= 10 {
      assert Digits(m / 10) == s[..|s| - 1] == t[..|t| - 1] == Digits(n / 10);
      DigitsInjective(m / 10, n / 10);
    }
  }

  lemma FirstCharacter(n: int)
    ensures n < 0 <==> Decimal(n)[0] == '-'
  {
    if n >= 0 {
      assert Digits(n)[0] in Digits(n);
    }
  }

  lemma DecimalInjective(m: int, n: int)
    requires Decimal(m) == Decimal(n)
    ensures m == n
  {
    var s := Decimal(m);
    if m < 0 && n < 0 {
      assert s[1..] == Digits(-m) && s[1..] == Digits(-n);
      DigitsInjective(-m, -n);
    } else {
      FirstCharacter(m);
      FirstCharacter(n);
      DigitsInjective(m, n);
    }
  }

  /** The characters that .NET's parameterless Trim removes. */
  predicate IsSpace(c: char) {
    var code := c as int;
    9 <= code <= 13 || code == 0x20 || code == 0x85 || code == 0xA0 || code == 0x1680
    || 0x2000 <= code <= 0x200A || code == 0x2028 || code == 0x2029 || code == 0x202F
    || code == 0x205F || code == 0x3000
  }

  function TrimStart(s: string): string {
    if |s| > 0 && IsSpace(s[0]) then TrimStart(s[1..]) else s
  }

  function TrimEnd(s: string): string {
    if |s| > 0 && IsSpace(s[|s| - 1]) then TrimEnd(s[..|s| - 1]) else s
  }

  function Trim(s: string): string {
    TrimEnd(TrimStart(s))
  }

  lemma LastSeparator(a: string, b: string, separator: char)
    requires separator !in b
    ensures forall i :: |a| < i < |a| + 1 + |b| ==> (a + [separator] + b)[i] != separator
  {
    var s := a + [separator] + b;
    forall i | |a| < i < |s| ensures s[i] != separator {
      assert s[i] == b[i - |a| - 1];
    }
  }

  lemma FirstSeparator(a: string, b: string, separator: char)
    requires separator !in a
    ensures forall i :: 0 <= i < |a| ==> (a + [separator] + b)[i] != separator
  {
    var s := a + [separator] + b;
    forall i | 0 <= i < |a| ensures s[i] != separator {
      assert s[i] == a[i];
    }
  }

  /** A separator that does not occur in the last field is found again from the right. */
  lemma SplitAtLast(a: string, b: string, c: string, d: string, separator: char)
    requires a + [separator] + b == c + [separator] + d
    requires separator !in b && separator !in d
    ensures a == c && b == d
  {
    var s, t := a + [separator] + b, c + [separator] + d;
    LastSeparator(a, b, separator);
    LastSeparator(c, d, separator);
    assert s[|a|] == separator && t[|c|] == separator;
    assert a == s[..|a|] && c == t[..|c|];
    assert b == s[|a| + 1..] && d == t[|c| + 1..];
  }

  /** Likewise from the left. */
  lemma SplitAtFirst(a: string, b: string, c: string, d: string, separator: char)
    requires a + [separator] + b == c + [separator] + d
    requires separator !in a && separator !in c
    ensures a == c && b == d
  {
    var s, t := a + [separator] + b, c + [separator] + d;
    FirstSeparator(a, b, separator);
    FirstSeparator(c, d, separator);
    assert s[|a|] == separator && t[|c|] == separator;
    assert a == s[..|a|] && c == t[..|c|];
    assert b == s[|a| + 1..] && d == t[|c| + 1..];
  }
}
