/** Base64 (sections 4 and 5 of RFC 4648) and UTF-8. */
module Base64 {
  import opened Text
  import opened Cidr

  type Sextet = v: int | 0 <= v < 64

  function Letter(v: Sextet): char {
    if v < 26 then 'A' + v as char
    else if v < 52 then 'a' + (v - 26) as char
    else if v < 62 then '0' + (v - 52) as char
    else if v == 62 then '+'
    else '/'
  }

  function Sextets(c: char): Option<Sextet> {
    if 'A' <= c <= 'Z' then Some(c as int - 'A' as int)
    else if 'a' <= c <= 'z' then Some(c as int - 'a' as int + 26)
    else if '0' <= c <= '9' then Some(c as int - '0' as int + 52)
    else if c == '+' then Some(62)
    else if c == '/' then Some(63)
    else None
  }

  /** Three bytes as four sextets, and back. */
  function Cut(b0: byte, b1: byte, b2: byte): (Sextet, Sextet, Sextet, Sextet) {
    (b0 / 4, b0 % 4 * 16 + b1 / 16, b1 % 16 * 4 + b2 / 64, b2 % 64)
  }

  function Join(v: (Sextet, Sextet, Sextet, Sextet)): (byte, byte, byte) {
    (v.0 * 4 + v.1 / 16, v.1 % 16 * 16 + v.2 / 4, v.2 % 4 * 64 + v.3)
  }

  function Letters(v: (Sextet, Sextet, Sextet, Sextet)): (s: string)
    ensures |s| == 4
  {
    [Letter(v.0), Letter(v.1), Letter(v.2), Letter(v.3)]
  }

  function EncodeGroup(b0: byte, b1: byte, b2: byte): (s: string)
    ensures |s| == 4
  {
    Letters(Cut(b0, b1, b2))
  }

  function DecodeGroup(s: string): Option<(byte, byte, byte)>
    requires |s| == 4
  {
    var v0, v1, v2, v3 := Sextets(s[0]), Sextets(s[1]), Sextets(s[2]), Sextets(s[3]);
    if v0.None? || v1.None? || v2.None? || v3.None? then None
    else Some(Join((v0.value, v1.value, v2.value, v3.value)))
  }

  /** Groups of three bytes as four letters; the last group is filled with zeros and what does not
      carry a byte of it is replaced by padding. */
  function Encode(b: seq<byte>): string {
    if |b| == 0 then ""
    else if |b| == 1 then EncodeGroup(b[0], 0, 0)[..2] + "=="
    else if |b| == 2 then EncodeGroup(b[0], b[1], 0)[..3] + "="
    else EncodeGroup(b[0], b[1], b[2]) + Encode(b[3..])
  }

  /** Whole groups of four; padding only closes the last. */
  function Decode(s: string): Option<seq<byte>> {
    if |s| == 0 then Some([])
    else if |s| < 4 then None
    else if |s| == 4 && s[2] == '=' && s[3] == '=' then
      var g := DecodeGroup(s[..2] + "AA");
      if g.None? then None else Some([g.value.0])
    else if |s| == 4 && s[3] == '=' then
      var g := DecodeGroup(s[..3] + "A");
      if g.None? then None else Some([g.value.0, g.value.1])
    else
      var g, rest := DecodeGroup(s[..4]), Decode(s[4..]);
      if g.None? || rest.None? then None
      else Some([g.value.0, g.value.1, g.value.2] + rest.value)
  }

  lemma LetterDecodes(v: Sextet)
    ensures Sextets(Letter(v)) == Some(v) && Letter(v) != '='
  {
  }

  lemma Regroup(b0: byte, b1: byte, b2: byte)
    ensures Join(Cut(b0, b1, b2)) == (b0, b1, b2)
    ensures b2 == 0 ==> Cut(b0, b1, b2).3 == 0
    ensures b1 == 0 && b2 == 0 ==> Cut(b0, b1, b2).2 == 0
  {
  }

  lemma LettersDecode(v: (Sextet, Sextet, Sextet, Sextet))
    ensures DecodeGroup(Letters(v)) == Some(Join(v))
    ensures forall i :: 0 <= i < 4 ==> Sextets(Letters(v)[i]).Some? && Letters(v)[i] != '='
    ensures v.3 == 0 ==> Letters(v)[..3] + "A" == Letters(v)
    ensures v.2 == 0 && v.3 == 0 ==> Letters(v)[..2] + "AA" == Letters(v)
  {
    LetterDecodes(v.0);
    LetterDecodes(v.1);
    LetterDecodes(v.2);
    LetterDecodes(v.3);
  }

  /** A group decodes to the bytes it encodes, also when its last letters are only filling. */
  lemma GroupRoundTrip(b0: byte, b1: byte, b2: byte)
    ensures
      var s := EncodeGroup(b0, b1, b2);
      && DecodeGroup(s) == Some((b0, b1, b2))
      && (forall i :: 0 <= i < 4 ==> Sextets(s[i]).Some? && s[i] != '=')
      && (b2 == 0 ==> s[..3] + "A" == s)
      && (b1 == 0 && b2 == 0 ==> s[..2] + "AA" == s)
  {
    Regroup(b0, b1, b2);
    LettersDecode(Cut(b0, b1, b2));
  }

  lemma LastOne(s: string, b0: byte)
    requires |s| == 4 && s[..2] + "AA" == s && DecodeGroup(s) == Some((b0, 0, 0))
    ensures Decode(s[..2] + "==") == Some([b0])
  {
    assert (s[..2] + "==")[..2] + "AA" == s;
  }

  lemma LastTwo(s: string, b0: byte, b1: byte)
    requires |s| == 4 && s[..3] + "A" == s && s[2] != '=' && DecodeGroup(s) == Some((b0, b1, 0))
    ensures Decode(s[..3] + "=") == Some([b0, b1])
  {
    assert (s[..3] + "=")[..3] + "A" == s;
  }

  /** Decoding inverts encoding. */
  lemma {:induction false} RoundTrip(b: seq<byte>)
    ensures Decode(Encode(b)) == Some(b)
  {
    if |b| == 1 {
      GroupRoundTrip(b[0], 0, 0);
      LastOne(EncodeGroup(b[0], 0, 0), b[0]);
      assert b == [b[0]];
    } else if |b| == 2 {
      GroupRoundTrip(b[0], b[1], 0);
      LastTwo(EncodeGroup(b[0], b[1], 0), b[0], b[1]);
      assert b == [b[0], b[1]];
    } else if |b| > 2 {
      GroupRoundTrip(b[0], b[1], b[2]);
      RoundTrip(b[3..]);
      AppendGroup(EncodeGroup(b[0], b[1], b[2]), Encode(b[3..]));
      assert b == [b[0], b[1], b[2]] + b[3..];
    }
  }

  /** A group without padding in front of decodable text. */
  lemma AppendGroup(group: string, rest: string)
    requires |group| == 4 && group[2] != '=' && group[3] != '='
    requires DecodeGroup(group).Some? && Decode(rest).Some?
    ensures
      var g := DecodeGroup(group).value;
      Decode(group + rest) == Some([g.0, g.1, g.2] + Decode(rest).value)
  {
    assert (group + rest)[..4] == group && (group + rest)[4..] == rest;
  }

  predicate Standard(c: char) {
    Sextets(c).Some? || c == '='
  }

  lemma {:induction false} EncodeShape(b: seq<byte>)
    ensures |Encode(b)| % 4 == 0
    ensures forall c | c in Encode(b) :: Standard(c)
  {
    EncodeCore(b);
    forall i | 0 <= i < |Encode(b)| ensures Standard(Encode(b)[i]) {
    }
  }

  /* ---------- padding and alphabets ---------- */

  function Repeat(c: char, n: nat): (s: string)
    ensures |s| == n && forall i :: 0 <= i < n ==> s[i] == c
  {
    seq(n, _ => c)
  }

  function StripPadding(s: string): (r: string)
    ensures |r| <= |s|
  {
    if |s| > 0 && s[|s| - 1] == '=' then StripPadding(s[..|s| - 1]) else s
  }

  function Pad(s: string): string {
    if |s| % 4 == 0 then s else s + Repeat('=', 4 - |s| % 4)
  }

  function Map(s: string, f: char -> char): (r: string)
    ensures |r| == |s| && forall i :: 0 <= i < |s| ==> r[i] == f(s[i])
  {
    seq(|s|, i requires 0 <= i < |s| => f(s[i]))
  }

  function ToUrl(c: char): char {
    if c == '+' then '-' else if c == '/' then '_' else c
  }

  function FromUrl(c: char): char {
    if c == '-' then '+' else if c == '_' then '/' else c
  }

  lemma MapBack(s: string)
    requires forall c | c in s :: Standard(c)
    ensures Map(Map(s, ToUrl), FromUrl) == s
  {
    forall i | 0 <= i < |s| ensures FromUrl(ToUrl(s[i])) == s[i] {
      assert s[i] in s;
    }
  }

  /** The unpadded text leaves one to three places of its last group free, or none. */
  lemma {:induction false} PaddingLength(b: seq<byte>)
    ensures
      var e := Encode(b);
      var core := StripPadding(e);
      |e| - |core| < 3 && e == core + Repeat('=', |e| - |core|)
      && forall c | c in core :: Sextets(c).Some?
  {
    EncodeCore(b);
    var e := Encode(b);
    var k := Padding(|b|);
    StripExactly(e[..|e| - k], k);
    assert e == e[..|e| - k] + Repeat('=', k);
  }

  /** Letters, then the padding that the length leaves. */
  predicate Shape(e: string, padding: nat) {
    padding <= |e| && |e| % 4 == 0
    && (forall i :: 0 <= i < |e| - padding ==> Sextets(e[i]).Some?)
    && (forall i :: |e| - padding <= i < |e| ==> e[i] == '=')
  }

  lemma ShapeAppend(group: string, e: string, padding: nat)
    requires |group| == 4 && (forall i :: 0 <= i < 4 ==> Sextets(group[i]).Some?) && Shape(e, padding)
    ensures Shape(group + e, padding)
  {
  }

  function Padding(length: nat): (k: nat)
    ensures k < 3
  {
    if length < 3 then (if length == 0 then 0 else 3 - length) else Padding(length - 3)
  }

  lemma ShapeCut(group: string, k: nat)
    requires |group| == 4 && (forall i :: 0 <= i < 4 ==> Sextets(group[i]).Some?) && k < 3
    ensures Shape(group[..4 - k] + Repeat('=', k), k)
  {
  }

  lemma {:induction false} EncodeCore(b: seq<byte>)
    ensures Shape(Encode(b), Padding(|b|))
  {
    if |b| == 1 {
      GroupRoundTrip(b[0], 0, 0);
      ShapeCut(EncodeGroup(b[0], 0, 0), 2);
      assert Repeat('=', 2) == "==";
    } else if |b| == 2 {
      GroupRoundTrip(b[0], b[1], 0);
      ShapeCut(EncodeGroup(b[0], b[1], 0), 1);
      assert Repeat('=', 1) == "=";
    } else if |b| > 2 {
      GroupRoundTrip(b[0], b[1], b[2]);
      EncodeCore(b[3..]);
      ShapeAppend(EncodeGroup(b[0], b[1], b[2]), Encode(b[3..]), Padding(|b|));
    }
  }

  lemma {:induction false} StripExactly(core: string, k: nat)
    requires forall c | c in core :: Sextets(c).Some?
    ensures StripPadding(core + Repeat('=', k)) == core
  {
    var s := core + Repeat('=', k);
    if k == 0 {
      assert s == core;
      if |s| > 0 {
        assert s[|s| - 1] in core;
      }
    } else {
      assert s[..|s| - 1] == core + Repeat('=', k - 1);
      StripExactly(core, k - 1);
    }
  }

  lemma PadCore(core: string, d: nat, k: nat)
    requires (|core| + d) % 4 == 0 && d < 4 && k <= d
    ensures Pad(core + Repeat('=', k)) == core + Repeat('=', d)
  {
    var s := core + Repeat('=', k);
    if k < d {
      assert |s| % 4 == 4 - (d - k);
      RepeatAppend('=', k, d - k);
      assert s + Repeat('=', d - k) == core + (Repeat('=', k) + Repeat('=', d - k));
    }
  }

  /** Padding restores whatever part of the padding was dropped. */
  lemma PadRestores(b: seq<byte>, k: nat)
    requires k <= |Encode(b)| - |StripPadding(Encode(b))|
    ensures Pad(StripPadding(Encode(b)) + Repeat('=', k)) == Encode(b)
  {
    EncodeShape(b);
    PaddingLength(b);
    PadCore(StripPadding(Encode(b)), |Encode(b)| - |StripPadding(Encode(b))|, k);
  }

  lemma RepeatAppend(c: char, m: nat, n: nat)
    ensures Repeat(c, m) + Repeat(c, n) == Repeat(c, m + n)
  {
  }

  /** The URL-safe, unpadded alphabet of section 5. */
  function EncodeUrl(b: seq<byte>): string {
    StripPadding(Map(Encode(b), ToUrl))
  }

  function Filled(group: seq<Sextet>, k: nat): Sextet {
    if k < |group| then group[k] else 0
  }

  /** The bytes that the letters of a group, complete or not, have yielded: one for each letter after
      the first. */
  function Emit(group: seq<Sextet>): seq<byte>
    requires |group| <= 4
  {
    var bytes := Join((Filled(group, 0), Filled(group, 1), Filled(group, 2), Filled(group, 3)));
    [bytes.0, bytes.1, bytes.2][..if |group| == 0 then 0 else |group| - 1]
  }

  /** Python's binascii.a2b_base64 in its lenient mode: characters outside the alphabet are discarded,
      a complete padding ends the text, and a group cut short without it is an error. */
  function Scan(s: string, group: seq<Sextet>, pads: nat): Option<seq<byte>>
    requires |group| < 4
  {
    if |s| == 0 then (if |group| == 0 then Some([]) else None)
    else if s[0] == '=' then
      if |group| < 2 then Scan(s[1..], group, pads)
      else if |group| + pads + 1 >= 4 then Some(Emit(group))
      else Scan(s[1..], group, pads + 1)
    else
      var v := Sextets(s[0]);
      if v.None? then Scan(s[1..], group, pads)
      else if |group| < 3 then Scan(s[1..], group + [v.value], 0)
      else
        var rest := Scan(s[1..], [], 0);
        if rest.None? then None else Some(Emit(group + [v.value]) + rest.value)
  }

  predicate Ascii(s: string) {
    forall c | c in s :: c < '\U{80}'
  }

  function DecodeUrl(s: string): Option<seq<byte>> {
    if Ascii(s) then Scan(Map(Pad(s), FromUrl), [], 0) else None
  }

  lemma ScanLetter(s: string, group: seq<Sextet>, pads: nat)
    requires |s| > 0 && Sextets(s[0]).Some? && |group| < 3
    ensures Scan(s, group, pads) == Scan(s[1..], group + [Sextets(s[0]).value], 0)
  {
  }

  lemma ScanFourth(s: string, group: seq<Sextet>)
    requires |s| > 0 && Sextets(s[0]).Some? && |group| == 3 && Scan(s[1..], [], 0).Some?
    ensures Scan(s, group, 0) == Some(Emit(group + [Sextets(s[0]).value]) + Scan(s[1..], [], 0).value)
  {
  }

  /** The values of four letters. */
  function Values(letters: string): seq<Sextet>
    requires |letters| == 4 && forall i :: 0 <= i < 4 ==> Sextets(letters[i]).Some?
  {
    [Sextets(letters[0]).value, Sextets(letters[1]).value, Sextets(letters[2]).value, Sextets(letters[3]).value]
  }

  /** Scanning the first letters of a group only collects them. */
  lemma ScanPrefix(letters: string, rest: string, n: nat)
    requires |letters| == 4 && (forall i :: 0 <= i < 4 ==> Sextets(letters[i]).Some?) && n < 4
    ensures Scan(letters[..n] + rest, [], 0) == Scan(rest, Values(letters)[..n], 0)
    decreases n
  {
    if n == 0 {
      assert letters[..n] + rest == rest && Values(letters)[..0] == [];
    } else {
      var tail := [letters[n - 1]] + rest;
      assert letters[..n] + rest == letters[..n - 1] + tail;
      ScanPrefix(letters, tail, n - 1);
      ScanLetter(tail, Values(letters)[..n - 1], 0);
      assert tail[1..] == rest && Values(letters)[..n - 1] + [Values(letters)[n - 1]] == Values(letters)[..n];
    }
  }

  /** A whole group of letters, then the rest. */
  lemma ScanGroup(letters: string, rest: string)
    requires |letters| == 4 && forall i :: 0 <= i < 4 ==> Sextets(letters[i]).Some?
    requires Scan(rest, [], 0).Some?
    ensures
      var g := DecodeGroup(letters).value;
      Scan(letters + rest, [], 0) == Some([g.0, g.1, g.2] + Scan(rest, [], 0).value)
  {
    var tail := [letters[3]] + rest;
    ScanPrefix(letters, tail, 3);
    ScanFourth(tail, Values(letters)[..3]);
    assert letters[..3] + tail == letters + rest && tail[1..] == rest;
    assert Values(letters)[..3] + [Values(letters)[3]] == Values(letters);
    var g := DecodeGroup(letters).value;
    assert Emit(Values(letters)) == [g.0, g.1, g.2][..3] == [g.0, g.1, g.2];
  }

  /** The first letters of a group, closed by padding. */
  lemma ScanPadded(letters: string, n: nat)
    requires 2 <= n < 4 && |letters| == 4 && forall i :: 0 <= i < 4 ==> Sextets(letters[i]).Some?
    ensures
      var g := DecodeGroup(letters).value;
      Scan(letters[..n] + Repeat('=', 4 - n), [], 0) == Some([g.0, g.1][..n - 1])
  {
    var pad := Repeat('=', 4 - n);
    var group := Values(letters)[..n];
    ScanPrefix(letters, pad, n);
    if n == 2 {
      assert pad[1..][0] == '=';
      assert Scan(pad, group, 0) == Scan(pad[1..], group, 1);
    }
    assert Emit(group) == [DecodeGroup(letters).value.0, DecodeGroup(letters).value.1][..n - 1];
  }

  lemma ScanShort(b: seq<byte>)
    requires 1 <= |b| <= 2
    ensures Scan(Encode(b), [], 0) == Some(b)
  {
    var second := if |b| == 2 then b[1] else 0;
    var s := EncodeGroup(b[0], second, 0);
    GroupRoundTrip(b[0], second, 0);
    ScanPadded(s, |b| + 1);
    assert Encode(b) == s[..|b| + 1] + Repeat('=', 3 - |b|);
    assert [b[0], second][..|b|] == b;
  }

  /** The lenient scan inverts encoding too. */
  lemma {:induction false} ScanRoundTrip(b: seq<byte>)
    ensures Scan(Encode(b), [], 0) == Some(b)
  {
    if 1 <= |b| <= 2 {
      ScanShort(b);
    } else if |b| > 2 {
      GroupRoundTrip(b[0], b[1], b[2]);
      ScanRoundTrip(b[3..]);
      ScanGroup(EncodeGroup(b[0], b[1], b[2]), Encode(b[3..]));
      assert b == [b[0], b[1], b[2]] + b[3..];
    }
  }

  lemma {:induction false} StripMap(s: string)
    ensures StripPadding(Map(s, ToUrl)) == Map(StripPadding(s), ToUrl)
  {
    if |s| > 0 && s[|s| - 1] == '=' {
      assert Map(s, ToUrl)[..|s| - 1] == Map(s[..|s| - 1], ToUrl);
      StripMap(s[..|s| - 1]);
    }
  }

  /** The letters before the padding survive the URL-safe alphabet, which has no dot. */
  lemma UrlCore(core: string)
    requires forall c | c in core :: Sextets(c).Some?
    ensures Map(Pad(Map(core, ToUrl)), FromUrl) == Pad(core)
    ensures '.' !in Map(core, ToUrl) && Ascii(Map(core, ToUrl))
  {
    forall i | 0 <= i < |core|
      ensures FromUrl(ToUrl(core[i])) == core[i] && ToUrl(core[i]) != '.' && ToUrl(core[i]) < '\U{80}'
    {
      assert core[i] in core;
    }
  }

  lemma UrlRoundTrip(b: seq<byte>)
    ensures DecodeUrl(EncodeUrl(b)) == Some(b)
    ensures '.' !in EncodeUrl(b)
  {
    var core := StripPadding(Encode(b));
    StripMap(Encode(b));
    PaddingLength(b);
    UrlCore(core);
    PadRestores(b, 0);
    assert core + Repeat('=', 0) == core;
    ScanRoundTrip(b);
  }

  /* ---------- UTF-8 ---------- */

  function EncodeChar(c: char): seq<byte> {
    var n := c as int;
    if n < 0x80 then [n]
    else if n < 0x800 then [0xC0 + n / 64, 0x80 + n % 64]
    else if n < 0x1_0000 then [0xE0 + n / 4096, 0x80 + n / 64 % 64, 0x80 + n % 64]
    else [0xF0 + n / 262144, 0x80 + n / 4096 % 64, 0x80 + n / 64 % 64, 0x80 + n % 64]
  }

  function EncodeUtf8(s: string): seq<byte> {
    if |s| == 0 then [] else EncodeChar(s[0]) + EncodeUtf8(s[1..])
  }

  predicate Trailing(b: byte) {
    0x80 <= b < 0xC0
  }

  /** What a byte contributes once its marker is taken off. */
  function Payload(b: byte, marker: byte): int {
    b as int - marker as int
  }

  predicate Scalar(n: int) {
    0 <= n < 0xD800 || 0xE000 <= n < 0x11_0000
  }

  /** The scalar value at the front and the number of bytes it takes, if they are well formed. */
  function FirstScalar(b: seq<byte>): (r: Option<(int, nat)>)
    requires |b| > 0
    ensures r.Some? ==> Scalar(r.value.0) && 0 < r.value.1 <= |b|
  {
    if b[0] < 0x80 then Some((b[0], 1))
    else if 0xC2 <= b[0] < 0xE0 && |b| >= 2 && Trailing(b[1]) then
      Some((Payload(b[0], 0xC0) * 64 + Payload(b[1], 0x80), 2))
    else if 0xE0 <= b[0] < 0xF0 && |b| >= 3 && Trailing(b[1]) && Trailing(b[2]) then
      var n := Payload(b[0], 0xE0) * 4096 + Payload(b[1], 0x80) * 64 + Payload(b[2], 0x80);
      if n >= 0x800 && Scalar(n) then Some((n, 3)) else None
    else if 0xF0 <= b[0] < 0xF5 && |b| >= 4 && Trailing(b[1]) && Trailing(b[2]) && Trailing(b[3]) then
      var n := Payload(b[0], 0xF0) * 262144 + Payload(b[1], 0x80) * 4096 + Payload(b[2], 0x80) * 64
               + Payload(b[3], 0x80);
      if n >= 0x1_0000 && Scalar(n) then Some((n, 4)) else None
    else None
  }

  /** Bytes that are not well formed are replaced. */
  function DecodeUtf8(b: seq<byte>): string {
    if |b| == 0 then ""
    else
      var first := FirstScalar(b);
      if first.None? then ['\U{FFFD}'] + DecodeUtf8(b[1..])
      else [first.value.0 as char] + DecodeUtf8(b[first.value.1..])
  }

  lemma CharRoundTrip(c: char, rest: seq<byte>)
    ensures FirstScalar(EncodeChar(c) + rest) == Some((c as int, |EncodeChar(c)|))
    ensures (EncodeChar(c) + rest)[|EncodeChar(c)|..] == rest
  {
    assert (EncodeChar(c) + rest)[|EncodeChar(c)|..] == rest;
    SixBitDigits(c as int);
  }

  lemma SixBitDigits(n: nat)
    ensures n / 64 * 64 + n % 64 == n
    ensures n / 4096 * 4096 + n / 64 % 64 * 64 + n % 64 == n
    ensures n / 262144 * 262144 + n / 4096 % 64 * 4096 + n / 64 % 64 * 64 + n % 64 == n
  {
    assert n / 4096 == n / 64 / 64 && n / 262144 == n / 4096 / 64;
  }

  lemma {:induction false} Utf8RoundTrip(s: string)
    ensures DecodeUtf8(EncodeUtf8(s)) == s
  {
    if |s| > 0 {
      Utf8RoundTrip(s[1..]);
      CharRoundTrip(s[0], EncodeUtf8(s[1..]));
    }
  }

  /* ---------- known encodings ---------- */

  /** Vectors of section 10 of RFC 4648, and the letters that differ in section 5. */
  lemma KnownEncodings()
    ensures Encode([0x66]) == "Zg==" && Encode([0x66, 0x6F]) == "Zm8="
    ensures Encode([0x66, 0x6F, 0x6F, 0x62, 0x61, 0x72]) == "Zm9vYmFy"
    ensures Encode([0xFB, 0xFF, 0xFE]) == "+//+" && EncodeUrl([0xFB, 0xFF, 0xFE]) == "-__-"
  {
    assert [0x66, 0x6F, 0x6F, 0x62, 0x61, 0x72][3..] == [0x62, 0x61, 0x72];
    assert EncodeGroup(0x66, 0x6F, 0x6F) == "Zm9v" && EncodeGroup(0x62, 0x61, 0x72) == "YmFy";
    assert EncodeGroup(0xFB, 0xFF, 0xFE) == "+//+";
    assert Encode([0xFB, 0xFF, 0xFE]) == "+//+" + Encode([]);
  }

  /** One character of each length. */
  lemma KnownUtf8()
    ensures EncodeUtf8("A") == [0x41] && EncodeUtf8("я") == [0xD1, 0x8F]
    ensures EncodeUtf8("€") == [0xE2, 0x82, 0xAC] && EncodeUtf8("\U{1F600}") == [0xF0, 0x9F, 0x98, 0x80]
  {
  }
}
