/** The subscription body: server links, one to a line, in Base64. */
module SubscriptionCodec {
  import opened Text
  import opened Ordering
  import opened Cidr
  import opened Base64

  function Filter(s: string, keep: char -> bool): (r: string)
    ensures |r| <= |s|
  {
    if |s| == 0 then "" else (if keep(s[0]) then [s[0]] else "") + Filter(s[1..], keep)
  }

  predicate NotBreak(c: char) {
    c != '\r' && c != '\n' && c != ' '
  }

  predicate IsLineEnd(c: char) {
    c == '\r' || c == '\n'
  }

  /** Trimmed, joined back into one line, in the standard alphabet. */
  function Unwrap(s: string): string {
    Map(Filter(Trim(s), NotBreak), FromUrl)
  }

  /** Convert.FromBase64String skips the white space it still finds. */
  function FromBase64(s: string): Option<seq<byte>> {
    Decode(Filter(s, (c: char) => NotBreak(c) && c != '\t'))
  }

  /** The pieces between line ends, empty ones included. */
  function Pieces(s: string): (r: seq<string>)
    ensures |r| > 0
  {
    if |s| == 0 then [""]
    else if IsLineEnd(s[0]) then [""] + Pieces(s[1..])
    else
      var rest := Pieces(s[1..]);
      [[s[0]] + rest[0]] + rest[1..]
  }

  /** Entries are trimmed, and empty ones are removed. */
  function Clean(pieces: seq<string>): seq<string> {
    if |pieces| == 0 then []
    else (if Trim(pieces[0]) == "" then [] else [Trim(pieces[0])]) + Clean(pieces[1..])
  }

  function DecodeServerLinks(encoded: string): Option<seq<string>> {
    var bytes := FromBase64(Pad(Unwrap(encoded)));
    if bytes.None? then None else Some(Clean(Pieces(DecodeUtf8(bytes.value))))
  }

  function Joined(links: seq<string>): string {
    if |links| == 0 then "" else if |links| == 1 then links[0] else links[0] + "\n" + Joined(links[1..])
  }

  function EncodeServerLinks(links: seq<string>): string {
    Encode(EncodeUtf8(Joined(links)))
  }

  /* ---------- trimming ---------- */

  lemma {:induction false} TrimStartShape(s: string)
    ensures |TrimStart(s)| <= |s| && TrimStart(s) == s[|s| - |TrimStart(s)|..]
    ensures |TrimStart(s)| > 0 ==> !IsSpace(TrimStart(s)[0])
  {
    if |s| > 0 && IsSpace(s[0]) {
      TrimStartShape(s[1..]);
    }
  }

  lemma {:induction false} TrimEndShape(s: string)
    ensures |TrimEnd(s)| <= |s| && TrimEnd(s) == s[..|TrimEnd(s)|]
    ensures |TrimEnd(s)| > 0 ==> !IsSpace(TrimEnd(s)[|TrimEnd(s)| - 1])
  {
    if |s| > 0 && IsSpace(s[|s| - 1]) {
      TrimEndShape(s[..|s| - 1]);
    }
  }

  predicate Trimmed(s: string) {
    |s| == 0 || (!IsSpace(s[0]) && !IsSpace(s[|s| - 1]))
  }

  lemma TrimmedUnchanged(s: string)
    requires Trimmed(s)
    ensures Trim(s) == s
  {
  }

  /** Trimming leaves a trimmed part of the string. */
  lemma TrimTrims(s: string)
    ensures Trimmed(Trim(s)) && forall c :: c in Trim(s) ==> c in s
  {
    TrimStartShape(s);
    TrimEndShape(TrimStart(s));
    assert forall c :: c in TrimStart(s) ==> c in s;
  }

  /* ---------- lines ---------- */

  /** A link that survives as an entry of its own. */
  predicate CleanLink(link: string) {
    link != "" && Trim(link) == link && forall c :: c in link ==> !IsLineEnd(c)
  }

  predicate CleanLinks(links: seq<string>) {
    forall i :: 0 <= i < |links| ==> CleanLink(links[i])
  }

  lemma {:induction false} PiecesOfLine(line: string, rest: string)
    requires forall c :: c in line ==> !IsLineEnd(c)
    ensures Pieces(line + "\n" + rest) == [line] + Pieces(rest)
    ensures Pieces(line) == [line]
  {
    if |line| == 0 {
      assert line + "\n" + rest == ['\n'] + rest;
    } else {
      assert line[0] in line;
      assert forall c :: c in line[1..] ==> c in line;
      PiecesOfLine(line[1..], rest);
      assert (line + "\n" + rest)[1..] == line[1..] + "\n" + rest;
      assert line == [line[0]] + line[1..];
    }
  }

  lemma {:induction false} LinesRoundTrip(links: seq<string>)
    requires CleanLinks(links)
    ensures Clean(Pieces(Joined(links))) == links
  {
    if |links| == 0 {
      assert Trim("") == "";
      assert Clean([""]) == [];
    } else {
      assert CleanLink(links[0]);
      PiecesOfLine(links[0], Joined(links[1..]));
      if |links| == 1 {
        assert Clean([links[0]]) == [links[0]];
      } else {
        LinesRoundTrip(links[1..]);
        assert ([links[0]] + Pieces(Joined(links[1..])))[1..] == Pieces(Joined(links[1..]));
      }
    }
  }

  lemma {:induction false} PiecesHaveNoLineEnds(s: string)
    ensures forall i :: 0 <= i < |Pieces(s)| ==> forall c :: c in Pieces(s)[i] ==> !IsLineEnd(c)
  {
    if |s| > 0 {
      PiecesHaveNoLineEnds(s[1..]);
    }
  }

  /** Whatever is decoded consists of clean links. */
  lemma {:induction false} CleanIsClean(pieces: seq<string>)
    requires forall i :: 0 <= i < |pieces| ==> forall c :: c in pieces[i] ==> !IsLineEnd(c)
    ensures CleanLinks(Clean(pieces))
  {
    if |pieces| > 0 {
      CleanIsClean(pieces[1..]);
      TrimTrims(pieces[0]);
      TrimmedUnchanged(Trim(pieces[0]));
    }
  }

  /* ---------- the encoded text ---------- */

  lemma {:induction false} FilterAll(s: string, keep: char -> bool)
    requires forall i :: 0 <= i < |s| ==> keep(s[i])
    ensures Filter(s, keep) == s
  {
    if |s| > 0 {
      FilterAll(s[1..], keep);
    }
  }

  lemma NothingSkipped(s: string)
    requires forall c :: c in s ==> Standard(c)
    ensures FromBase64(s) == Decode(s)
  {
    forall i | 0 <= i < |s| ensures NotBreak(s[i]) && s[i] != '\t' {
      assert s[i] in s;
    }
    FilterAll(s, (c: char) => NotBreak(c) && c != '\t');
  }

  /** Any text that unwraps to an encoding with all, some or none of its padding decodes as the
      encoding itself does. */
  lemma VariantsDecode(b: seq<byte>, s: string, k: nat)
    requires k <= |Encode(b)| - |StripPadding(Encode(b))|
    requires Unwrap(s) == StripPadding(Encode(b)) + Repeat('=', k)
    ensures FromBase64(Pad(Unwrap(s))) == Some(b)
  {
    PadRestores(b, k);
    EncodeShape(b);
    NothingSkipped(Encode(b));
    RoundTrip(b);
  }

  /** Line wrapping: white space that Unwrap removes, anywhere. */
  predicate Wraps(s: string, text: string) {
    Filter(Trim(s), NotBreak) == text
  }

  lemma UnwrapUnchanged(s: string)
    requires forall c :: c in s ==> Standard(c)
    ensures Unwrap(s) == s
  {
    forall i | 0 <= i < |s| ensures NotBreak(s[i]) && FromUrl(s[i]) == s[i] && !IsSpace(s[i]) {
      assert s[i] in s;
    }
    assert Trimmed(s);
    TrimmedUnchanged(s);
    FilterAll(s, NotBreak);
  }

  lemma FullPadding(b: seq<byte>)
    ensures
      var e := Encode(b);
      StripPadding(e) + Repeat('=', |e| - |StripPadding(e)|) == e
  {
    PaddingLength(b);
  }

  lemma DecodesOwnBytes(b: seq<byte>)
    ensures FromBase64(Pad(Unwrap(Encode(b)))) == Some(b)
  {
    EncodeShape(b);
    UnwrapUnchanged(Encode(b));
    NothingSkipped(Encode(b));
    RoundTrip(b);
  }

  lemma DecodesOwnLines(links: seq<string>)
    ensures DecodeServerLinks(EncodeServerLinks(links)) == Some(Clean(Pieces(Joined(links))))
  {
    DecodesOwnBytes(EncodeUtf8(Joined(links)));
    Utf8RoundTrip(Joined(links));
  }

  /** The round trip, with its exact condition: a list of links survives encoding and decoding if and
      only if every link is non-empty, trimmed and free of line ends. */
  lemma CodecRoundTrip(links: seq<string>)
    ensures DecodeServerLinks(EncodeServerLinks(links)) == Some(links) <==> CleanLinks(links)
  {
    DecodesOwnLines(links);
    if CleanLinks(links) {
      LinesRoundTrip(links);
    }
    PiecesHaveNoLineEnds(Joined(links));
    CleanIsClean(Pieces(Joined(links)));
  }

  /** URL-safe, with or without padding, and wrapped in any way: all decode alike. */
  lemma VariantsDecodeAlike(links: seq<string>, s: string)
    requires
      var e := EncodeServerLinks(links);
      Wraps(s, e) || Wraps(s, StripPadding(e)) || Wraps(s, Map(e, ToUrl)) || Wraps(s, StripPadding(Map(e, ToUrl)))
    ensures DecodeServerLinks(s) == DecodeServerLinks(EncodeServerLinks(links))
  {
    var b := EncodeUtf8(Joined(links));
    var e := Encode(b);
    var core := StripPadding(e);
    EncodeShape(b);
    PaddingLength(b);
    FullPadding(b);
    DecodesOwnBytes(b);
    StripMap(e);
    MapBack(e);
    CoreStandard(e);
    MapBack(core);
    FromUrlKeeps(e);
    FromUrlKeeps(core);
    assert core + Repeat('=', 0) == core;
    if Unwrap(s) == core {
      VariantsDecode(b, s, 0);
    } else {
      VariantsDecode(b, s, |e| - |core|);
    }
  }

  lemma {:induction false} CoreStandard(e: string)
    requires forall c :: c in e ==> Standard(c)
    ensures forall c :: c in StripPadding(e) ==> Standard(c)
  {
    if |e| > 0 && e[|e| - 1] == '=' {
      assert forall c :: c in e[..|e| - 1] ==> c in e;
      CoreStandard(e[..|e| - 1]);
    }
  }

  lemma FromUrlKeeps(s: string)
    requires forall c :: c in s ==> Standard(c)
    ensures Map(s, FromUrl) == s
  {
    forall i | 0 <= i < |s| ensures FromUrl(s[i]) == s[i] {
      assert s[i] in s;
    }
  }
}
