/** The content fingerprint of a catalogue.  SHA-256 is treated as injective, so a fingerprint is
    represented by the text that is hashed. */
module Fingerprint {
  import opened Text
  import opened Ordering
  import opened Presentation
  import opened Publisher
  import opened SubscriptionCodec

  function Once(s: seq<string>): seq<string> {
    if |s| == 0 then []
    else
      var rest := Once(s[..|s| - 1]);
      if s[|s| - 1] in s[..|s| - 1] then rest else rest + [s[|s| - 1]]
  }

  function IdentitiesOf(v: View, links: seq<string>): (r: seq<string>)
    ensures |r| == |links| && forall i :: 0 <= i < |links| ==> r[i] == v.identity(links[i])
  {
    seq(|links|, i requires 0 <= i < |links| => v.identity(links[i]))
  }

  const BY_CHARACTER: (string, string) -> int := (a: string, b: string) => Ordinal(a, b)

  function ContentText(v: View, links: seq<string>): string {
    Joined(Sort(Once(IdentitiesOf(v, links)), BY_CHARACTER))
  }

  lemma {:induction false} OnceElements(s: seq<string>)
    ensures Distinct(Once(s)) && forall x :: x in Once(s) <==> x in s
  {
    if |s| > 0 {
      OnceElements(s[..|s| - 1]);
      assert s == s[..|s| - 1] + [s[|s| - 1]];
    }
  }

  lemma OrdinalIsStrict(domain: set<string>)
    ensures StrictOrder(BY_CHARACTER, domain)
  {
    forall a, b ensures (BY_CHARACTER(a, b) == 0 <==> a == b) && (BY_CHARACTER(a, b) < 0 <==> BY_CHARACTER(b, a) > 0) {
      OrdinalZero(a, b);
      OrdinalAntisymmetric(a, b);
    }
    forall a, b, c | BY_CHARACTER(a, b) <= 0 && BY_CHARACTER(b, c) <= 0 ensures BY_CHARACTER(a, c) <= 0 {
      OrdinalTransitive(a, b, c);
    }
  }

  /** Identities that keep to one line of the hashed text. */
  predicate OneLine(s: string) {
    s != "" && forall c :: c in s ==> !IsLineEnd(c)
  }

  predicate AllOneLine(s: seq<string>) {
    forall i :: 0 <= i < |s| ==> OneLine(s[i])
  }

  lemma {:induction false} JoinedLines(s: seq<string>)
    requires AllOneLine(s) && |s| > 0
    ensures Pieces(Joined(s)) == s && Joined(s) != ""
  {
    assert OneLine(s[0]);
    PiecesOfLine(s[0], Joined(s[1..]));
    if |s| > 1 {
      JoinedLines(s[1..]);
    }
  }

  lemma JoinedInjective(s: seq<string>, t: seq<string>)
    requires AllOneLine(s) && AllOneLine(t) && Joined(s) == Joined(t)
    ensures s == t
  {
    if |s| > 0 {
      JoinedLines(s);
    }
    if |t| > 0 {
      JoinedLines(t);
    }
  }

  lemma IdentitiesOnce(v: View, links: seq<string>)
    ensures
      var once := Once(IdentitiesOf(v, links));
      && Distinct(once)
      && Elements(once) == Identities(v, links)
      && Elements(Sort(once, BY_CHARACTER)) == Identities(v, links)
  {
    var ids := IdentitiesOf(v, links);
    OnceElements(ids);
    SortElements(Once(ids), BY_CHARACTER);
    forall x ensures x in Elements(Once(ids)) <==> x in Identities(v, links) {
      if x in Elements(Once(ids)) {
        assert x in Once(ids) && x in ids;
        var i :| 0 <= i < |ids| && ids[i] == x;
        assert links[i] in Elements(links);
      }
      if x in Identities(v, links) {
        var y :| y in Elements(links) && v.identity(y) == x;
        var i :| 0 <= i < |links| && links[i] == y;
        assert ids[i] == x;
        assert x in Once(ids);
      }
    }
  }

  lemma OneLineElements(s: seq<string>)
    requires forall x :: x in Elements(s) ==> OneLine(x)
    ensures AllOneLine(s)
  {
    forall i | 0 <= i < |s| ensures OneLine(s[i]) {
      assert s[i] in Elements(s);
    }
  }

  /** Two catalogues have the same content fingerprint if and only if they offer the same technical
      identities, whatever their names, order and repetitions. */
  lemma ContentMeansIdentities(v: View, a: seq<string>, b: seq<string>)
    requires forall x :: x in Identities(v, a) + Identities(v, b) ==> OneLine(x)
    ensures ContentText(v, a) == ContentText(v, b) <==> Identities(v, a) == Identities(v, b)
  {
    var s, t := Once(IdentitiesOf(v, a)), Once(IdentitiesOf(v, b));
    IdentitiesOnce(v, a);
    IdentitiesOnce(v, b);
    if ContentText(v, a) == ContentText(v, b) {
      OneLineElements(Sort(s, BY_CHARACTER));
      OneLineElements(Sort(t, BY_CHARACTER));
      JoinedInjective(Sort(s, BY_CHARACTER), Sort(t, BY_CHARACTER));
    }
    if Identities(v, a) == Identities(v, b) {
      OrdinalIsStrict(Elements(s));
      SortIgnoresOrder(s, t, BY_CHARACTER, Elements(s));
    }
  }
}
