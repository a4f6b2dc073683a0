/** What a catalogue of server links looks like: deduplicated by technical identity, ordered and
    capped. */
module Presentation {
  import opened Text
  import opened Ordering
  import opened NaturalOrder

  /** The properties of a link the catalogue looks at.  How they are parsed from it is not part of
      this model. */
  datatype View = View(
    identity: string -> string,
    name: string -> string,
    priority: string -> int,
    protocol: string -> string,
    culture: Culture)

  /** The ordinally least link that shares an identity with x. */
  function Least(v: View, links: seq<string>, x: string): string {
    if |links| == 0 then x
    else if v.identity(links[0]) == v.identity(x) && Ordinal(links[0], x) < 0 then Least(v, links[1..], links[0])
    else Least(v, links[1..], x)
  }

  function Others(v: View, links: seq<string>, identity: string): (r: seq<string>)
    ensures |r| <= |links|
  {
    if |links| == 0 then []
    else if v.identity(links[0]) == identity then Others(v, links[1..], identity)
    else [links[0]] + Others(v, links[1..], identity)
  }

  /** One link per identity, in the order in which the identities first occur. */
  function Deduplicate(v: View, links: seq<string>): seq<string>
    decreases |links|
  {
    if |links| == 0 then []
    else [Least(v, links[1..], links[0])] + Deduplicate(v, Others(v, links[1..], v.identity(links[0])))
  }

  function CompareLinks(v: View, x: string, y: string): int {
    var name := Natural(v.culture, v.name(x), v.name(y));
    var protocol := Ordinal(v.protocol(x), v.protocol(y));
    if v.priority(x) != v.priority(y) then v.priority(x) - v.priority(y)
    else if name != 0 then name
    else if protocol != 0 then protocol
    else Ordinal(v.identity(x), v.identity(y))
  }

  function ByPresentation(v: View): (string, string) -> int {
    (x: string, y: string) => CompareLinks(v, x, y)
  }

  function Build(v: View, links: seq<string>, max: nat): seq<string> {
    Take(Sort(Deduplicate(v, links), ByPresentation(v)), max)
  }

  /* ---------- deduplication ---------- */

  /** The link that stands for its identity in a set of links. */
  ghost predicate Represents(v: View, x: string, links: set<string>) {
    x in links && forall y :: y in links && v.identity(y) == v.identity(x) ==> Ordinal(x, y) <= 0
  }

  lemma {:induction false} LeastRepresents(v: View, links: seq<string>, x: string)
    ensures Represents(v, Least(v, links, x), Elements([x] + links))
    ensures v.identity(Least(v, links, x)) == v.identity(x)
  {
    ElementsCons(x, links);
    if |links| == 0 {
      OrdinalZero(x, x);
    } else {
      assert links == [links[0]] + links[1..];
      ElementsCons(links[0], links[1..]);
      var better := v.identity(links[0]) == v.identity(x) && Ordinal(links[0], x) < 0;
      var next := if better then links[0] else x;
      LeastRepresents(v, links[1..], next);
      ElementsCons(next, links[1..]);
      var least := Least(v, links, x);
      var other := if better then x else links[0];
      assert Ordinal(least, next) <= 0;
      if v.identity(other) == v.identity(x) {
        OrdinalAntisymmetric(links[0], x);
        OrdinalTransitive(least, next, other);
      }
    }
  }

  lemma {:induction false} OthersElements(v: View, links: seq<string>, identity: string)
    ensures Elements(Others(v, links, identity)) == set x | x in Elements(links) && v.identity(x) != identity
  {
    if |links| > 0 {
      assert links == [links[0]] + links[1..];
      ElementsCons(links[0], links[1..]);
      OthersElements(v, links[1..], identity);
      ElementsCons(links[0], Others(v, links[1..], identity));
    }
  }

  lemma OrdinalLeastUnique(v: View, x: string, y: string, links: set<string>)
    requires Represents(v, x, links) && Represents(v, y, links) && v.identity(x) == v.identity(y)
    ensures x == y
  {
    OrdinalAntisymmetric(x, y);
    OrdinalZero(x, y);
  }

  /** Deduplication keeps exactly the representatives. */
  lemma {:induction false} DeduplicateElements(v: View, links: seq<string>)
    ensures forall x :: x in Elements(Deduplicate(v, links)) <==> Represents(v, x, Elements(links))
    decreases |links|
  {
    if |links| > 0 {
      var head, identity := Least(v, links[1..], links[0]), v.identity(links[0]);
      var others := Others(v, links[1..], identity);
      assert links == [links[0]] + links[1..];
      ElementsCons(links[0], links[1..]);
      LeastRepresents(v, links[1..], links[0]);
      OthersElements(v, links[1..], identity);
      DeduplicateElements(v, others);
      ElementsCons(head, Deduplicate(v, others));
      forall x ensures x in Elements(Deduplicate(v, links)) <==> Represents(v, x, Elements(links)) {
        if v.identity(x) == identity {
          if Represents(v, x, Elements(links)) {
            OrdinalLeastUnique(v, x, head, Elements(links));
          }
        } else {
          assert Represents(v, x, Elements(others)) <==> Represents(v, x, Elements(links));
        }
      }
    }
  }

  lemma {:induction false} IdentityRepresented(v: View, links: seq<string>, x: string)
    requires x in Elements(links)
    ensures exists y :: y in Elements(Deduplicate(v, links)) && v.identity(y) == v.identity(x)
    decreases |links|
  {
    var least, identity := Least(v, links[1..], links[0]), v.identity(links[0]);
    var others := Others(v, links[1..], identity);
    assert links == [links[0]] + links[1..];
    ElementsCons(links[0], links[1..]);
    ElementsCons(least, Deduplicate(v, others));
    LeastRepresents(v, links[1..], links[0]);
    if v.identity(x) == identity {
      assert least in Elements(Deduplicate(v, links));
    } else {
      OthersElements(v, links[1..], identity);
      IdentityRepresented(v, others, x);
    }
  }

  /** ... and no identity twice. */
  predicate DistinctIdentities(v: View, links: seq<string>) {
    forall i, j :: 0 <= i < j < |links| ==> v.identity(links[i]) != v.identity(links[j])
  }

  lemma {:induction false} DeduplicateDistinct(v: View, links: seq<string>)
    ensures DistinctIdentities(v, Deduplicate(v, links))
    decreases |links|
  {
    if |links| > 0 {
      var identity := v.identity(links[0]);
      var others := Others(v, links[1..], identity);
      var rest := Deduplicate(v, others);
      LeastRepresents(v, links[1..], links[0]);
      OthersElements(v, links[1..], identity);
      DeduplicateDistinct(v, others);
      DeduplicateElements(v, others);
      forall j | 0 <= j < |rest| ensures v.identity(rest[j]) != identity {
        assert rest[j] in Elements(rest);
      }
    }
  }

  lemma DistinctLinks(v: View, links: seq<string>)
    requires DistinctIdentities(v, links)
    ensures Distinct(links)
  {
    forall i, j | 0 <= i < j < |links| ensures links[i] != links[j] {
      assert v.identity(links[i]) != v.identity(links[j]);
    }
  }

  /* ---------- order ---------- */

  ghost function Representatives(v: View, links: set<string>): set<string> {
    set x | x in links && Represents(v, x, links)
  }

  /** No three representatives compare in a circle. */
  ghost predicate Orderable(v: View, links: set<string>) {
    Transitive(ByPresentation(v), Representatives(v, links))
  }

  /** Names the natural order is total on. */
  ghost predicate NamesInDomain(v: View, links: set<string>) {
    WellFormed(v.culture) && forall x :: x in links ==> InDomain(v.culture, LONG_LIMIT, v.name(x))
  }

  lemma CompareAntisymmetric(v: View, x: string, y: string)
    ensures CompareLinks(v, x, x) == 0
    ensures CompareLinks(v, x, y) == 0 ==> v.identity(x) == v.identity(y)
    ensures CompareLinks(v, x, y) < 0 <==> CompareLinks(v, y, x) > 0
  {
    NaturalAntisymmetric(v.culture, v.name(x), v.name(x));
    NaturalAntisymmetric(v.culture, v.name(x), v.name(y));
    NaturalAntisymmetric(v.culture, v.name(y), v.name(x));
    OrdinalZero(v.protocol(x), v.protocol(x));
    OrdinalZero(v.identity(x), v.identity(x));
    OrdinalZero(v.identity(x), v.identity(y));
    OrdinalAntisymmetric(v.protocol(x), v.protocol(y));
    OrdinalAntisymmetric(v.identity(x), v.identity(y));
  }

  lemma NaturalStrict(culture: Culture, a: string, b: string, c: string)
    requires WellFormed(culture)
    requires InDomain(culture, LONG_LIMIT, a) && InDomain(culture, LONG_LIMIT, b) && InDomain(culture, LONG_LIMIT, c)
    requires Natural(culture, a, b) <= 0 && Natural(culture, b, c) <= 0
    ensures Natural(culture, a, c) <= 0
    ensures Natural(culture, a, c) == 0 ==> Natural(culture, a, b) == 0 && Natural(culture, b, c) == 0
  {
    DomainParts(culture, LONG_LIMIT, a);
    DomainParts(culture, LONG_LIMIT, b);
    DomainParts(culture, LONG_LIMIT, c);
    NaturalTransitive(culture, a, b, c);
    if Natural(culture, a, c) == 0 {
      NaturalAntisymmetric(culture, a, c);
      NaturalAntisymmetric(culture, a, b);
      NaturalAntisymmetric(culture, b, a);
      NaturalAntisymmetric(culture, b, b);
    }
  }

  lemma OrdinalStrict(a: string, b: string, c: string)
    requires Ordinal(a, b) <= 0 && Ordinal(b, c) <= 0
    ensures Ordinal(a, c) <= 0
    ensures Ordinal(a, c) == 0 ==> Ordinal(a, b) == 0 && Ordinal(b, c) == 0
  {
    OrdinalTransitive(a, b, c);
    if Ordinal(a, c) == 0 {
      OrdinalZero(a, c);
      OrdinalAntisymmetric(a, b);
    }
  }

  lemma CompareTransitive(v: View, x: string, y: string, z: string)
    requires NamesInDomain(v, {x, y, z}) && CompareLinks(v, x, y) <= 0 && CompareLinks(v, y, z) <= 0
    ensures CompareLinks(v, x, z) <= 0
  {
    if v.priority(x) == v.priority(y) == v.priority(z) {
      NaturalStrict(v.culture, v.name(x), v.name(y), v.name(z));
      if Natural(v.culture, v.name(x), v.name(z)) == 0 {
        OrdinalStrict(v.protocol(x), v.protocol(y), v.protocol(z));
        if Ordinal(v.protocol(x), v.protocol(z)) == 0 {
          OrdinalStrict(v.identity(x), v.identity(y), v.identity(z));
        }
      }
    }
  }

  lemma PresentationDecisive(v: View, links: set<string>)
    ensures Decisive(ByPresentation(v), Representatives(v, links))
  {
    var compare, domain := ByPresentation(v), Representatives(v, links);
    forall x, y | x in domain && y in domain
      ensures compare(x, y) == 0 <==> x == y
      ensures compare(x, y) < 0 <==> compare(y, x) > 0
    {
      CompareAntisymmetric(v, x, y);
      if compare(x, y) == 0 {
        OrdinalLeastUnique(v, x, y, links);
      }
    }
  }

  /** Where names are in the domain of the natural order, the presentation order is strict and total. */
  lemma PresentationOrder(v: View, links: set<string>)
    requires NamesInDomain(v, links)
    ensures StrictOrder(ByPresentation(v), Representatives(v, links)) && Orderable(v, links)
  {
    var compare, domain := ByPresentation(v), Representatives(v, links);
    PresentationDecisive(v, links);
    forall x, y, z | x in domain && y in domain && z in domain && compare(x, y) <= 0 && compare(y, z) <= 0
      ensures compare(x, z) <= 0
    {
      CompareTransitive(v, x, y, z);
    }
  }

  lemma DeduplicateRepresents(v: View, links: seq<string>)
    ensures Elements(Deduplicate(v, links)) == Representatives(v, Elements(links))
    ensures Distinct(Deduplicate(v, links))
  {
    DeduplicateElements(v, links);
    DeduplicateDistinct(v, links);
    DistinctLinks(v, Deduplicate(v, links));
  }

  /** What is published depends only on which links there are, not on the order of sources, of
      links within a source, or on repetitions. */
  lemma BuildIgnoresOrder(v: View, a: seq<string>, b: seq<string>, max: nat)
    requires Elements(a) == Elements(b) && Orderable(v, Elements(a))
    ensures Build(v, a, max) == Build(v, b, max)
  {
    PresentationDecisive(v, Elements(a));
    DeduplicateRepresents(v, a);
    DeduplicateRepresents(v, b);
    SortIgnoresOrder(Deduplicate(v, a), Deduplicate(v, b), ByPresentation(v), Representatives(v, Elements(a)));
  }

  lemma {:induction false} OthersAppend(v: View, p: seq<string>, links: seq<string>, identity: string)
    ensures Others(v, p + links, identity) == Others(v, p, identity) + Others(v, links, identity)
  {
    if |p| == 0 {
      assert p + links == links;
    } else {
      assert (p + links)[1..] == p[1..] + links;
      OthersAppend(v, p[1..], links, identity);
    }
  }

  lemma {:induction false} NoOthers(v: View, p: seq<string>, identity: string)
    requires forall i :: 0 <= i < |p| ==> v.identity(p[i]) != identity
    ensures Others(v, p, identity) == p
  {
    if |p| > 0 {
      NoOthers(v, p[1..], identity);
      assert p == [p[0]] + p[1..];
    }
  }

  /** Links of these identities. */
  predicate Within(v: View, p: seq<string>, links: seq<string>) {
    forall y :: y in links ==> exists i :: 0 <= i < |p| && v.identity(p[i]) == v.identity(y)
  }

  lemma SomeMember(links: seq<string>)
    ensures links == [] || exists y :: y in links
  {
    if |links| > 0 {
      assert links[0] in links;
    }
  }

  /** Representatives listed first keep their order. */
  lemma {:induction false} DeduplicateFirst(v: View, p: seq<string>, links: seq<string>)
    requires DistinctIdentities(v, p) && Within(v, p, links)
    requires forall x :: x in p ==> Represents(v, x, Elements(p + links))
    ensures Deduplicate(v, p + links) == p
    decreases |p|
  {
    if |p| == 0 {
      SomeMember(links);
    } else {
      var all, rest, identity := p + links, p[1..], v.identity(p[0]);
      assert p == [p[0]] + rest && all == [p[0]] + all[1..] && all[1..] == rest + links;
      LeastRepresents(v, all[1..], p[0]);
      assert p[0] in p;
      OrdinalLeastUnique(v, Least(v, all[1..], p[0]), p[0], Elements(all));
      OthersAppend(v, rest, links, identity);
      NoOthers(v, rest, identity);
      var others := Others(v, links, identity);
      RestWithin(v, p, links);
      RestRepresents(v, p, links);
      DeduplicateFirst(v, rest, others);
    }
  }

  lemma RestWithin(v: View, p: seq<string>, links: seq<string>)
    requires Within(v, p, links) && |p| > 0
    ensures Within(v, p[1..], Others(v, links, v.identity(p[0])))
  {
    var identity, rest := v.identity(p[0]), p[1..];
    var others := Others(v, links, identity);
    forall y | y in others ensures exists i :: 0 <= i < |rest| && v.identity(rest[i]) == v.identity(y) {
      OtherMembers(v, links, identity, y);
      var i :| 0 <= i < |p| && v.identity(p[i]) == v.identity(y);
      assert rest[i - 1] == p[i];
    }
  }

  lemma RestRepresents(v: View, p: seq<string>, links: seq<string>)
    requires |p| > 0 && forall x :: x in p ==> Represents(v, x, Elements(p + links))
    ensures forall x :: x in p[1..] ==> Represents(v, x, Elements(p[1..] + Others(v, links, v.identity(p[0]))))
  {
    var rest := p[1..];
    var others := Others(v, links, v.identity(p[0]));
    OthersElements(v, links, v.identity(p[0]));
    assert p == [p[0]] + rest;
    ElementsAppend(p, links);
    ElementsAppend(rest, others);
    ElementsCons(p[0], rest);
    forall x | x in rest ensures Represents(v, x, Elements(rest + others)) {
      assert x in p && x in Elements(rest);
    }
  }

  lemma OtherMembers(v: View, links: seq<string>, identity: string, y: string)
    requires y in Others(v, links, identity)
    ensures y in links && v.identity(y) != identity
  {
    OthersElements(v, links, identity);
    assert y in Elements(Others(v, links, identity));
  }

  /** Deduplicating twice is deduplicating once. */
  lemma DeduplicateTwice(v: View, links: seq<string>)
    ensures Deduplicate(v, Deduplicate(v, links)) == Deduplicate(v, links)
  {
    var once := Deduplicate(v, links);
    DeduplicateElements(v, links);
    DeduplicateDistinct(v, links);
    forall x | x in once ensures Represents(v, x, Elements(once + [])) {
      assert once + [] == once && x in Elements(once);
    }
    DeduplicateFirst(v, once, []);
    assert once + [] == once;
  }

  lemma AnotherReading(v: View, links: seq<string>) returns (a: seq<string>, max: nat)
    requires !Orderable(v, Elements(links))
    ensures Elements(a) == Elements(links) && Build(v, a, max) != Build(v, links, max)
  {
    var s, compare := Deduplicate(v, links), ByPresentation(v);
    PresentationDecisive(v, Elements(links));
    DeduplicateRepresents(v, links);
    SortFreeExactly(s, compare);
    var t :| multiset(t) == multiset(s) && Sort(t, compare) != Sort(s, compare);
    ListedAs(v, links, t);
    SortLength(t, compare);
    SortLength(s, compare);
    assert |t| == |multiset(t)| == |multiset(s)| == |s|;
    a, max := t + links, |s|;
  }

  /** The order in which links are read never matters to what is published, whatever the cap, if and
      only if no three representatives compare in a circle. */
  lemma BuildOrderExactly(v: View, links: seq<string>)
    ensures (forall a, max: nat :: Elements(a) == Elements(links) ==> Build(v, a, max) == Build(v, links, max))
        <==> Orderable(v, Elements(links))
  {
    if Orderable(v, Elements(links)) {
      forall a, max: nat | Elements(a) == Elements(links) ensures Build(v, a, max) == Build(v, links, max) {
        BuildIgnoresOrder(v, a, links, max);
      }
    } else {
      var a, max := AnotherReading(v, links);
    }
  }

  /** Any order of the representatives is that of some list of the same links. */
  lemma ListedAs(v: View, links: seq<string>, t: seq<string>)
    requires multiset(t) == multiset(Deduplicate(v, links))
    ensures Elements(t + links) == Elements(links) && Deduplicate(v, t + links) == t
  {
    DeduplicateRepresents(v, links);
    SameElements(t, Deduplicate(v, links));
    DistinctPermutes(Deduplicate(v, links), t);
    ElementsAppend(t, links);
    assert Elements(t + links) == Elements(links);
    forall i, j | 0 <= i < j < |t| ensures v.identity(t[i]) != v.identity(t[j]) {
      assert t[i] in Elements(t) && t[j] in Elements(t);
      if v.identity(t[i]) == v.identity(t[j]) {
        OrdinalLeastUnique(v, t[i], t[j], Elements(links));
      }
    }
    forall x | x in t ensures Represents(v, x, Elements(t + links)) {
      assert x in Elements(t);
    }
    forall y | y in links ensures exists i :: 0 <= i < |t| && v.identity(t[i]) == v.identity(y) {
      assert y in Elements(links);
      IdentityRepresented(v, links, y);
      var x :| x in Elements(t) && v.identity(x) == v.identity(y);
    }
    DeduplicateFirst(v, t, links);
  }

  /** Whichever way a sort arranges the representatives so that each precedes the next one, it has no
      choice if and only if no three of them compare in a circle. */
  lemma OrderDetermined(v: View, links: seq<string>)
    ensures
      var s, compare := Deduplicate(v, links), ByPresentation(v);
      && Arranges(Sort(s, compare), s, compare)
      && ((forall p :: Arranges(p, s, compare) ==> p == Sort(s, compare)) <==> Orderable(v, Elements(links)))
  {
    PresentationDecisive(v, Elements(links));
    DeduplicateRepresents(v, links);
    ArrangesExactly(Deduplicate(v, links), ByPresentation(v));
  }

  /** x is presented before y: by the priority of its kind of connection, then by the natural order of
      names, then by protocol, and last by identity. */
  predicate PresentedBefore(v: View, x: string, y: string) {
    v.priority(x) < v.priority(y)
    || (v.priority(x) == v.priority(y)
        && var name := Natural(v.culture, v.name(x), v.name(y));
           name < 0
           || (name == 0
               && (Ordinal(v.protocol(x), v.protocol(y)) < 0
                   || (v.protocol(x) == v.protocol(y) && Ordinal(v.identity(x), v.identity(y)) < 0))))
  }

  lemma ComparedBefore(v: View, x: string, y: string)
    ensures CompareLinks(v, x, y) < 0 <==> PresentedBefore(v, x, y)
  {
    OrdinalZero(v.protocol(x), v.protocol(y));
  }

  lemma {:induction false} PathNext<T>(s: seq<T>, compare: (T, T) -> int, k: nat)
    requires Path(s, compare) && k + 1 < |s|
    ensures compare(s[k], s[k + 1]) < 0
  {
    if k > 0 {
      PathNext(s[1..], compare, k - 1);
    }
  }

  lemma SortedStrictly(s: seq<string>, compare: (string, string) -> int, i: nat, j: nat)
    requires StrictOrder(compare, Elements(s)) && Distinct(s) && i < j < |Sort(s, compare)|
    ensures compare(Sort(s, compare)[i], Sort(s, compare)[j]) < 0
  {
    var r := Sort(s, compare);
    SortSorts(s, compare, Elements(s));
    SortPermutes(s, compare);
    SortElements(s, compare);
    DistinctPermutes(s, r);
    assert r[i] in Elements(r) && r[j] in Elements(r);
    assert r[i] != r[j] && compare(r[i], r[j]) <= 0;
  }

  /** Whatever is published, every link is presented before the next one; and without a circle before
      all the later ones. */
  lemma PublishedInOrder(v: View, links: seq<string>, max: nat, i: nat, j: nat)
    requires i < j < |Build(v, links, max)| && (j == i + 1 || Orderable(v, Elements(links)))
    ensures PresentedBefore(v, Build(v, links, max)[i], Build(v, links, max)[j])
  {
    var s, compare := Deduplicate(v, links), ByPresentation(v);
    PresentationDecisive(v, Elements(links));
    DeduplicateRepresents(v, links);
    var r := Sort(s, compare);
    if j == i + 1 {
      SortPath(s, compare, Elements(s));
      PathNext(r, compare, i);
    } else {
      SortedStrictly(s, compare, i, j);
    }
    ComparedBefore(v, r[i], r[j]);
  }

  /** A view in which links are their own names and identities, and rank alike otherwise. */
  function Plain(culture: Culture): View {
    View((x: string) => x, (x: string) => x, (x: string) => 0, (x: string) => "", culture)
  }

  lemma CirclePath(culture: Culture, a: string, b: string, c: string)
    requires Natural(culture, a, b) < 0 && Natural(culture, b, c) < 0 && Natural(culture, c, a) < 0
    ensures Build(Plain(culture), [a, b, c], 3) == [a, b, c]
  {
    var v, links := Plain(culture), [a, b, c];
    NaturalAntisymmetric(culture, a, a);
    NaturalAntisymmetric(culture, b, b);
    NaturalAntisymmetric(culture, c, c);
    assert links + [] == links;
    forall x | x in links ensures Represents(v, x, Elements(links)) {
      assert x in Elements(links);
      OrdinalZero(x, x);
    }
    DeduplicateFirst(v, links, []);
    assert links[1..] == [b, c] && links[1..][1..] == [c];
    PathSorts(links, ByPresentation(v));
  }

  lemma Rotated(a: string, b: string, c: string)
    ensures Elements([a, b, c]) == Elements([b, c, a])
    ensures a != b ==> [a, b, c] != [b, c, a]
  {
    assert [a, b, c] == [a] + [b, c] && [b, c, a] == [b, c] + [a];
    ElementsAppend([a], [b, c]);
    ElementsAppend([b, c], [a]);
    assert [a, b, c][0] == a && [b, c, a][0] == b;
  }

  /** Three links whose names compare in a circle: two readings of them give different lists. */
  lemma CirclePublishesTwoOrders(culture: Culture)
    requires WellFormed(culture) && CollatesDigits(culture)
    ensures Elements([SMALL, LARGE, HUGE]) == Elements([LARGE, HUGE, SMALL])
    ensures Build(Plain(culture), [SMALL, LARGE, HUGE], 3) != Build(Plain(culture), [LARGE, HUGE, SMALL], 3)
  {
    NaturalCycle(culture);
    TwoOrders(culture, SMALL, LARGE, HUGE);
  }

  lemma TwoOrders(culture: Culture, a: string, b: string, c: string)
    requires Natural(culture, a, b) < 0 && Natural(culture, b, c) < 0 && Natural(culture, c, a) < 0
    ensures Elements([a, b, c]) == Elements([b, c, a])
    ensures Build(Plain(culture), [a, b, c], 3) != Build(Plain(culture), [b, c, a], 3)
  {
    NaturalAntisymmetric(culture, a, a);
    CirclePath(culture, a, b, c);
    CirclePath(culture, b, c, a);
    Rotated(a, b, c);
  }

  lemma TakeSplits<T(!new)>(s: seq<T>, n: nat, compare: (T, T) -> int, kept: T, cut: T)
    requires Sorted(s, compare) && kept in Elements(Take(s, n))
    requires cut in Elements(s) && cut !in Elements(Take(s, n))
    ensures kept in Elements(s) && |Take(s, n)| == n && compare(kept, cut) <= 0
  {
    var i :| 0 <= i < |Take(s, n)| && Take(s, n)[i] == kept;
    var j :| 0 <= j < |s| && s[j] == cut;
    assert s[i] == kept;
    assert forall k :: 0 <= k < |Take(s, n)| ==> Take(s, n)[k] == s[k] && Take(s, n)[k] in Elements(Take(s, n));
  }

  /** The published catalogue holds the first representatives of the presentation order: every
      one that is cut comes after every one that is kept. */
  lemma BuildKeepsFirst(v: View, links: seq<string>, max: nat, kept: string, cut: string)
    requires Orderable(v, Elements(links))
    requires kept in Elements(Build(v, links, max))
    requires Represents(v, cut, Elements(links)) && cut !in Elements(Build(v, links, max))
    ensures Represents(v, kept, Elements(links)) && CompareLinks(v, kept, cut) < 0
    ensures |Build(v, links, max)| == max
  {
    var all, compare := Deduplicate(v, links), ByPresentation(v);
    DeduplicateRepresents(v, links);
    PresentationDecisive(v, Elements(links));
    SortSorts(all, compare, Elements(all));
    SortElements(all, compare);
    TakeSplits(Sort(all, compare), max, compare, kept, cut);
    assert compare(kept, cut) != 0;
  }
}
