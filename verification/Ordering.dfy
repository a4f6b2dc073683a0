/** Three-way comparison, ordinal string order, and sorting by a strict total order. */
module Ordering {

  /** StringComparer.Ordinal: the first differing character decides, then the length. */
  function Ordinal(a: string, b: string): int {
    if |a| == 0 || |b| == 0 then |a| - |b|
    else if a[0] != b[0] then a[0] as int - b[0] as int
    else Ordinal(a[1..], b[1..])
  }

  lemma {:induction false} OrdinalZero(a: string, b: string)
    ensures Ordinal(a, b) == 0 <==> a == b
  {
    if |a| > 0 && |b| > 0 && a[0] == b[0] {
      OrdinalZero(a[1..], b[1..]);
      assert a == [a[0]] + a[1..] && b == [b[0]] + b[1..];
    }
  }

  lemma {:induction false} OrdinalAntisymmetric(a: string, b: string)
    ensures Ordinal(a, b) == -Ordinal(b, a)
  {
    if |a| > 0 && |b| > 0 && a[0] == b[0] {
      OrdinalAntisymmetric(a[1..], b[1..]);
    }
  }

  lemma {:induction false} OrdinalTransitive(a: string, b: string, c: string)
    requires Ordinal(a, b) <= 0 && Ordinal(b, c) <= 0
    ensures Ordinal(a, c) <= 0
  {
    if |a| > 0 && |b| > 0 && |c| > 0 && a[0] == b[0] == c[0] {
      OrdinalTransitive(a[1..], b[1..], c[1..]);
    }
  }

  /** A comparer that can tell any two elements apart and turns around with its arguments. */
  ghost predicate Decisive<T(!new)>(compare: (T, T) -> int, domain: set<T>) {
    && (forall x, y :: x in domain && y in domain ==> (compare(x, y) == 0 <==> x == y))
    && (forall x, y :: x in domain && y in domain ==> (compare(x, y) < 0 <==> compare(y, x) > 0))
  }

  /** No three elements compare in a circle. */
  ghost predicate Transitive<T(!new)>(compare: (T, T) -> int, domain: set<T>) {
    forall x, y, z :: x in domain && y in domain && z in domain && compare(x, y) <= 0 && compare(y, z) <= 0 ==>
      compare(x, z) <= 0
  }

  /** What a comparer owes the sort that uses it, on the elements of one list. */
  ghost predicate StrictOrder<T(!new)>(compare: (T, T) -> int, domain: set<T>) {
    Decisive(compare, domain) && Transitive(compare, domain)
  }

  function Elements<T>(s: seq<T>): set<T> {
    set i | 0 <= i < |s| :: s[i]
  }

  function Take<T>(s: seq<T>, n: nat): seq<T> {
    if |s| <= n then s else s[..n]
  }

  ghost predicate Sorted<T(!new)>(s: seq<T>, compare: (T, T) -> int) {
    forall i, j :: 0 <= i < j < |s| ==> compare(s[i], s[j]) <= 0
  }

  predicate Distinct<T(==)>(s: seq<T>) {
    forall i, j :: 0 <= i < j < |s| ==> s[i] != s[j]
  }

  /** Stable: an element goes after those it does not precede. */
  function Insert<T>(x: T, s: seq<T>, compare: (T, T) -> int): seq<T> {
    if |s| == 0 || compare(x, s[0]) <= 0 then [x] + s else [s[0]] + Insert(x, s[1..], compare)
  }

  function Sort<T>(s: seq<T>, compare: (T, T) -> int): seq<T> {
    if |s| == 0 then [] else Insert(s[0], Sort(s[1..], compare), compare)
  }

  lemma {:induction false} InsertPermutes<T>(x: T, s: seq<T>, compare: (T, T) -> int)
    ensures multiset(Insert(x, s, compare)) == multiset(s) + multiset{x}
  {
    if |s| > 0 {
      assert s == [s[0]] + s[1..];
      if compare(x, s[0]) > 0 {
        InsertPermutes(x, s[1..], compare);
      }
    }
  }

  lemma {:induction false} SortPermutes<T>(s: seq<T>, compare: (T, T) -> int)
    ensures multiset(Sort(s, compare)) == multiset(s)
  {
    if |s| > 0 {
      assert s == [s[0]] + s[1..];
      SortPermutes(s[1..], compare);
      InsertPermutes(s[0], Sort(s[1..], compare), compare);
    }
  }

  lemma SortLength<T>(s: seq<T>, compare: (T, T) -> int)
    ensures |Sort(s, compare)| == |s|
  {
    SortPermutes(s, compare);
    assert |multiset(Sort(s, compare))| == |multiset(s)|;
  }

  lemma SameElements<T>(s: seq<T>, t: seq<T>)
    requires multiset(s) == multiset(t)
    ensures Elements(s) == Elements(t)
  {
    forall x ensures x in Elements(s) <==> x in multiset(s) {
    }
    forall x ensures x in Elements(t) <==> x in multiset(t) {
    }
  }

  lemma ElementsCons<T>(x: T, s: seq<T>)
    ensures Elements([x] + s) == {x} + Elements(s)
  {
    var t := [x] + s;
    forall y | y in {x} + Elements(s) ensures y in Elements(t) {
      if y == x {
        assert t[0] == y;
      } else {
        var k :| 0 <= k < |s| && s[k] == y;
        assert t[k + 1] == y;
      }
    }
  }

  lemma ElementsAppend<T>(s: seq<T>, t: seq<T>)
    ensures Elements(s + t) == Elements(s) + Elements(t)
  {
    forall x | x in Elements(s) + Elements(t) ensures x in Elements(s + t) {
      if x in Elements(s) {
        var i :| 0 <= i < |s| && s[i] == x;
        assert (s + t)[i] == x;
      } else {
        var i :| 0 <= i < |t| && t[i] == x;
        assert (s + t)[|s| + i] == x;
      }
    }
  }

  lemma InsertElements<T>(x: T, s: seq<T>, compare: (T, T) -> int)
    ensures Elements(Insert(x, s, compare)) == Elements(s) + {x}
  {
    InsertPermutes(x, s, compare);
    ElementsCons(x, s);
    SameElements(Insert(x, s, compare), [x] + s);
  }

  lemma SortElements<T>(s: seq<T>, compare: (T, T) -> int)
    ensures Elements(Sort(s, compare)) == Elements(s)
  {
    SortPermutes(s, compare);
    SameElements(Sort(s, compare), s);
  }

  /** An element that precedes everything in a sorted list may head it. */
  lemma SortedCons<T(!new)>(x: T, s: seq<T>, compare: (T, T) -> int)
    requires Sorted(s, compare) && forall y :: y in Elements(s) ==> compare(x, y) <= 0
    ensures Sorted([x] + s, compare)
  {
    forall i | 0 <= i < |s| ensures s[i] in Elements(s) {
    }
  }

  lemma HeadPrecedes<T(!new)>(s: seq<T>, compare: (T, T) -> int, domain: set<T>, y: T)
    requires StrictOrder(compare, domain) && Elements(s) <= domain && Sorted(s, compare) && y in Elements(s)
    ensures compare(s[0], y) <= 0
  {
    var k :| 0 <= k < |s| && s[k] == y;
    assert s[0] in Elements(s);
    if k > 0 {
      assert compare(s[0], s[k]) <= 0;
    }
  }

  lemma {:induction false} InsertSorts<T(!new)>(x: T, s: seq<T>, compare: (T, T) -> int, domain: set<T>)
    requires StrictOrder(compare, domain) && x in domain && Elements(s) <= domain && Sorted(s, compare)
    ensures Sorted(Insert(x, s, compare), compare)
  {
    if |s| == 0 {
    } else if compare(x, s[0]) <= 0 {
      forall y | y in Elements(s) ensures compare(x, y) <= 0 {
        HeadPrecedes(s, compare, domain, y);
        assert s[0] in Elements(s);
      }
      SortedCons(x, s, compare);
    } else {
      assert s == [s[0]] + s[1..];
      ElementsCons(s[0], s[1..]);
      InsertSorts(x, s[1..], compare, domain);
      InsertElements(x, s[1..], compare);
      forall y | y in Elements(Insert(x, s[1..], compare)) ensures compare(s[0], y) <= 0 {
        if y != x {
          HeadPrecedes(s, compare, domain, y);
        }
      }
      SortedCons(s[0], Insert(x, s[1..], compare), compare);
    }
  }

  lemma {:induction false} SortSorts<T(!new)>(s: seq<T>, compare: (T, T) -> int, domain: set<T>)
    requires StrictOrder(compare, domain) && Elements(s) <= domain
    ensures Sorted(Sort(s, compare), compare)
  {
    if |s| > 0 {
      assert s == [s[0]] + s[1..];
      ElementsCons(s[0], s[1..]);
      SortSorts(s[1..], compare, domain);
      SortElements(s[1..], compare);
      InsertSorts(s[0], Sort(s[1..], compare), compare, domain);
    }
  }

  /** Two sorted lists without repetition, of the same elements, are the same list. */
  lemma {:induction false} SortedUnique<T(!new)>(s: seq<T>, t: seq<T>, compare: (T, T) -> int, domain: set<T>)
    requires StrictOrder(compare, domain) && Elements(s) <= domain && Elements(s) == Elements(t)
    requires Sorted(s, compare) && Sorted(t, compare) && Distinct(s) && Distinct(t)
    ensures s == t
  {
    if |s| == 0 {
      NoElements(t);
    } else {
      NonEmptyElements(s, t);
      SameHead(s, t, compare, domain);
      TailElements(s);
      TailElements(t);
      SortedTail(s, compare);
      SortedTail(t, compare);
      SortedUnique(s[1..], t[1..], compare, domain);
      SameCons(s, t);
    }
  }

  lemma SortedTail<T(!new)>(s: seq<T>, compare: (T, T) -> int)
    requires Sorted(s, compare) && |s| > 0
    ensures Sorted(s[1..], compare)
  {
  }

  lemma SameCons<T>(s: seq<T>, t: seq<T>)
    requires |s| > 0 && |t| > 0 && s[0] == t[0] && s[1..] == t[1..]
    ensures s == t
  {
    assert s == [s[0]] + s[1..] && t == [t[0]] + t[1..];
  }

  lemma NonEmptyElements<T>(s: seq<T>, t: seq<T>)
    requires Elements(s) == Elements(t) && |s| > 0
    ensures |t| > 0
  {
    assert s[0] in Elements(s);
  }

  lemma SameHead<T(!new)>(s: seq<T>, t: seq<T>, compare: (T, T) -> int, domain: set<T>)
    requires StrictOrder(compare, domain) && Elements(s) <= domain && Elements(s) == Elements(t)
    requires Sorted(s, compare) && Sorted(t, compare) && |s| > 0 && |t| > 0
    ensures s[0] == t[0]
  {
    assert s[0] in Elements(s) && t[0] in Elements(t);
    HeadPrecedes(s, compare, domain, t[0]);
    HeadPrecedes(t, compare, domain, s[0]);
  }

  lemma TailElements<T>(s: seq<T>)
    requires Distinct(s) && |s| > 0
    ensures Distinct(s[1..]) && Elements(s[1..]) == Elements(s) - {s[0]}
  {
    assert s == [s[0]] + s[1..];
    ElementsCons(s[0], s[1..]);
    HeadOnce(s);
  }

  lemma NoElements<T>(s: seq<T>)
    ensures s == [] || Elements(s) != {}
  {
    if |s| > 0 {
      assert s[0] in Elements(s);
    }
  }

  lemma HeadOnce<T>(s: seq<T>)
    requires Distinct(s) && |s| > 0
    ensures s[0] !in Elements(s[1..])
  {
  }

  /** The order of a distinct list does not matter to its sort. */
  lemma SortIgnoresOrder<T(!new)>(s: seq<T>, t: seq<T>, compare: (T, T) -> int, domain: set<T>)
    requires StrictOrder(compare, domain) && Elements(s) <= domain && Elements(s) == Elements(t)
    requires Distinct(s) && Distinct(t)
    ensures Sort(s, compare) == Sort(t, compare)
  {
    SortSorts(s, compare, domain);
    SortSorts(t, compare, domain);
    SortElements(s, compare);
    SortElements(t, compare);
    SortPermutes(s, compare);
    SortPermutes(t, compare);
    DistinctPermutes(s, Sort(s, compare));
    DistinctPermutes(t, Sort(t, compare));
    SortedUnique(Sort(s, compare), Sort(t, compare), compare, domain);
  }

  lemma {:induction false} DistinctCounts<T>(s: seq<T>, x: T)
    requires Distinct(s)
    ensures multiset(s)[x] <= 1
  {
    if |s| > 0 {
      assert s == [s[0]] + s[1..];
      DistinctCounts(s[1..], x);
    }
  }

  lemma DistinctPermutes<T>(s: seq<T>, t: seq<T>)
    requires Distinct(s) && multiset(t) == multiset(s)
    ensures Distinct(t)
  {
    forall i, j | 0 <= i < j < |t| ensures t[i] != t[j] {
      DistinctCounts(s, t[i]);
      assert t == t[..j] + [t[j]] + t[j + 1..];
      assert t[..j][i] == t[i];
    }
  }

  /* ---------- sorting without a transitive order ---------- */

  /** Every element precedes the next one. */
  predicate Path<T>(s: seq<T>, compare: (T, T) -> int) {
    |s| <= 1 || (compare(s[0], s[1]) < 0 && Path(s[1..], compare))
  }

  lemma {:induction false} InsertPath<T(!new)>(x: T, s: seq<T>, compare: (T, T) -> int, domain: set<T>)
    requires Decisive(compare, domain) && x in domain && Elements(s) <= domain && x !in Elements(s)
    requires Path(s, compare)
    ensures Path(Insert(x, s, compare), compare)
  {
    if |s| > 0 {
      assert s[0] in Elements(s) && s == [s[0]] + s[1..];
      ElementsCons(s[0], s[1..]);
      if compare(x, s[0]) <= 0 {
        assert ([x] + s)[1..] == s;
      } else {
        var t := Insert(x, s[1..], compare);
        InsertPath(x, s[1..], compare, domain);
        assert ([s[0]] + t)[1..] == t;
        assert t[0] == x || t[0] == s[1];
      }
    }
  }

  /** Whatever the comparer, sorting puts every element before the next one ... */
  lemma {:induction false} SortPath<T(!new)>(s: seq<T>, compare: (T, T) -> int, domain: set<T>)
    requires Decisive(compare, domain) && Elements(s) <= domain && Distinct(s)
    ensures Path(Sort(s, compare), compare)
  {
    if |s| > 0 {
      TailElements(s);
      SortPath(s[1..], compare, domain);
      SortElements(s[1..], compare);
      assert s[0] in Elements(s);
      InsertPath(s[0], Sort(s[1..], compare), compare, domain);
    }
  }

  /** ... and leaves a list alone in which that is so. */
  lemma {:induction false} PathSorts<T>(s: seq<T>, compare: (T, T) -> int)
    requires Path(s, compare)
    ensures Sort(s, compare) == s
  {
    if |s| > 0 {
      PathSorts(s[1..], compare);
    }
  }

  lemma {:induction false} InsertInjective<T>(x: T, s: seq<T>, t: seq<T>, compare: (T, T) -> int)
    requires x !in s && x !in t && Insert(x, s, compare) == Insert(x, t, compare)
    ensures s == t
  {
    var u := Insert(x, s, compare);
    if |s| > 0 && |t| > 0 && u[0] != x {
      assert Insert(x, s[1..], compare) == u[1..] == Insert(x, t[1..], compare);
      InsertInjective(x, s[1..], t[1..], compare);
      SameCons(s, t);
    } else {
      assert s == u[1..] && t == u[1..];
    }
  }

  lemma LastAfter<T(!new)>(x: T, s: seq<T>, compare: (T, T) -> int, j: nat) returns (k: nat)
    requires j < |s| && compare(x, s[j]) > 0
    ensures k < |s| && compare(x, s[k]) > 0 && forall m :: k < m < |s| ==> compare(x, s[m]) <= 0
    decreases |s| - j
  {
    k := j;
    if m: nat :| j < m < |s| && compare(x, s[m]) > 0 {
      k := LastAfter(x, s, compare, m);
    }
  }

  lemma {:induction false} PathInsert<T>(x: T, s: seq<T>, compare: (T, T) -> int, k: nat)
    requires Path(s, compare) && k < |s| && compare(s[k], x) < 0
    requires k + 1 < |s| ==> compare(x, s[k + 1]) < 0
    ensures Path(s[..k + 1] + [x] + s[k + 1..], compare)
  {
    var t := s[..k + 1] + [x] + s[k + 1..];
    if k == 0 {
      assert t[1..] == [x] + s[1..] && t[1..][1..] == s[1..];
    } else {
      PathInsert(x, s[1..], compare, k - 1);
      assert t[1..] == s[1..][..k] + [x] + s[1..][k..];
    }
  }

  /** x moved behind the first n elements of the rest. */
  function Moved<T>(x: T, rest: seq<T>, n: nat): (r: seq<T>)
    requires n <= |rest|
    ensures |r| == |rest| + 1
  {
    rest[..n] + [x] + rest[n..]
  }

  lemma MovedPermutes<T>(x: T, rest: seq<T>, n: nat)
    requires n <= |rest|
    ensures multiset(Moved(x, rest, n)) == multiset([x] + rest)
  {
    assert rest == rest[..n] + rest[n..];
  }

  lemma MovedSorts<T(!new)>(x: T, rest: seq<T>, compare: (T, T) -> int, domain: set<T>, k: nat)
    requires Decisive(compare, domain) && x in domain && Elements(rest) <= domain && x !in rest
    requires Path(rest, compare) && k < |rest| && compare(x, rest[k]) > 0
    requires forall m :: k < m < |rest| ==> compare(x, rest[m]) <= 0
    ensures Sort(Moved(x, rest, k + 1), compare) == Moved(x, rest, k + 1) && Moved(x, rest, k + 1)[0] != x
  {
    assert rest[k] in Elements(rest);
    if k + 1 < |rest| {
      assert rest[k + 1] in Elements(rest);
    }
    PathInsert(x, rest, compare, k);
    PathSorts(Moved(x, rest, k + 1), compare);
    assert rest[0] in rest;
  }

  lemma MovedElsewhere<T(!new)>(x: T, rest: seq<T>, compare: (T, T) -> int, domain: set<T>) returns (t: seq<T>)
    requires Decisive(compare, domain) && x in domain && Elements(rest) <= domain && x !in rest
    requires Path(rest, compare) && !forall j :: 0 <= j < |rest| ==> compare(x, rest[j]) <= 0
    ensures multiset(t) == multiset([x] + rest) && Sort(t, compare) != [x] + rest
  {
    var j: nat :| j < |rest| && compare(x, rest[j]) > 0;
    var k := LastAfter(x, rest, compare, j);
    MovedSorts(x, rest, compare, domain, k);
    MovedPermutes(x, rest, k + 1);
    t := Moved(x, rest, k + 1);
  }

  lemma HeadSorts<T>(x: T, rest: seq<T>, u: seq<T>, compare: (T, T) -> int)
    requires Path([x] + rest, compare) && x !in rest
    requires multiset(u) == multiset(rest) && Sort(u, compare) != rest
    ensures Sort([x] + u, compare) != [x] + rest
  {
    SortPermutes(u, compare);
    assert x !in multiset(rest) && x !in multiset(Sort(u, compare));
    assert ([x] + u)[1..] == u && ([x] + rest)[1..] == rest;
    assert Insert(x, rest, compare) == [x] + rest;
    if Sort([x] + u, compare) == [x] + rest {
      InsertInjective(x, Sort(u, compare), rest, compare);
    }
  }

  /** A path that runs backwards somewhere has its elements listed in an order that sorts to something
      else: the last element that should follow one behind it is moved behind the last of those. */
  lemma {:induction false} AnotherOrder<T(!new)>(r: seq<T>, compare: (T, T) -> int, domain: set<T>) returns (t: seq<T>)
    requires Decisive(compare, domain) && Elements(r) <= domain && Distinct(r)
    requires Path(r, compare) && !Sorted(r, compare)
    ensures multiset(t) == multiset(r) && Sort(t, compare) != r
  {
    var x, rest := r[0], r[1..];
    assert r == [x] + rest;
    TailElements(r);
    assert x in Elements(r);
    if Sorted(rest, compare) {
      t := MovedElsewhere(x, rest, compare, domain);
    } else {
      var u := AnotherOrder(rest, compare, domain);
      HeadSorts(x, rest, u, compare);
      t := [x] + u;
    }
  }

  lemma SortedTransitive<T(!new)>(r: seq<T>, compare: (T, T) -> int)
    requires Decisive(compare, Elements(r)) && Sorted(r, compare)
    ensures Transitive(compare, Elements(r))
  {
    forall x, y, z | x in Elements(r) && y in Elements(r) && z in Elements(r)
                     && compare(x, y) <= 0 && compare(y, z) <= 0
      ensures compare(x, z) <= 0
    {
      var i :| 0 <= i < |r| && r[i] == x;
      var j :| 0 <= j < |r| && r[j] == y;
      var k :| 0 <= k < |r| && r[k] == z;
      assert i <= j || x == y;
      assert j <= k || y == z;
    }
  }

  /** The order of a distinct list never matters to its sort if and only if no three of its elements
      compare in a circle. */
  lemma SortFreeExactly<T(!new)>(s: seq<T>, compare: (T, T) -> int)
    requires Decisive(compare, Elements(s)) && Distinct(s)
    ensures (forall t :: multiset(t) == multiset(s) ==> Sort(t, compare) == Sort(s, compare))
        <==> Transitive(compare, Elements(s))
  {
    var r := Sort(s, compare);
    if Transitive(compare, Elements(s)) {
      forall t | multiset(t) == multiset(s) ensures Sort(t, compare) == r {
        SameElements(s, t);
        DistinctPermutes(s, t);
        SortIgnoresOrder(t, s, compare, Elements(s));
      }
    } else {
      SortElements(s, compare);
      SortPermutes(s, compare);
      DistinctPermutes(s, r);
      SortPath(s, compare, Elements(s));
      if Sorted(r, compare) {
        SortedTransitive(r, compare);
      } else {
        var t := AnotherOrder(r, compare, Elements(s));
        assert Sort(t, compare) != r;
      }
    }
  }

  /** What a sort can end with, whichever way it gets there. */
  predicate Arranges<T(==)>(p: seq<T>, s: seq<T>, compare: (T, T) -> int) {
    multiset(p) == multiset(s) && Path(p, compare)
  }

  lemma SortArranges<T(!new)>(s: seq<T>, t: seq<T>, compare: (T, T) -> int)
    requires Decisive(compare, Elements(s)) && Distinct(s) && multiset(t) == multiset(s)
    ensures Arranges(Sort(t, compare), s, compare)
  {
    SameElements(s, t);
    DistinctPermutes(s, t);
    SortPath(t, compare, Elements(s));
    SortPermutes(t, compare);
  }

  /** There is only one such arrangement if and only if no three elements compare in a circle. */
  lemma ArrangesExactly<T(!new)>(s: seq<T>, compare: (T, T) -> int)
    requires Decisive(compare, Elements(s)) && Distinct(s)
    ensures Arranges(Sort(s, compare), s, compare)
    ensures (forall p :: Arranges(p, s, compare) ==> p == Sort(s, compare)) <==> Transitive(compare, Elements(s))
  {
    SortArranges(s, s, compare);
    SortFreeExactly(s, compare);
    if Transitive(compare, Elements(s)) {
      forall p | Arranges(p, s, compare) ensures p == Sort(s, compare) {
        PathSorts(p, compare);
      }
    } else {
      var t :| multiset(t) == multiset(s) && Sort(t, compare) != Sort(s, compare);
      SortArranges(s, t, compare);
    }
  }

  lemma SomeElement(ids: set<int>)
    ensures ids == {} || exists x :: x in ids
  {
    if forall x :: x !in ids {
      assert ids == {};
    }
  }

  lemma {:induction false} LeastExists(ids: set<int>)
    requires |ids| > 0
    ensures exists x :: x in ids && forall y :: y in ids ==> x <= y
  {
    SomeElement(ids);
    var x :| x in ids;
    var rest := ids - {x};
    if |rest| == 0 {
      assert ids == {x};
    } else {
      LeastExists(rest);
      var least :| least in rest && forall y :: y in rest ==> least <= y;
      var z := if x < least then x else least;
      forall y | y in ids ensures z <= y {
        assert y == x || y in rest;
      }
      assert z in ids;
    }
  }

  function SortedKeys(ids: set<int>): (r: seq<int>)
    ensures forall x :: x in r <==> x in ids
  {
    if |ids| == 0 then []
    else
      LeastExists(ids);
      var x :| x in ids && forall y :: y in ids ==> x <= y;
      [x] + SortedKeys(ids - {x})
  }
}
