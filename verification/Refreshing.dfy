/** What a refresh must publish, source by source, and what must be served. */
module Refreshing {
  import opened Text
  import opened Canonical
  import opened Ordering
  import opened NaturalOrder
  import opened Presentation
  import opened Publisher
  import opened PublishedCatalogues
  import opened CatalogStore

  /* ---------- one source ---------- */

  function Newest(c: Catalog, id: SourceId): Snapshot
    requires |SnapshotsOf(c, id)| > 0
  {
    SnapshotsOf(c, id)[|SnapshotsOf(c, id)| - 1]
  }

  /** A source is used if it has been read, or its read failed and its newest snapshot is recent
      enough. */
  predicate Contributes(c: Catalog, id: SourceId, reading: Reading, now: Time, maxStale: int) {
    reading.ReadLinks?
    || (reading.ReadFailed? && |SnapshotsOf(c, id)| > 0 && now - Newest(c, id).createdAt <= maxStale)
  }

  function Contribution(c: Catalog, id: SourceId, reading: Reading, now: Time): Snapshot
    requires reading.ReadLinks? || |SnapshotsOf(c, id)| > 0
  {
    if reading.ReadLinks? then Snapshot(now, reading.links) else Newest(c, id)
  }

  /** The version used: the one just stored, or the newest there is. */
  function VersionUsed(c: Catalog, id: SourceId, reading: Reading): int {
    if reading.ReadLinks? then |SnapshotsOf(c, id)| else |SnapshotsOf(c, id)| - 1
  }

  predicate Stored(c: Catalog, d: Catalog, id: SourceId, reading: Reading, now: Time) {
    SnapshotsOf(d, id) == SnapshotsOf(c, id) + (if reading.ReadLinks? then [Snapshot(now, reading.links)] else [])
  }

  lemma ReadContributes(c: Catalog, g: Gathered, id: SourceId, reading: Reading, now: Time, maxStale: int)
    ensures
      var (d, h) := ReadSource(c, g, id, reading, now, maxStale);
      && Stored(c, d, id, reading, now) && d.published == c.published
      && (forall other :: other != id ==> SnapshotsOf(d, other) == SnapshotsOf(c, other))
      && (if Contributes(c, id, reading, now, maxStale) then
            var s := Contribution(c, id, reading, now);
            && h.merged == g.merged + s.links && h.ages == g.ages + [s.createdAt]
            && VersionUsed(c, id, reading) >= 0 && h.sources == g.sources[id := VersionUsed(c, id, reading)]
          else h == g)
  {
  }

  /* ---------- one refresh ---------- */

  function Reads(readings: seq<Reading>): seq<Event> {
    if |readings| == 0 then [] else [ReadNext(readings[0])] + Reads(readings[1..])
  }

  /** What has been gathered from source k, given the catalogue before the refresh. */
  predicate UsedExactly(
      c: Catalog, d: Catalog, g: Gathered, id: SourceId, reading: Reading, now: Time, maxStale: int)
  {
    && Stored(c, d, id, reading, now)
    && (id in g.sources <==> Contributes(c, id, reading, now, maxStale))
    && (Contributes(c, id, reading, now, maxStale) ==>
          && g.sources[id] == VersionUsed(c, id, reading) && g.sources[id] < |SnapshotsOf(d, id)|
          && Named(d, g.sources, id) == Contribution(c, id, reading, now)
          && Contribution(c, id, reading, now).createdAt in g.ages)
  }

  /** Nothing about a source that is not read. */
  predicate Untouched(c: Catalog, d: Catalog, g: Gathered, h: Gathered, id: SourceId) {
    SnapshotsOf(d, id) == SnapshotsOf(c, id) && (id in h.sources <==> id in g.sources)
    && (id in g.sources ==> h.sources[id] == g.sources[id])
  }

  /** An age is that of something used before, or of one of these sources. */
  predicate AgeOf(
      c: Catalog, g: Gathered, sources: seq<SourceId>, readings: seq<Reading>, now: Time, maxStale: int, age: Time)
    requires |readings| == |sources|
  {
    age in g.ages
    || exists k :: 0 <= k < |sources| && Contributes(c, sources[k], readings[k], now, maxStale)
                   && age == Contribution(c, sources[k], readings[k], now).createdAt
  }

  ghost predicate GatheredFrom(
      c: Catalog, g: Gathered, d: Catalog, h: Gathered, sources: seq<SourceId>, readings: seq<Reading>, now: Time,
      maxStale: int)
    requires |readings| == |sources|
  {
    && d.published == c.published
    && (forall k :: 0 <= k < |sources| ==> UsedExactly(c, d, h, sources[k], readings[k], now, maxStale))
    && (forall id :: id !in sources ==> Untouched(c, d, g, h, id))
    && (forall age :: age in g.ages ==> age in h.ages)
    && (forall age :: age in h.ages ==> AgeOf(c, g, sources, readings, now, maxStale, age))
  }

  lemma AgesCarryOver(
      c: Catalog, d: Catalog, g: Gathered, h: Gathered, sources: seq<SourceId>, readings: seq<Reading>, now: Time,
      maxStale: int, age: Time)
    requires |sources| > 0 && |readings| == |sources| && Distinct(sources)
    requires (d, h) == ReadSource(c, g, sources[0], readings[0], now, maxStale)
    requires AgeOf(d, h, sources[1..], readings[1..], now, maxStale, age)
    ensures AgeOf(c, g, sources, readings, now, maxStale, age)
  {
    ReadContributes(c, g, sources[0], readings[0], now, maxStale);
    if age in h.ages {
      if age !in g.ages {
        assert Contributes(c, sources[0], readings[0], now, maxStale);
      }
    } else {
      var k :| 0 <= k < |sources[1..]| && Contributes(d, sources[1..][k], readings[1..][k], now, maxStale)
               && age == Contribution(d, sources[1..][k], readings[1..][k], now).createdAt;
      assert sources[0] != sources[k + 1];
      assert Contributes(c, sources[k + 1], readings[k + 1], now, maxStale);
    }
  }

  lemma UsedCarriesOver(
      c: Catalog, d: Catalog, e: Catalog, g: Gathered, h: Gathered, id: SourceId, reading: Reading, now: Time,
      maxStale: int)
    requires SnapshotsOf(d, id) == SnapshotsOf(c, id) && UsedExactly(d, e, h, id, reading, now, maxStale)
    ensures UsedExactly(c, e, h, id, reading, now, maxStale)
  {
  }

  /** A refresh uses of every source exactly what it should. */
  lemma {:induction false} RefreshGathers(
      o: Options, c: Catalog, g: Gathered, sources: seq<SourceId>, readings: seq<Reading>, now: Time)
    requires |readings| == |sources| && Distinct(sources) && forall id :: id in sources ==> id !in g.sources
    ensures
      var s := Run(o, State(c, Gathering(now, sources, g)), Reads(readings));
      && s.refresh.Gathering? && s.refresh.started == now && s.refresh.remaining == []
      && GatheredFrom(c, g, s.catalog, s.refresh.gathered, sources, readings, now, o.maxStale)
    decreases |sources|
  {
    if |sources| > 0 {
      var id, reading := sources[0], readings[0];
      var (d, h) := ReadSource(c, g, id, reading, now, o.maxStale);
      var next := State(d, Gathering(now, sources[1..], h));
      ReadContributes(c, g, id, reading, now, o.maxStale);
      assert Reads(readings)[1..] == Reads(readings[1..]);
      assert Step(o, State(c, Gathering(now, sources, g)), ReadNext(reading)) == next;
      RestDistinct(sources);
      RefreshGathers(o, d, h, sources[1..], readings[1..], now);
      var s := Run(o, next, Reads(readings[1..]));
      FirstUsed(c, g, d, h, s.catalog, s.refresh.gathered, sources, readings, now, o.maxStale);
    }
  }

  lemma RestDistinct(sources: seq<SourceId>)
    requires Distinct(sources) && |sources| > 0
    ensures Distinct(sources[1..]) && sources[0] !in sources[1..]
    ensures forall id :: id in sources <==> id == sources[0] || id in sources[1..]
  {
  }

  lemma FirstUsed(
      c: Catalog, g: Gathered, d: Catalog, h: Gathered, e: Catalog, f: Gathered, sources: seq<SourceId>,
      readings: seq<Reading>, now: Time, maxStale: int)
    requires |sources| > 0 && |readings| == |sources| && Distinct(sources) && sources[0] !in g.sources
    requires (d, h) == ReadSource(c, g, sources[0], readings[0], now, maxStale)
    requires GatheredFrom(d, h, e, f, sources[1..], readings[1..], now, maxStale)
    ensures GatheredFrom(c, g, e, f, sources, readings, now, maxStale)
  {
    ReadContributes(c, g, sources[0], readings[0], now, maxStale);
    RestDistinct(sources);
    assert Untouched(d, e, h, f, sources[0]);
    forall k | 0 <= k < |sources| ensures UsedExactly(c, e, f, sources[k], readings[k], now, maxStale) {
      if k > 0 {
        assert sources[1..][k - 1] == sources[k] && readings[1..][k - 1] == readings[k];
        assert sources[0] != sources[k];
        UsedCarriesOver(c, d, e, g, f, sources[k], readings[k], now, maxStale);
      }
    }
    forall id | id !in sources ensures Untouched(c, e, g, f, id) {
      assert Untouched(d, e, h, f, id);
    }
    forall age | age in f.ages ensures AgeOf(c, g, sources, readings, now, maxStale, age) {
      AgesCarryOver(c, d, g, h, sources, readings, now, maxStale, age);
    }
  }

  /* ---------- the decision ---------- */

  /** The catalogue observed can be published again. */
  predicate StillGood(o: Options, current: Option<Published>, now: Time) {
    current.Some? && |current.value.links| > 0 && now - current.value.dataAsOf <= o.maxStale
  }

  /** Fewer than a fifth of ten or more identities are left. */
  predicate Anomalous(o: Options, c: Catalog, g: Gathered, current: Option<Published>) {
    current.Some?
    && var before := Behind(o, c, current.value);
       |before| >= 10 && 5 * |Identities(o.view, g.merged) * before| < |before|
  }

  /** Which of its four outcomes a refresh has, exactly. */
  lemma DecidedExactly(o: Options, c: Catalog, g: Gathered, current: Option<Published>, now: Time)
    ensures
      var (p, verdict) := Decide(o, c, g, current, now);
      && (verdict.Republished? <==> g.merged == [] && StillGood(o, current, now))
      && (verdict.MadeUnavailable? <==> g.merged == [] && !StillGood(o, current, now))
      && (verdict.Rejected? <==> g.merged != [] && Anomalous(o, c, g, current))
      && (verdict.Accepted? <==> g.merged != [] && !Anomalous(o, c, g, current))
      && p.createdAt == now
      && (verdict.Republished? || verdict.Rejected? ==> p == current.value.(createdAt := now, state := Stale))
      && (verdict.MadeUnavailable? ==> p.state.Unavailable? && p.links == [])
      && (verdict.Accepted? ==>
            p.sources == g.sources && p.links == Build(o.view, g.merged, o.maxServers)
            && (|g.ages| > 0 ==> p.dataAsOf in g.ages && forall age :: age in g.ages ==> p.dataAsOf <= age)
            && (p.state.Fresh? <==> p.dataAsOf == now) && (p.state.Stale? <==> p.dataAsOf != now))
  {
    var unique := Deduplicate(o.view, g.merged);
    if g.merged == [] {
      assert unique == [];
    }
    DeduplicateTwice(o.view, g.merged);
    DeduplicateIdentities(o.view, g.merged);
    DeduplicateDistinct(o.view, g.merged);
    if current.Some? {
      var previous := NamedLinks(c, current.value.sources);
      DeduplicateIdentities(o.view, previous);
      DeduplicateDistinct(o.view, previous);
      GuardMeansFifth(o.view, Deduplicate(o.view, previous), unique);
    }
    if |g.ages| > 0 {
      MinimumIsLeast(g.ages);
    }
  }

  lemma {:induction false} MinimumIsLeast(s: seq<Time>)
    requires |s| > 0
    ensures Minimum(s) in s && forall x :: x in s ==> Minimum(s) <= x
  {
    if |s| > 1 {
      MinimumIsLeast(s[..|s| - 1]);
      forall x | x in s ensures Minimum(s) <= x {
        MinimumLeast(s, x);
      }
    }
  }

  /** An uninterrupted refresh, from the catalogue it finds to the row it publishes. */
  function Refreshed(o: Options, c: Catalog, sources: seq<SourceId>, readings: seq<Reading>, now: Time): State {
    Run(o, State(c, Idle), [Begin(now, sources)] + ReadEvents(readings))
  }

  function GatheredBy(o: Options, c: Catalog, sources: seq<SourceId>, readings: seq<Reading>, now: Time): State {
    Run(o, State(c, Gathering(now, sources, NOTHING)), Reads(readings))
  }

  lemma {:induction false} ReadsThenPublish(o: Options, s: State, readings: seq<Reading>)
    ensures Run(o, s, ReadEvents(readings)) == Run(o, Run(o, s, Reads(readings)), [Observe, Publish])
    decreases |readings|
  {
    if |readings| > 0 {
      assert ReadEvents(readings)[1..] == ReadEvents(readings[1..]);
      assert Reads(readings)[1..] == Reads(readings[1..]);
      ReadsThenPublish(o, Step(o, s, ReadNext(readings[0])), readings[1..]);
    }
  }

  lemma RefreshPublishes(o: Options, c: Catalog, sources: seq<SourceId>, readings: seq<Reading>, now: Time)
    requires |readings| == |sources| && Distinct(sources)
    ensures
      var s := GatheredBy(o, c, sources, readings, now);
      && s.refresh.Gathering? && s.catalog.published == c.published
      && Refreshed(o, c, sources, readings, now)
         == State(AddPublished(s.catalog, Decide(o, s.catalog, s.refresh.gathered, Latest(c), now).0), Idle)
  {
    var start := State(c, Gathering(now, sources, NOTHING));
    RefreshGathers(o, c, NOTHING, sources, readings, now);
    assert ([Begin(now, sources)] + ReadEvents(readings))[1..] == ReadEvents(readings);
    assert Step(o, State(c, Idle), Begin(now, sources)) == start;
    ReadsThenPublish(o, start, readings);
    var s := GatheredBy(o, c, sources, readings, now);
    Observed(o, s.catalog, now, s.refresh.gathered);
  }

  /** A failed source whose newest snapshot stands in for it. */
  predicate FallsBack(
      c: Catalog, sources: seq<SourceId>, readings: seq<Reading>, now: Time, maxStale: int, k: nat)
    requires |readings| == |sources|
  {
    k < |sources| && readings[k].ReadFailed? && Contributes(c, sources[k], readings[k], now, maxStale)
  }

  /** An accepted refresh names exactly the sources it should, in the versions it should, and is fresh if
      and only if, of snapshots taken before it, it used none. */
  lemma AcceptedExactly(o: Options, c: Catalog, sources: seq<SourceId>, readings: seq<Reading>, now: Time)
    requires |readings| == |sources| && Distinct(sources)
    requires
      var s := GatheredBy(o, c, sources, readings, now);
      s.refresh.Gathering? && Decide(o, s.catalog, s.refresh.gathered, Latest(c), now).1.Accepted?
    ensures
      var d := Refreshed(o, c, sources, readings, now).catalog;
      && |d.published| == |c.published| + 1
      && var p := d.published[|c.published|];
         && (forall id :: id in p.sources ==> id in sources)
         && (forall k :: 0 <= k < |sources| ==>
               (sources[k] in p.sources <==> Contributes(c, sources[k], readings[k], now, o.maxStale)))
         && (forall k :: 0 <= k < |sources| && sources[k] in p.sources ==>
               && p.sources[sources[k]] == VersionUsed(c, sources[k], readings[k])
               && p.sources[sources[k]] < |SnapshotsOf(d, sources[k])|
               && Named(d, p.sources, sources[k]) == Contribution(c, sources[k], readings[k], now)
               && p.dataAsOf <= Contribution(c, sources[k], readings[k], now).createdAt)
         && ((forall id, v: nat :: v < |SnapshotsOf(c, id)| ==> SnapshotsOf(c, id)[v].createdAt < now) ==>
               (p.state.Fresh? <==> forall k: nat :: !FallsBack(c, sources, readings, now, o.maxStale, k)))
  {
    RefreshGathers(o, c, NOTHING, sources, readings, now);
    RefreshPublishes(o, c, sources, readings, now);
    var s := GatheredBy(o, c, sources, readings, now);
    var g := s.refresh.gathered;
    DecidedExactly(o, s.catalog, g, Latest(c), now);
    var d := Refreshed(o, c, sources, readings, now).catalog;
    var p := d.published[|c.published|];
    assert forall id :: SnapshotsOf(d, id) == SnapshotsOf(s.catalog, id);
    assert forall k :: 0 <= k < |sources| ==> UsedExactly(c, s.catalog, g, sources[k], readings[k], now, o.maxStale);
    forall id | id in p.sources ensures id in sources {
      assert id !in sources ==> Untouched(c, s.catalog, NOTHING, g, id);
    }
    GatheredSomething(o, c, sources, readings, now);
    if forall id, v: nat :: v < |SnapshotsOf(c, id)| ==> SnapshotsOf(c, id)[v].createdAt < now {
      FreshExactly(o, c, sources, readings, now, g, p);
    }
  }

  lemma FreshExactly(
      o: Options, c: Catalog, sources: seq<SourceId>, readings: seq<Reading>, now: Time, g: Gathered, p: Published)
    requires |readings| == |sources| && |g.ages| > 0
    requires forall id, v: nat :: v < |SnapshotsOf(c, id)| ==> SnapshotsOf(c, id)[v].createdAt < now
    requires forall age :: age in g.ages ==> AgeOf(c, NOTHING, sources, readings, now, o.maxStale, age)
    requires forall k :: 0 <= k < |sources| && Contributes(c, sources[k], readings[k], now, o.maxStale) ==>
               Contribution(c, sources[k], readings[k], now).createdAt in g.ages
    requires p.dataAsOf in g.ages && forall age :: age in g.ages ==> p.dataAsOf <= age
    requires p.state.Fresh? <==> p.dataAsOf == now
    ensures p.state.Fresh? <==> forall k: nat :: !FallsBack(c, sources, readings, now, o.maxStale, k)
  {
    if k: nat :| FallsBack(c, sources, readings, now, o.maxStale, k) {
      assert Newest(c, sources[k]).createdAt < now;
      assert Contribution(c, sources[k], readings[k], now).createdAt in g.ages;
    } else {
      var k :| 0 <= k < |sources| && Contributes(c, sources[k], readings[k], now, o.maxStale)
               && p.dataAsOf == Contribution(c, sources[k], readings[k], now).createdAt;
      assert !FallsBack(c, sources, readings, now, o.maxStale, k);
    }
  }

  /** Links come with an age. */
  lemma {:induction false} AgesWithLinks(
      o: Options, c: Catalog, g: Gathered, sources: seq<SourceId>, readings: seq<Reading>, now: Time)
    requires |readings| == |sources| && (g.merged != [] ==> |g.ages| > 0)
    ensures
      var s := Run(o, State(c, Gathering(now, sources, g)), Reads(readings));
      s.refresh.Gathering? && (s.refresh.gathered.merged != [] ==> |s.refresh.gathered.ages| > 0)
    decreases |sources|
  {
    if |sources| > 0 {
      var (d, h) := ReadSource(c, g, sources[0], readings[0], now, o.maxStale);
      ReadContributes(c, g, sources[0], readings[0], now, o.maxStale);
      assert Reads(readings)[1..] == Reads(readings[1..]);
      AgesWithLinks(o, d, h, sources[1..], readings[1..], now);
    }
  }

  lemma GatheredSomething(o: Options, c: Catalog, sources: seq<SourceId>, readings: seq<Reading>, now: Time)
    requires |readings| == |sources|
    ensures
      var s := GatheredBy(o, c, sources, readings, now);
      s.refresh.Gathering? && (s.refresh.gathered.merged != [] ==> |s.refresh.gathered.ages| > 0)
  {
    AgesWithLinks(o, c, NOTHING, sources, readings, now);
  }

  /* ---------- serving and rolling back ---------- */

  /** A catalogue is served if and only if the newest row is available, has links and is recent enough;
      and it is that row. */
  lemma ServedExactly(c: Catalog, now: Time, maxStale: int)
    ensures
      var served := Effective(c, now, maxStale);
      && (served.Some?
          <==> && |c.published| > 0
               && var p := c.published[|c.published| - 1];
                  !p.state.Unavailable? && p.links != [] && now - p.dataAsOf <= maxStale)
      && (served.Some? ==> served.value == c.published[|c.published| - 1])
  {
  }

  /** What an accepted refresh publishes is served until its data is too old. */
  lemma AcceptedIsServed(
      o: Options, c: Catalog, sources: seq<SourceId>, readings: seq<Reading>, now: Time, later: Time, maxStale: int)
    requires |readings| == |sources| && Distinct(sources)
    requires
      var s := GatheredBy(o, c, sources, readings, now);
      s.refresh.Gathering? && Decide(o, s.catalog, s.refresh.gathered, Latest(c), now).1.Accepted?
    ensures
      var d := Refreshed(o, c, sources, readings, now).catalog;
      && |d.published| == |c.published| + 1
      && var p := d.published[|c.published|];
         Effective(d, later, maxStale) == if p.links != [] && later - p.dataAsOf <= maxStale then Some(p) else None
  {
    RefreshPublishes(o, c, sources, readings, now);
    var s := GatheredBy(o, c, sources, readings, now);
    DecidedExactly(o, s.catalog, s.refresh.gathered, Latest(c), now);
    ServedExactly(Refreshed(o, c, sources, readings, now).catalog, later, maxStale);
  }

  /** The same catalogue, published at another time. */
  predicate SameCatalogue(p: Published, q: Published) {
    q.dataAsOf == p.dataAsOf && q.state == p.state && q.links == p.links && q.sources == p.sources
  }

  /** Rolling back brings the catalogue before the newest one to the front, keeps all history, and done
      twice brings the newest one back. */
  lemma RollbackAlternates(c: Catalog, now: Time, later: Time)
    requires |c.published| >= 2
    ensures
      var n := |c.published|;
      var once := Rollback(c, now);
      var twice := Rollback(once, later);
      && once.snapshots == c.snapshots && |once.published| == n + 1 && once.published[..n] == c.published
      && SameCatalogue(c.published[n - 2], once.published[n]) && once.published[n].createdAt == now
      && |twice.published| == n + 2
      && SameCatalogue(c.published[n - 1], twice.published[n + 1])
  {
  }

  lemma RollbackNeedsTwo(c: Catalog, now: Time)
    requires |c.published| < 2
    ensures Rollback(c, now) == c
  {
  }
}
