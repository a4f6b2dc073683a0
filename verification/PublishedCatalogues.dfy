/** What holds of every published row, over every interleaving of refreshes, source tests and
    rollbacks. */
module PublishedCatalogues {
  import opened Text
  import opened Canonical
  import opened Ordering
  import opened NaturalOrder
  import opened Presentation
  import opened Publisher

  /* ---------- named snapshots ---------- */

  ghost predicate NamedExist(c: Catalog, sources: map<SourceId, nat>) {
    forall id :: id in sources ==> sources[id] < |SnapshotsOf(c, id)|
  }

  function Named(c: Catalog, sources: map<SourceId, nat>, id: SourceId): Snapshot
    requires id in sources && sources[id] < |SnapshotsOf(c, id)|
  {
    SnapshotsOf(c, id)[sources[id]]
  }

  /** A link of a snapshot that a version map names. */
  ghost predicate FromNamed(c: Catalog, sources: map<SourceId, nat>, x: string) {
    exists id :: id in sources && sources[id] < |SnapshotsOf(c, id)| && x in Elements(Named(c, sources, id).links)
  }

  lemma {:induction false} LinksOfElements(c: Catalog, sources: map<SourceId, nat>, ids: seq<SourceId>, x: string)
    ensures x in Elements(LinksOf(c, sources, ids))
        <==> exists id :: id in ids && id in sources && sources[id] < |SnapshotsOf(c, id)|
                          && x in Elements(Named(c, sources, id).links)
  {
    if |ids| > 0 {
      var first := if ids[0] in sources && sources[ids[0]] < |SnapshotsOf(c, ids[0])|
                   then Named(c, sources, ids[0]).links else [];
      ElementsAppend(first, LinksOf(c, sources, ids[1..]));
      LinksOfElements(c, sources, ids[1..], x);
      assert forall id :: id in ids <==> id == ids[0] || id in ids[1..];
    }
  }

  /** Recomputing a catalogue collects exactly the links of the named snapshots. */
  lemma NamedLinksElements(c: Catalog, sources: map<SourceId, nat>, x: string)
    ensures x in Elements(NamedLinks(c, sources)) <==> FromNamed(c, sources, x)
  {
    LinksOfElements(c, sources, SortedKeys(sources.Keys), x);
  }

  /* ---------- snapshots never change ---------- */

  ghost predicate Extends(c: Catalog, d: Catalog) {
    forall id :: |SnapshotsOf(c, id)| <= |SnapshotsOf(d, id)|
                 && SnapshotsOf(d, id)[..|SnapshotsOf(c, id)|] == SnapshotsOf(c, id)
  }

  lemma {:induction false} LinksOfStable(c: Catalog, d: Catalog, sources: map<SourceId, nat>, ids: seq<SourceId>)
    requires Extends(c, d) && NamedExist(c, sources)
    ensures LinksOf(d, sources, ids) == LinksOf(c, sources, ids)
  {
    if |ids| > 0 {
      LinksOfStable(c, d, sources, ids[1..]);
      NamedStable(c, d, sources, ids[0]);
    }
  }

  lemma NamedStable(c: Catalog, d: Catalog, sources: map<SourceId, nat>, id: SourceId)
    requires Extends(c, d) && NamedExist(c, sources)
    ensures id in sources ==> sources[id] < |SnapshotsOf(d, id)| && Named(d, sources, id) == Named(c, sources, id)
  {
    if id in sources {
      var s, t := SnapshotsOf(c, id), SnapshotsOf(d, id);
      assert t[..|s|][sources[id]] == s[sources[id]];
    }
  }

  lemma AddExtends(c: Catalog, id: SourceId, s: Snapshot)
    ensures Extends(c, AddSnapshot(c, id, s))
  {
  }

  lemma ReadExtends(c: Catalog, g: Gathered, id: SourceId, reading: Reading, now: Time, maxStale: int)
    ensures Extends(c, ReadSource(c, g, id, reading, now, maxStale).0)
    ensures ReadSource(c, g, id, reading, now, maxStale).0.published == c.published
  {
  }

  /* ---------- what one refresh has gathered ---------- */

  ghost predicate Aged(c: Catalog, sources: map<SourceId, nat>, dataAsOf: Time) {
    forall id :: id in sources && sources[id] < |SnapshotsOf(c, id)| ==> dataAsOf <= Named(c, sources, id).createdAt
  }

  ghost predicate AgesOf(c: Catalog, sources: map<SourceId, nat>, ages: seq<Time>) {
    forall id :: id in sources && sources[id] < |SnapshotsOf(c, id)| ==> Named(c, sources, id).createdAt in ages
  }

  /** Every source of a version map, once. */
  ghost predicate Lists(ids: seq<SourceId>, sources: map<SourceId, nat>) {
    Distinct(ids) && forall id :: id in ids <==> id in sources
  }

  /** The sources were read in this order. */
  ghost predicate ReadIn(c: Catalog, g: Gathered, ids: seq<SourceId>) {
    Lists(ids, g.sources) && g.merged == LinksOf(c, g.sources, ids)
  }

  /** The gathered links are those of the named snapshots, in some order of the sources, and the ages
      of the snapshots are all recorded. */
  ghost predicate GoodGathered(c: Catalog, g: Gathered) {
    NamedExist(c, g.sources) && AgesOf(c, g.sources, g.ages) && exists ids :: ReadIn(c, g, ids)
  }

  lemma GatheredElements(c: Catalog, g: Gathered, x: string)
    requires GoodGathered(c, g)
    ensures x in Elements(g.merged) <==> FromNamed(c, g.sources, x)
  {
    var ids :| ReadIn(c, g, ids);
    LinksOfElements(c, g.sources, ids, x);
  }

  lemma GatheredStable(c: Catalog, d: Catalog, g: Gathered)
    requires Extends(c, d) && GoodGathered(c, g)
    ensures GoodGathered(d, g)
  {
    forall id | id in g.sources ensures SameNamed(c, d, g, id) {
      NamedStable(c, d, g.sources, id);
    }
    var ids :| ReadIn(c, g, ids);
    LinksOfStable(c, d, g.sources, ids);
    assert ReadIn(d, g, ids);
  }

  predicate SameNamed(c: Catalog, d: Catalog, g: Gathered, id: SourceId) {
    id in g.sources && g.sources[id] < |SnapshotsOf(c, id)| && g.sources[id] < |SnapshotsOf(d, id)|
    && Named(d, g.sources, id) == Named(c, g.sources, id)
  }

  lemma FromNamedStable(c: Catalog, d: Catalog, sources: map<SourceId, nat>, x: string)
    requires Extends(c, d) && NamedExist(c, sources)
    ensures FromNamed(c, sources, x) <==> FromNamed(d, sources, x)
  {
    if FromNamed(c, sources, x) {
      var id :| id in sources && sources[id] < |SnapshotsOf(c, id)| && x in Elements(Named(c, sources, id).links);
      NamedStable(c, d, sources, id);
    }
    if FromNamed(d, sources, x) {
      var id :| id in sources && sources[id] < |SnapshotsOf(d, id)| && x in Elements(Named(d, sources, id).links);
      NamedStable(c, d, sources, id);
    }
  }

  lemma {:induction false} LinksOfOthers(
      c: Catalog, sources: map<SourceId, nat>, id: SourceId, v: nat, ids: seq<SourceId>)
    requires id !in ids
    ensures LinksOf(c, sources[id := v], ids) == LinksOf(c, sources, ids)
  {
    if |ids| > 0 {
      LinksOfOthers(c, sources, id, v, ids[1..]);
    }
  }

  lemma {:induction false} LinksOfLast(c: Catalog, sources: map<SourceId, nat>, ids: seq<SourceId>, id: SourceId)
    requires id in sources && sources[id] < |SnapshotsOf(c, id)|
    ensures LinksOf(c, sources, ids + [id]) == LinksOf(c, sources, ids) + Named(c, sources, id).links
  {
    if |ids| == 0 {
      assert ids + [id] == [id];
      assert LinksOf(c, sources, [id][1..]) == [];
    } else {
      assert (ids + [id])[1..] == ids[1..] + [id];
      LinksOfLast(c, sources, ids[1..], id);
    }
  }

  /** Using version v of a source that was not used before. */
  lemma UseSnapshot(c: Catalog, g: Gathered, id: SourceId, v: nat)
    requires GoodGathered(c, g) && id !in g.sources && v < |SnapshotsOf(c, id)|
    ensures
      var s := SnapshotsOf(c, id)[v];
      GoodGathered(c, Gathered(g.merged + s.links, g.sources[id := v], g.ages + [s.createdAt]))
  {
    var s := SnapshotsOf(c, id)[v];
    var sources := g.sources[id := v];
    var ids :| ReadIn(c, g, ids);
    LinksOfOthers(c, g.sources, id, v, ids);
    LinksOfLast(c, sources, ids, id);
    assert ReadIn(c, Gathered(g.merged + s.links, sources, g.ages + [s.createdAt]), ids + [id]);
    forall other | other in sources && sources[other] < |SnapshotsOf(c, other)|
      ensures Named(c, sources, other).createdAt in g.ages + [s.createdAt]
    {
      if other != id {
        assert Named(c, g.sources, other).createdAt in g.ages;
      }
    }
  }

  lemma NothingGathered(c: Catalog)
    ensures GoodGathered(c, NOTHING)
  {
    assert ReadIn(c, NOTHING, []);
  }

  lemma ReadGathers(c: Catalog, g: Gathered, id: SourceId, reading: Reading, now: Time, maxStale: int)
    requires GoodGathered(c, g) && id !in g.sources
    ensures
      var (d, h) := ReadSource(c, g, id, reading, now, maxStale);
      GoodGathered(d, h) && h.sources.Keys <= g.sources.Keys + {id}
  {
    match reading
    case ReaderMissing =>
    case ReadLinks(links) =>
      var s := Snapshot(now, links);
      var d := AddSnapshot(c, id, s);
      AddExtends(c, id, s);
      GatheredStable(c, d, g);
      assert SnapshotsOf(d, id)[|SnapshotsOf(c, id)|] == s;
      UseSnapshot(d, g, id, |SnapshotsOf(c, id)|);
    case ReadFailed =>
      var cached := LatestUsable(c, id, now, maxStale);
      if cached.Some? {
        UseSnapshot(c, g, id, cached.value);
      }
  }

  lemma {:induction false} MinimumLeast(s: seq<Time>, x: Time)
    requires x in s
    ensures Minimum(s) <= x
  {
    if |s| > 1 && x != s[|s| - 1] {
      assert x in s[..|s| - 1];
      MinimumLeast(s[..|s| - 1], x);
    }
  }

  /* ---------- honest rows ---------- */

  /** Every link comes from a named snapshot, and no named snapshot is older than the row says its
      data is. */
  ghost predicate Honest(c: Catalog, p: Published) {
    NamedExist(c, p.sources)
    && (forall x :: x in Elements(p.links) ==> FromNamed(c, p.sources, x))
    && (|p.links| > 0 ==> Aged(c, p.sources, p.dataAsOf))
  }

  lemma HonestStable(c: Catalog, d: Catalog, p: Published)
    requires Extends(c, d) && Honest(c, p)
    ensures Honest(d, p)
  {
    forall id | id in p.sources ensures p.sources[id] < |SnapshotsOf(d, id)|
                                    && Named(d, p.sources, id) == Named(c, p.sources, id) {
      NamedStable(c, d, p.sources, id);
    }
    forall x | x in Elements(p.links) ensures FromNamed(d, p.sources, x) {
      FromNamedStable(c, d, p.sources, x);
    }
  }

  lemma TakeElements<T>(s: seq<T>, n: nat, x: T)
    requires x in Elements(Take(s, n))
    ensures x in Elements(s)
  {
    var i :| 0 <= i < |Take(s, n)| && Take(s, n)[i] == x;
    assert s[i] == x;
  }

  lemma BuildElements(v: View, links: seq<string>, max: nat, x: string)
    requires x in Elements(Build(v, links, max))
    ensures x in Elements(links)
  {
    var all := Deduplicate(v, links);
    TakeElements(Sort(all, ByPresentation(v)), max, x);
    SortElements(all, ByPresentation(v));
    DeduplicateElements(v, links);
  }

  /** A freshly built row is as old as the oldest snapshot that went into it. */
  lemma AcceptedHonest(o: Options, c: Catalog, g: Gathered, now: Time, p: Published)
    requires GoodGathered(c, g)
    requires p.sources == g.sources && p.links == Build(o.view, Deduplicate(o.view, g.merged), o.maxServers)
    requires p.dataAsOf == if |g.ages| == 0 then now else Minimum(g.ages)
    ensures Honest(c, p)
  {
    forall x | x in Elements(p.links) ensures FromNamed(c, p.sources, x) {
      BuildElements(o.view, Deduplicate(o.view, g.merged), o.maxServers, x);
      DeduplicateElements(o.view, g.merged);
      GatheredElements(c, g, x);
    }
    forall id | id in p.sources && p.sources[id] < |SnapshotsOf(c, id)|
      ensures p.dataAsOf <= Named(c, p.sources, id).createdAt
    {
      assert Named(c, g.sources, id).createdAt in g.ages;
      MinimumLeast(g.ages, Named(c, g.sources, id).createdAt);
    }
  }

  lemma DecideHonest(o: Options, c: Catalog, g: Gathered, current: Option<Published>, now: Time)
    requires GoodGathered(c, g) && (current.Some? ==> Honest(c, current.value))
    ensures Honest(c, Decide(o, c, g, current, now).0)
  {
    var (p, verdict) := Decide(o, c, g, current, now);
    if verdict.Accepted? {
      AcceptedHonest(o, c, g, now, p);
    }
  }

  ghost predicate AllHonest(c: Catalog) {
    forall i :: 0 <= i < |c.published| ==> Honest(c, c.published[i])
  }

  ghost predicate GoodRefresh(c: Catalog, r: Refresh) {
    match r
    case Idle => true
    case Gathering(_, remaining, g) =>
      GoodGathered(c, g) && Distinct(remaining) && forall id :: id in remaining ==> id !in g.sources
    case Deciding(_, g, current) => GoodGathered(c, g) && (current.Some? ==> Honest(c, current.value))
  }

  ghost predicate Sound(s: State) {
    AllHonest(s.catalog) && GoodRefresh(s.catalog, s.refresh)
  }

  lemma SoundStable(s: State, d: Catalog)
    requires Sound(s) && Extends(s.catalog, d) && d.published == s.catalog.published
    ensures Sound(s.(catalog := d))
  {
    forall i | 0 <= i < |d.published| ensures Honest(d, d.published[i]) {
      HonestStable(s.catalog, d, s.catalog.published[i]);
    }
    match s.refresh
    case Idle =>
    case Gathering(_, _, g) => GatheredStable(s.catalog, d, g);
    case Deciding(_, g, current) =>
      GatheredStable(s.catalog, d, g);
      if current.Some? {
        HonestStable(s.catalog, d, current.value);
      }
  }

  lemma SoundPublish(s: State, p: Published)
    requires Sound(s) && Honest(s.catalog, p)
    ensures Sound(s.(catalog := AddPublished(s.catalog, p)))
  {
    var c, d := s.catalog, AddPublished(s.catalog, p);
    assert Extends(c, d);
    SoundStable(s, Catalog(d.snapshots, c.published));
    HonestStable(c, d, p);
    forall i | 0 <= i < |d.published| ensures Honest(d, d.published[i]) {
      if i < |c.published| {
        HonestStable(c, d, c.published[i]);
      }
    }
    match s.refresh
    case Idle =>
    case Gathering(_, _, g) => GatheredStable(c, d, g);
    case Deciding(_, g, current) =>
      GatheredStable(c, d, g);
      if current.Some? {
        HonestStable(c, d, current.value);
      }
  }

  lemma ReadNextSound(o: Options, s: State, reading: Reading)
    requires Sound(s) && s.refresh.Gathering? && |s.refresh.remaining| > 0
    ensures Sound(Step(o, s, ReadNext(reading)))
  {
    var r, c := s.refresh, s.catalog;
    var (d, g) := ReadSource(c, r.gathered, r.remaining[0], reading, r.started, o.maxStale);
    ReadExtends(c, r.gathered, r.remaining[0], reading, r.started, o.maxStale);
    ReadGathers(c, r.gathered, r.remaining[0], reading, r.started, o.maxStale);
    SoundStable(s.(refresh := Idle), d);
    forall id | id in r.remaining[1..] ensures id !in g.sources {
      var k :| 0 <= k < |r.remaining[1..]| && r.remaining[1..][k] == id;
      assert r.remaining[k + 1] == id && r.remaining[0] != r.remaining[k + 1];
    }
  }

  lemma StepSound(o: Options, s: State, e: Event)
    requires Sound(s)
    ensures Sound(Step(o, s, e))
  {
    match e
    case Begin(_, _) => NothingGathered(s.catalog);
    case ReadNext(reading) =>
      if s.refresh.Gathering? && |s.refresh.remaining| > 0 {
        ReadNextSound(o, s, reading);
      }
    case Observe =>
    case Publish =>
      if s.refresh.Deciding? {
        var r := s.refresh;
        DecideHonest(o, s.catalog, r.gathered, r.current, r.started);
        SoundPublish(s.(refresh := Idle), Decide(o, s.catalog, r.gathered, r.current, r.started).0);
      }
    case Abort =>
    case SaveTest(id, links, now) =>
      AddExtends(s.catalog, id, Snapshot(now, links));
      SoundStable(s, AddSnapshot(s.catalog, id, Snapshot(now, links)));
    case RollBack(now) =>
      if |s.catalog.published| >= 2 {
        var previous := s.catalog.published[|s.catalog.published| - 2];
        assert Honest(s.catalog, previous.(createdAt := now));
        SoundPublish(s, previous.(createdAt := now));
      }
  }

  lemma {:induction false} RunSound(o: Options, s: State, events: seq<Event>)
    requires Sound(s)
    ensures Sound(Run(o, s, events))
    decreases |events|
  {
    if |events| > 0 {
      StepSound(o, s, events[0]);
      RunSound(o, Step(o, s, events[0]), events[1..]);
    }
  }

  const START := State(NO_CATALOG, Idle)

  /** A link that some snapshot contained within the maximum staleness. */
  ghost predicate RecentLink(c: Catalog, x: string, now: Time, maxStale: int) {
    exists id: SourceId, v: nat :: v < |SnapshotsOf(c, id)| && x in Elements(SnapshotsOf(c, id)[v].links)
                                   && now - SnapshotsOf(c, id)[v].createdAt <= maxStale
  }

  lemma HonestMeansRecent(c: Catalog, p: Published, x: string, now: Time, maxStale: int)
    requires Honest(c, p) && x in Elements(p.links) && now - p.dataAsOf <= maxStale
    ensures RecentLink(c, x, now, maxStale)
  {
    var id :| id in p.sources && p.sources[id] < |SnapshotsOf(c, id)| && x in Elements(Named(c, p.sources, id).links);
    assert p.dataAsOf <= Named(c, p.sources, id).createdAt;
  }

  /** Freshness is honest: whatever is served at a time was read no earlier than the maximum
      staleness before it, for every link in it and under every interleaving. */
  lemma ServedLinksAreRecent(o: Options, events: seq<Event>, now: Time, x: string)
    requires Effective(Run(o, START, events).catalog, now, o.maxStale).Some?
    requires x in Elements(Effective(Run(o, START, events).catalog, now, o.maxStale).value.links)
    ensures RecentLink(Run(o, START, events).catalog, x, now, o.maxStale)
  {
    RunSound(o, START, events);
    var c := Run(o, START, events).catalog;
    assert Honest(c, c.published[|c.published| - 1]);
    HonestMeansRecent(c, Effective(c, now, o.maxStale).value, x, now, o.maxStale);
  }

  /* ---------- rows agree with recomputation ---------- */

  /** The row is what the snapshots it names give when the sources are read in this order. */
  ghost predicate Recomputes(o: Options, c: Catalog, p: Published, ids: seq<SourceId>) {
    Lists(ids, p.sources) && p.links == Build(o.view, LinksOf(c, p.sources, ids), o.maxServers)
  }

  ghost predicate Derived(o: Options, c: Catalog, p: Published) {
    NamedExist(c, p.sources) && exists ids :: Recomputes(o, c, p, ids)
  }

  /** What is gathered, once deduplicated, publishes what the named snapshots give in reading order. */
  lemma GatheredRecomputes(o: Options, c: Catalog, g: Gathered, p: Published)
    requires GoodGathered(c, g) && p.sources == g.sources
    requires p.links == Build(o.view, Deduplicate(o.view, g.merged), o.maxServers)
    ensures Derived(o, c, p)
  {
    var ids :| ReadIn(c, g, ids);
    DeduplicateTwice(o.view, g.merged);
    assert Recomputes(o, c, p, ids);
  }

  lemma NothingToBuild(v: View, links: seq<string>, max: nat)
    requires |Deduplicate(v, links)| == 0
    ensures links == [] && Build(v, links, max) == []
  {
  }

  lemma DecideDerived(o: Options, c: Catalog, g: Gathered, current: Option<Published>, now: Time)
    requires GoodGathered(c, g) && (current.Some? ==> Derived(o, c, current.value))
    ensures Derived(o, c, Decide(o, c, g, current, now).0)
  {
    var (p, verdict) := Decide(o, c, g, current, now);
    if verdict.MadeUnavailable? {
      NothingToBuild(o.view, g.merged, o.maxServers);
      GatheredRecomputes(o, c, g, p);
    } else if verdict.Accepted? {
      GatheredRecomputes(o, c, g, p);
    } else {
      SameDerived(o, c, current.value, p);
    }
  }

  lemma SameDerived(o: Options, c: Catalog, p: Published, q: Published)
    requires Derived(o, c, p) && q.links == p.links && q.sources == p.sources
    ensures Derived(o, c, q)
  {
    var ids :| Recomputes(o, c, p, ids);
    assert Recomputes(o, c, q, ids);
  }

  lemma DerivedStable(o: Options, c: Catalog, d: Catalog, p: Published)
    requires Extends(c, d) && Derived(o, c, p)
    ensures Derived(o, d, p)
  {
    var ids :| Recomputes(o, c, p, ids);
    LinksOfStable(c, d, p.sources, ids);
    assert Recomputes(o, d, p, ids);
    forall id | id in p.sources ensures p.sources[id] < |SnapshotsOf(d, id)| {
      NamedStable(c, d, p.sources, id);
    }
  }

  /** Every published row, and the row a running refresh has observed, is derived. */
  ghost predicate AllDerived(o: Options, s: State) {
    (forall i :: 0 <= i < |s.catalog.published| ==> Derived(o, s.catalog, s.catalog.published[i]))
    && (s.refresh.Deciding? && s.refresh.current.Some? ==> Derived(o, s.catalog, s.refresh.current.value))
  }

  lemma AllDerivedStable(o: Options, s: State, d: Catalog)
    requires AllDerived(o, s) && Extends(s.catalog, d)
    ensures forall i :: 0 <= i < |s.catalog.published| ==> Derived(o, d, s.catalog.published[i])
    ensures s.refresh.Deciding? && s.refresh.current.Some? ==> Derived(o, d, s.refresh.current.value)
  {
    forall i | 0 <= i < |s.catalog.published| ensures Derived(o, d, s.catalog.published[i]) {
      DerivedStable(o, s.catalog, d, s.catalog.published[i]);
    }
    if s.refresh.Deciding? && s.refresh.current.Some? {
      DerivedStable(o, s.catalog, d, s.refresh.current.value);
    }
  }

  lemma PublishDerived(o: Options, s: State)
    requires Sound(s) && AllDerived(o, s) && s.refresh.Deciding?
    ensures AllDerived(o, Step(o, s, Publish))
  {
    var r := s.refresh;
    var p := Decide(o, s.catalog, r.gathered, r.current, r.started).0;
    var d := AddPublished(s.catalog, p);
    assert Extends(s.catalog, d);
    AllDerivedStable(o, s, d);
    DecideDerived(o, s.catalog, r.gathered, r.current, r.started);
    DerivedStable(o, s.catalog, d, p);
  }

  lemma RollBackDerived(o: Options, s: State, now: Time)
    requires Sound(s) && AllDerived(o, s)
    ensures AllDerived(o, Step(o, s, RollBack(now)))
  {
    var d := Rollback(s.catalog, now);
    assert Extends(s.catalog, d);
    AllDerivedStable(o, s, d);
    if |s.catalog.published| >= 2 {
      var previous := s.catalog.published[|s.catalog.published| - 2];
      SameDerived(o, d, previous, previous.(createdAt := now));
    }
  }

  lemma ReadNextDerived(o: Options, s: State, reading: Reading)
    requires Sound(s) && AllDerived(o, s)
    requires s.refresh.Gathering? && |s.refresh.remaining| > 0
    ensures AllDerived(o, Step(o, s, ReadNext(reading)))
  {
    var r := s.refresh;
    var d := ReadSource(s.catalog, r.gathered, r.remaining[0], reading, r.started, o.maxStale).0;
    ReadExtends(s.catalog, r.gathered, r.remaining[0], reading, r.started, o.maxStale);
    AllDerivedStable(o, s, d);
  }

  lemma StepDerived(o: Options, s: State, e: Event)
    requires Sound(s) && AllDerived(o, s)
    ensures AllDerived(o, Step(o, s, e))
  {
    match e
    case Publish =>
      if s.refresh.Deciding? {
        PublishDerived(o, s);
      }
    case RollBack(now) => RollBackDerived(o, s, now);
    case ReadNext(reading) =>
      if s.refresh.Gathering? && |s.refresh.remaining| > 0 {
        ReadNextDerived(o, s, reading);
      }
    case SaveTest(id, links, now) =>
      var d := AddSnapshot(s.catalog, id, Snapshot(now, links));
      AddExtends(s.catalog, id, Snapshot(now, links));
      AllDerivedStable(o, s, d);
    case _ =>
  }

  lemma {:induction false} RunDerived(o: Options, s: State, events: seq<Event>)
    requires Sound(s) && AllDerived(o, s)
    ensures AllDerived(o, Run(o, s, events)) && Sound(Run(o, s, events))
    decreases |events|
  {
    if |events| > 0 {
      StepSound(o, s, events[0]);
      StepDerived(o, s, events[0]);
      RunDerived(o, Step(o, s, events[0]), events[1..]);
    }
  }

  /** Agreement with recomputation: through fresh, cached, republished, rejected and rolled-back
      rows alike, whatever is published is rebuilt, link for link, from the snapshots that the row
      itself names, read in some order of its sources ... */
  lemma PublishedIsRecomputed(o: Options, events: seq<Event>, i: nat)
    requires i < |Run(o, START, events).catalog.published|
    ensures Derived(o, Run(o, START, events).catalog, Run(o, START, events).catalog.published[i])
  {
    RunDerived(o, START, events);
  }

  /** ... and in every order, unless three of its representatives compare in a circle. */
  lemma RecomputedInAnyOrder(o: Options, events: seq<Event>, i: nat, ids: seq<SourceId>)
    requires i < |Run(o, START, events).catalog.published|
    requires
      var c := Run(o, START, events).catalog;
      Lists(ids, c.published[i].sources) && Orderable(o.view, Elements(NamedLinks(c, c.published[i].sources)))
    ensures
      var c := Run(o, START, events).catalog;
      Recomputes(o, c, c.published[i], ids)
  {
    PublishedIsRecomputed(o, events, i);
    var c := Run(o, START, events).catalog;
    var p := c.published[i];
    var read :| Recomputes(o, c, p, read);
    SameLinks(c, p.sources, read, SortedKeys(p.sources.Keys));
    SameLinks(c, p.sources, read, ids);
    BuildIgnoresOrder(o.view, LinksOf(c, p.sources, read), LinksOf(c, p.sources, ids), o.maxServers);
  }

  lemma SameLinks(c: Catalog, sources: map<SourceId, nat>, ids: seq<SourceId>, others: seq<SourceId>)
    requires forall id :: id in ids <==> id in others
    ensures Elements(LinksOf(c, sources, ids)) == Elements(LinksOf(c, sources, others))
  {
    forall x ensures x in Elements(LinksOf(c, sources, ids)) <==> x in Elements(LinksOf(c, sources, others)) {
      LinksOfElements(c, sources, ids, x);
      LinksOfElements(c, sources, others, x);
    }
  }

  /* ---------- the anomaly guard over runs ---------- */

  /** The identities in the full catalogue behind a row. */
  function Behind(o: Options, c: Catalog, p: Published): set<string> {
    Identities(o.view, NamedLinks(c, p.sources))
  }

  lemma DeduplicateIdentities(v: View, links: seq<string>)
    ensures Identities(v, Deduplicate(v, links)) == Identities(v, links)
    ensures |Identities(v, links)| == |Deduplicate(v, links)|
  {
    DeduplicateElements(v, links);
    forall x | x in Elements(links) ensures v.identity(x) in Identities(v, Deduplicate(v, links)) {
      IdentityRepresented(v, links, x);
    }
    DeduplicateDistinct(v, links);
    IdentitiesCount(v, Deduplicate(v, links));
  }

  /** What a refresh publishes over the row it observed: that row's catalogue again, an unavailable
      row, or a catalogue that keeps at least a fifth of ten or more identities.  So a rejected or
      failed refresh leaves the baseline of the next one where it was. */
  ghost predicate KeepsBaseline(o: Options, c: Catalog, g: Gathered, current: Published, now: Time) {
    var (p, verdict) := Decide(o, c, g, Some(current), now);
    match verdict
    case Republished => Behind(o, c, p) == Behind(o, c, current) && p.links == current.links
    case Rejected => Behind(o, c, p) == Behind(o, c, current) && p.links == current.links
                     && 5 * |Identities(o.view, g.merged) * Behind(o, c, current)| < |Behind(o, c, current)|
    case MadeUnavailable => p.state.Unavailable? && p.links == [] && Behind(o, c, p) == {}
    case Accepted => |Behind(o, c, current)| >= 10 ==>
                       5 * |Behind(o, c, p) * Behind(o, c, current)| >= |Behind(o, c, current)|
  }

  lemma BaselineKept(o: Options, c: Catalog, g: Gathered, current: Published, now: Time)
    requires GoodGathered(c, g)
    ensures KeepsBaseline(o, c, g, current, now)
  {
    var verdict := Decide(o, c, g, Some(current), now).1;
    var previous := NamedLinks(c, current.sources);
    forall x ensures x in Elements(g.merged) <==> x in Elements(NamedLinks(c, g.sources)) {
      GatheredElements(c, g, x);
      NamedLinksElements(c, g.sources, x);
    }
    assert Elements(g.merged) == Elements(NamedLinks(c, g.sources));
    DeduplicateIdentities(o.view, g.merged);
    DeduplicateIdentities(o.view, previous);
    DeduplicateDistinct(o.view, g.merged);
    DeduplicateDistinct(o.view, previous);
    GuardMeansFifth(o.view, Deduplicate(o.view, previous), Deduplicate(o.view, g.merged));
    if verdict.MadeUnavailable? {
      NothingToBuild(o.view, g.merged, 0);
    }
  }

  /** ... in every state a run can reach. */
  lemma RefreshKeepsBaseline(o: Options, events: seq<Event>)
    requires Run(o, START, events).refresh.Deciding? && Run(o, START, events).refresh.current.Some?
    ensures
      var s := Run(o, START, events);
      KeepsBaseline(o, s.catalog, s.refresh.gathered, s.refresh.current.value, s.refresh.started)
  {
    RunSound(o, START, events);
    var s := Run(o, START, events);
    BaselineKept(o, s.catalog, s.refresh.gathered, s.refresh.current.value, s.refresh.started);
  }
}
