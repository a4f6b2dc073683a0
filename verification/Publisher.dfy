/** The catalogue publisher: refreshing from the sources, falling back to cached or republished
    data, rejecting anomalies, and rolling back, possibly in the middle of a refresh. */
module Publisher {
  import opened Text
  import opened Canonical
  import opened Ordering
  import opened NaturalOrder
  import opened Presentation

  type SourceId = int

  /** A source snapshot is inserted only after a successful read, and never changes. */
  datatype Snapshot = Snapshot(createdAt: Time, links: seq<string>)

  datatype PublishedState = Fresh | Stale | Unavailable

  datatype Published = Published(
    createdAt: Time,
    dataAsOf: Time,
    state: PublishedState,
    links: seq<string>,
    sources: map<SourceId, nat>)

  /** A version number is an index: versions are counted up and nothing is deleted. */
  datatype Catalog = Catalog(snapshots: map<SourceId, seq<Snapshot>>, published: seq<Published>)

  const NO_CATALOG := Catalog(map[], [])

  datatype Options = Options(view: View, maxServers: nat, maxStale: int)

  function SnapshotsOf(c: Catalog, id: SourceId): seq<Snapshot> {
    if id in c.snapshots then c.snapshots[id] else []
  }

  function AddSnapshot(c: Catalog, id: SourceId, s: Snapshot): Catalog {
    c.(snapshots := c.snapshots[id := SnapshotsOf(c, id) + [s]])
  }

  function AddPublished(c: Catalog, p: Published): Catalog {
    c.(published := c.published + [p])
  }

  function Latest(c: Catalog): Option<Published> {
    if |c.published| == 0 then None else Some(c.published[|c.published| - 1])
  }

  /** The newest snapshot of a source, unless it is too old. */
  function LatestUsable(c: Catalog, id: SourceId, now: Time, maxStale: int): (r: Option<nat>)
    ensures r.Some? ==> r.value < |SnapshotsOf(c, id)| && now - SnapshotsOf(c, id)[r.value].createdAt <= maxStale
  {
    var s := SnapshotsOf(c, id);
    if |s| == 0 || now - s[|s| - 1].createdAt > maxStale then None else Some(|s| - 1)
  }

  /* ---------- reading the sources ---------- */

  /** What the reader of a source returned: none registered, a list of links, or an error. */
  datatype Reading = ReaderMissing | ReadLinks(links: seq<string>) | ReadFailed

  datatype Gathered = Gathered(merged: seq<string>, sources: map<SourceId, nat>, ages: seq<Time>)

  const NOTHING := Gathered([], map[], [])

  /** One turn of the loop over the sources. */
  function ReadSource(
      c: Catalog, g: Gathered, id: SourceId, reading: Reading, now: Time, maxStale: int): (Catalog, Gathered)
  {
    match reading
    case ReaderMissing => (c, g)
    case ReadLinks(links) =>
      (AddSnapshot(c, id, Snapshot(now, links)),
       Gathered(g.merged + links, g.sources[id := |SnapshotsOf(c, id)|], g.ages + [now]))
    case ReadFailed =>
      var cached := LatestUsable(c, id, now, maxStale);
      if cached.None? then (c, g)
      else
        var s := SnapshotsOf(c, id)[cached.value];
        (c, Gathered(g.merged + s.links, g.sources[id := cached.value], g.ages + [s.createdAt]))
  }

  function Minimum(s: seq<Time>): Time
    requires |s| > 0
  {
    if |s| == 1 then s[0]
    else
      var rest := Minimum(s[..|s| - 1]);
      if s[|s| - 1] < rest then s[|s| - 1] else rest
  }

  /* ---------- recomputing a catalogue ---------- */

  /** The links of the snapshots that a version map names, in source order. */
  function NamedLinks(c: Catalog, sources: map<SourceId, nat>): seq<string> {
    LinksOf(c, sources, SortedKeys(sources.Keys))
  }

  function LinksOf(c: Catalog, sources: map<SourceId, nat>, ids: seq<SourceId>): seq<string> {
    if |ids| == 0 then []
    else
      (if ids[0] in sources && sources[ids[0]] < |SnapshotsOf(c, ids[0])|
       then SnapshotsOf(c, ids[0])[sources[ids[0]]].links else [])
      + LinksOf(c, sources, ids[1..])
  }

  /* ---------- the anomaly guard ---------- */

  function Identities(v: View, links: seq<string>): set<string> {
    set x | x in Elements(links) :: v.identity(x)
  }

  function Retained(v: View, previous: set<string>, candidate: seq<string>): nat {
    if |candidate| == 0 then 0
    else (if v.identity(candidate[0]) in previous then 1 else 0) + Retained(v, previous, candidate[1..])
  }

  function Ceiling(x: real): int {
    -(-x).Floor
  }

  predicate ShouldReject(v: View, previous: seq<string>, candidate: seq<string>) {
    |previous| >= 10 && |candidate| > 0
    && var ids := Identities(v, previous);
       Retained(v, ids, candidate) < Ceiling(|ids| as real * 0.2)
  }

  /** A fifth, rounded up: the guard rejects exactly when fewer than one in five identities of the
      previous catalogue are left. */
  lemma FifthRoundedUp(retained: nat, n: nat)
    ensures retained < Ceiling(n as real * 0.2) <==> 5 * retained < n
  {
    var x := n as real * 0.2;
    var f := (-x).Floor;
    assert f as real <= -x < f as real + 1.0;
    assert 5.0 * x == n as real;
  }

  lemma HeadIdentity(v: View, links: seq<string>)
    requires DistinctIdentities(v, links) && |links| > 0
    ensures DistinctIdentities(v, links[1..])
    ensures Identities(v, links) == {v.identity(links[0])} + Identities(v, links[1..])
    ensures v.identity(links[0]) !in Identities(v, links[1..])
  {
    assert links == [links[0]] + links[1..];
    ElementsCons(links[0], links[1..]);
    forall x | x in Elements(links[1..]) ensures v.identity(x) != v.identity(links[0]) {
      var k :| 0 <= k < |links[1..]| && links[1..][k] == x;
      assert links[k + 1] == x;
    }
  }

  lemma RetainedHead(id: string, rest: set<string>, previous: set<string>)
    requires id !in rest
    ensures |({id} + rest) * previous| == |rest * previous| + if id in previous then 1 else 0
  {
    if id in previous {
      assert ({id} + rest) * previous == {id} + rest * previous;
    } else {
      assert ({id} + rest) * previous == rest * previous;
    }
  }

  lemma {:induction false} RetainedCounts(v: View, previous: set<string>, candidate: seq<string>)
    requires DistinctIdentities(v, candidate)
    ensures Retained(v, previous, candidate) == |Identities(v, candidate) * previous|
  {
    if |candidate| > 0 {
      var id, rest := v.identity(candidate[0]), Identities(v, candidate[1..]);
      HeadIdentity(v, candidate);
      RetainedCounts(v, previous, candidate[1..]);
      RetainedHead(id, rest, previous);
    }
  }

  lemma {:induction false} IdentitiesCount(v: View, links: seq<string>)
    requires DistinctIdentities(v, links)
    ensures |Identities(v, links)| == |links|
  {
    if |links| > 0 {
      HeadIdentity(v, links);
      IdentitiesCount(v, links[1..]);
    }
  }

  /** What the guard decides, in terms of the two catalogues. */
  lemma GuardMeansFifth(v: View, previous: seq<string>, candidate: seq<string>)
    requires DistinctIdentities(v, previous) && DistinctIdentities(v, candidate)
    ensures ShouldReject(v, previous, candidate)
        <==> |previous| >= 10 && |candidate| > 0
             && 5 * |Identities(v, candidate) * Identities(v, previous)| < |previous|
  {
    IdentitiesCount(v, previous);
    RetainedCounts(v, Identities(v, previous), candidate);
    FifthRoundedUp(Retained(v, Identities(v, previous), candidate), |Identities(v, previous)|);
  }

  /* ---------- publishing ---------- */

  datatype Verdict = Republished | MadeUnavailable | Rejected | Accepted

  /** The row a refresh publishes, given the row that was latest when it looked. */
  function Decide(o: Options, c: Catalog, g: Gathered, current: Option<Published>, now: Time): (Published, Verdict) {
    var unique := Deduplicate(o.view, g.merged);
    var baseline := if current.None? then [] else Deduplicate(o.view, NamedLinks(c, current.value.sources));
    if |unique| == 0 then
      if current.Some? && |current.value.links| > 0 && now - current.value.dataAsOf <= o.maxStale then
        (Published(now, current.value.dataAsOf, Stale, current.value.links, current.value.sources), Republished)
      else (Published(now, now, Unavailable, [], g.sources), MadeUnavailable)
    else if current.Some? && ShouldReject(o.view, baseline, unique) then
      (Published(now, current.value.dataAsOf, Stale, current.value.links, current.value.sources), Rejected)
    else
      var dataAsOf := if |g.ages| == 0 then now else Minimum(g.ages);
      (Published(now, dataAsOf, if dataAsOf == now then Fresh else Stale,
                 Build(o.view, unique, o.maxServers), g.sources), Accepted)
  }

  function Rollback(c: Catalog, now: Time): Catalog {
    if |c.published| < 2 then c
    else
      var previous := c.published[|c.published| - 2];
      AddPublished(c, previous.(createdAt := now))
  }

  /** The catalogue that is served, if any. */
  function Effective(c: Catalog, now: Time, maxStale: int): Option<Published> {
    var latest := Latest(c);
    if latest.None? || latest.value.state.Unavailable? || |latest.value.links| == 0
       || now - latest.value.dataAsOf > maxStale then None
    else latest
  }

  /* ---------- runs ---------- */

  /** How far the one refresh that may be running has got. */
  datatype Refresh =
    | Idle
    | Gathering(started: Time, remaining: seq<SourceId>, gathered: Gathered)
    | Deciding(started: Time, gathered: Gathered, current: Option<Published>)

  datatype State = State(catalog: Catalog, refresh: Refresh)

  datatype Event =
    | Begin(now: Time, sources: seq<SourceId>)
    | ReadNext(reading: Reading)
    | Observe
    | Publish
    | Abort
    | SaveTest(id: SourceId, links: seq<string>, now: Time)
    | RollBack(now: Time)

  /** An event that does not apply leaves the state alone.  A rollback or a source test takes the
      write lock only, so it may come between any two steps of a refresh. */
  function Step(o: Options, s: State, e: Event): State {
    match e
    case Begin(now, sources) =>
      if s.refresh.Idle? && Distinct(sources) then s.(refresh := Gathering(now, sources, NOTHING)) else s
    case ReadNext(reading) =>
      if s.refresh.Gathering? && |s.refresh.remaining| > 0 then
        var r := s.refresh;
        var (c, g) := ReadSource(s.catalog, r.gathered, r.remaining[0], reading, r.started, o.maxStale);
        State(c, Gathering(r.started, r.remaining[1..], g))
      else s
    case Observe =>
      if s.refresh.Gathering? && |s.refresh.remaining| == 0 then
        s.(refresh := Deciding(s.refresh.started, s.refresh.gathered, Latest(s.catalog)))
      else s
    case Publish =>
      if s.refresh.Deciding? then
        var r := s.refresh;
        State(AddPublished(s.catalog, Decide(o, s.catalog, r.gathered, r.current, r.started).0), Idle)
      else s
    case Abort => s.(refresh := Idle)
    case SaveTest(id, links, now) => s.(catalog := AddSnapshot(s.catalog, id, Snapshot(now, links)))
    case RollBack(now) => s.(catalog := Rollback(s.catalog, now))
  }

  function Run(o: Options, s: State, events: seq<Event>): State
    decreases |events|
  {
    if |events| == 0 then s else Run(o, Step(o, s, events[0]), events[1..])
  }
}
