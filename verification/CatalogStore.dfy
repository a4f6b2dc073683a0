/** The catalogue tables and the operations on them, as the repository performs them.  A refresh
    that nothing interrupts is the run of its own steps. */
module CatalogStore {
  import opened Text
  import opened Canonical
  import opened Ordering
  import opened NaturalOrder
  import opened Presentation
  import opened Publisher
  import opened PublishedCatalogues

  function ReadEvents(readings: seq<Reading>): seq<Event> {
    if |readings| == 0 then [Observe, Publish] else [ReadNext(readings[0])] + ReadEvents(readings[1..])
  }

  lemma Observed(o: Options, c: Catalog, now: Time, g: Gathered)
    ensures Run(o, State(c, Gathering(now, [], g)), [Observe, Publish])
         == State(AddPublished(c, Decide(o, c, g, Latest(c), now).0), Idle)
  {
    var s := State(c, Deciding(now, g, Latest(c)));
    assert [Observe, Publish][1..] == [Publish];
    assert [Publish][1..] == [];
    assert Step(o, State(c, Gathering(now, [], g)), Observe) == s;
    assert Run(o, s, [Publish]) == Run(o, Step(o, s, Publish), []);
  }

  class CatalogRepository {
    var snapshots: map<SourceId, seq<Snapshot>>
    var published: seq<Published>

    ghost function State(): Catalog
      reads this
    {
      Catalog(snapshots, published)
    }

    /** Every published row is honest about the age and the origin of its links. */
    ghost predicate Valid()
      reads this
    {
      AllHonest(State())
    }

    constructor ()
      ensures Valid() && State() == NO_CATALOG
    {
      snapshots, published := map[], [];
    }

    method PersistSourceSnapshot(id: SourceId, links: seq<string>, now: Time) returns (version: nat)
      modifies this`snapshots
      ensures State() == AddSnapshot(old(State()), id, Snapshot(now, links))
      ensures version == |SnapshotsOf(old(State()), id)|
    {
      var existing := if id in snapshots then snapshots[id] else [];
      version := |existing|;
      snapshots := snapshots[id := existing + [Snapshot(now, links)]];
    }

    method PublishSnapshot(
        now: Time, dataAsOf: Time, state: PublishedState, links: seq<string>, sources: map<SourceId, nat>)
      modifies this`published
      ensures State() == AddPublished(old(State()), Published(now, dataAsOf, state, links, sources))
    {
      published := published + [Published(now, dataAsOf, state, links, sources)];
    }

    /** The loop over the enabled sources, with what each reader returned. */
    method GatherSources(o: Options, sources: seq<SourceId>, readings: seq<Reading>, now: Time)
      returns (merged: seq<string>, versions: map<SourceId, nat>, ages: seq<Time>)
      requires |readings| == |sources|
      modifies this`snapshots
      ensures Run(o, Publisher.State(State(), Gathering(now, [], Gathered(merged, versions, ages))), [Observe, Publish])
           == Run(o, Publisher.State(old(State()), Gathering(now, sources, NOTHING)), ReadEvents(readings))
      ensures published == old(published)
    {
      merged, versions, ages := [], map[], [];
      ghost var start := Publisher.State(State(), Gathering(now, sources, NOTHING));
      for i := 0 to |sources|
        invariant published == old(published)
        invariant Run(o, Publisher.State(State(), Gathering(now, sources[i..], Gathered(merged, versions, ages))),
                      ReadEvents(readings[i..]))
               == Run(o, start, ReadEvents(readings))
      {
        var id, reading := sources[i], readings[i];
        ghost var c, g := State(), Gathered(merged, versions, ages);
        assert ReadEvents(readings[i..]) == [ReadNext(reading)] + ReadEvents(readings[i + 1..]) by {
          assert readings[i..][1..] == readings[i + 1..];
        }
        assert ReadEvents(readings[i..])[1..] == ReadEvents(readings[i + 1..]);
        assert sources[i..][1..] == sources[i + 1..];
        match reading
        case ReaderMissing =>
        case ReadLinks(links) =>
          var version := PersistSourceSnapshot(id, links, now);
          merged := merged + links;
          versions := versions[id := version];
          ages := ages + [now];
        case ReadFailed =>
          var cached := LatestUsable(Catalog(snapshots, published), id, now, o.maxStale);
          if cached.Some? {
            var s := snapshots[id][cached.value];
            merged := merged + s.links;
            versions := versions[id := cached.value];
            ages := ages + [s.createdAt];
          }
        assert (State(), Gathered(merged, versions, ages)) == ReadSource(c, g, id, reading, now, o.maxStale);
      }
      assert sources[|sources|..] == [] && readings[|sources|..] == [];
    }

    method RefreshCatalog(o: Options, sources: seq<SourceId>, readings: seq<Reading>, now: Time)
      returns (verdict: Verdict)
      requires Valid() && |readings| == |sources| && Distinct(sources)
      modifies this
      ensures Valid()
      ensures Publisher.State(State(), Idle)
           == Run(o, Publisher.State(old(State()), Idle), [Begin(now, sources)] + ReadEvents(readings))
      ensures |published| == |old(published)| + 1
      ensures verdict.MadeUnavailable? <==> published[|published| - 1].state.Unavailable?
      ensures verdict.Republished? || verdict.Rejected? ==>
                |old(published)| > 0
                && published[|published| - 1]
                   == old(published[|published| - 1]).(createdAt := now, state := Stale)
    {
      ghost var idle := Publisher.State(State(), Idle);
      RunSound(o, idle, [Begin(now, sources)] + ReadEvents(readings));
      assert ([Begin(now, sources)] + ReadEvents(readings))[1..] == ReadEvents(readings);
      assert Step(o, idle, Begin(now, sources)) == Publisher.State(State(), Gathering(now, sources, NOTHING));
      var merged, versions, ages := GatherSources(o, sources, readings, now);
      Observed(o, State(), now, Gathered(merged, versions, ages));
      var unique := Deduplicate(o.view, merged);
      var current: Option<Published> := if |published| == 0 then None else Some(published[|published| - 1]);
      var baseline := [];
      if current.Some? {
        baseline := Deduplicate(o.view, NamedLinks(Catalog(snapshots, published), current.value.sources));
      }
      if |unique| == 0 {
        if current.Some? && |current.value.links| > 0 && now - current.value.dataAsOf <= o.maxStale {
          PublishSnapshot(now, current.value.dataAsOf, Stale, current.value.links, current.value.sources);
          return Republished;
        }
        PublishSnapshot(now, now, Unavailable, [], versions);
        return MadeUnavailable;
      }
      if current.Some? && ShouldReject(o.view, baseline, unique) {
        PublishSnapshot(now, current.value.dataAsOf, Stale, current.value.links, current.value.sources);
        return Rejected;
      }
      var dataAsOf := if |ages| == 0 then now else Minimum(ages);
      var state := if dataAsOf == now then Fresh else Stale;
      var publishedServers := Build(o.view, unique, o.maxServers);
      PublishSnapshot(now, dataAsOf, state, publishedServers, versions);
      return Accepted;
    }

    method RollbackPublishedSnapshot(now: Time) returns (result: Option<Published>)
      requires Valid()
      modifies this
      ensures Valid()
      ensures State() == Rollback(old(State()), now)
      ensures result == if |old(published)| < 2 then None else Latest(State())
    {
      if |published| < 2 {
        return None;
      }
      var previous := published[|published| - 2];
      SoundPublish(Publisher.State(State(), Idle), previous.(createdAt := now));
      PublishSnapshot(now, previous.dataAsOf, previous.state, previous.links, previous.sources);
      return Some(published[|published| - 1]);
    }

    method GetEffectivePublishedSnapshot(now: Time, maxStale: int) returns (result: Option<Published>)
      requires Valid()
      ensures result == Effective(State(), now, maxStale)
      ensures result.Some? ==> forall x :: x in Elements(result.value.links) ==> RecentLink(State(), x, now, maxStale)
    {
      if |published| == 0 {
        return None;
      }
      var snapshot := published[|published| - 1];
      if snapshot.state.Unavailable? {
        return None;
      }
      if |snapshot.links| == 0 {
        return None;
      }
      if now - snapshot.dataAsOf > maxStale {
        return None;
      }
      forall x | x in Elements(snapshot.links) ensures RecentLink(State(), x, now, maxStale) {
        HonestMeansRecent(State(), snapshot, x, now, maxStale);
      }
      return Some(snapshot);
    }
  }
}
