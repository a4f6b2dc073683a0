/** Revocation lasts: no transaction but an explicit enable brings a revoked row back, so a
    disabled HWID is denied until then. */
module DeniedDevices {
  import opened Text
  import opened Canonical
  import opened DevicePolicy
  import opened DeviceTable
  import opened Registry
  import opened Lifecycle
  import opened Uniqueness
  import opened IdentityRows
  import opened Issuance

  lemma StepKeepsRevoked(db: Db, e: Event, i: nat)
    requires TableInvariant(db.devices) && i < |db.devices| && db.devices[i].revokedAt.Some?
    requires !Enables(e, db.devices[i].sub, db.devices[i].publicId)
    ensures i < |Step(db, e).devices| && Step(db, e).devices[i].revokedAt.Some?
  {
    StepGood(db, e);
  }

  predicate NeverEnabled(events: seq<Event>, sub: Guid, publicId: string) {
    forall k :: 0 <= k < |events| ==> !Enables(events[k], sub, publicId)
  }

  /** Every row of the HWID is revoked. */
  predicate AllRevoked(t: Table, sub: Guid, hwid: string) {
    forall i :: 0 <= i < |t| && OwnedBy(t[i], sub, hwid) ==> t[i].revokedAt.Some?
  }

  /** A configured key reproduces the hash stored in a row of the HWID. */
  predicate AnyCovered(t: Table, sub: Guid, hwid: string, keys: IdentityKeys) {
    exists i :: 0 <= i < |t| && OwnedBy(t[i], sub, hwid) && Covers(keys, t[i].policy.boundIdentity.value)
  }

  lemma LookupFindsAny(t: Table, sub: Guid, hwid: string, keys: IdentityKeys)
    requires keys.current.Some?
    ensures
      var identity := Identify(Hwid(hwid), keys);
      var found := FindUnified(t, sub, identity.current, identity.previous);
      && (found.Some? <==> AnyCovered(t, sub, hwid, keys))
      && (found.Some? ==> OwnedBy(t[found.value], sub, hwid))
  {
  }

  /** One resolve by a HWID whose rows, however many, are revoked: it is admitted if and only if
      everything but the lookup lets a new row in and no configured key reproduces a stored hash. */
  lemma RevokedHwidAdmits(
      db: Db, cfg: Config, hasToken: bool, secretVerified: bool, p: Presented, displayName: string,
      draw: Draw, now: Time, sub: Guid, hwid: string)
    requires UniqueIndexes(db.devices) && AllRevoked(db.devices, sub, hwid) && p.header == Hwid(hwid)
    ensures
      var outcome := Resolve(db, cfg, sub, hasToken, secretVerified, p, displayName, draw, now);
      && (outcome.result.access.Permit?
          <==> MayInsert(db, sub, hasToken, secretVerified, p, draw, now)
               && !AnyCovered(db.devices, sub, hwid, p.keys))
      && (outcome.result.created <==> outcome.result.access.Permit?)
  {
    ResolveInserts(db, cfg, sub, hasToken, secretVerified, p, displayName, draw, now);
    if p.keys.current.Some? {
      LookupFindsAny(db.devices, sub, hwid, p.keys);
    }
  }

  /* ---------- runs ---------- */

  predicate ResolvesFor(e: Event, sub: Guid, hwid: string) {
    e.op.OpResolve? && e.op.guid == sub && e.op.presented.header == Hwid(hwid)
  }

  function Answer(db: Db, e: Event): Access
    requires e.op.OpResolve?
  {
    Resolve(db, e.op.cfg, e.op.guid, e.op.hasToken, e.op.secretVerified, e.op.presented, e.op.displayName,
            e.op.draw, e.at).result.access
  }

  /** Every resolve of a run by the HWID is refused. */
  predicate AllRefused(db: Db, events: seq<Event>, sub: Guid, hwid: string)
    decreases |events|
  {
    |events| == 0
    || ((ResolvesFor(events[0], sub, hwid) ==> !Answer(db, events[0]).Permit?)
        && AllRefused(Step(db, events[0]), events[1..], sub, hwid))
  }

  /** A resolve by the HWID that finds room and presents keys under which none of the hashes stored in
      its rows can be reproduced. */
  predicate Escapes(db: Db, e: Event, sub: Guid, hwid: string) {
    ResolvesFor(e, sub, hwid)
    && MayInsert(db, sub, e.op.hasToken, e.op.secretVerified, e.op.presented, e.op.draw, e.at)
    && !AnyCovered(db.devices, sub, hwid, e.op.presented.keys)
  }

  predicate NoneEscapes(db: Db, events: seq<Event>, sub: Guid, hwid: string)
    decreases |events|
  {
    |events| == 0
    || (!Escapes(db, events[0], sub, hwid) && NoneEscapes(Step(db, events[0]), events[1..], sub, hwid))
  }

  /** The HWID owns the same rows in both tables. */
  predicate SameOwned(t: Table, u: Table, sub: Guid, hwid: string) {
    && |t| <= |u|
    && (forall i :: 0 <= i < |t| ==> (OwnedBy(u[i], sub, hwid) <==> OwnedBy(t[i], sub, hwid)))
    && (forall i :: |t| <= i < |u| ==> !OwnedBy(u[i], sub, hwid))
  }

  lemma OwnedStays(t: Table, u: Table, sub: Guid, hwid: string)
    requires TableInvariant(t) && TableEvolves(t, u) && |u| <= |t| + 1
    requires |u| == |t| + 1 ==> !OwnedBy(u[|t|], sub, hwid)
    ensures SameOwned(t, u, sub, hwid)
  {
    forall i | 0 <= i < |t| ensures OwnedBy(u[i], sub, hwid) <==> OwnedBy(t[i], sub, hwid) {
      assert Evolves(t[i], u[i]) && RowInvariant(t[i]);
    }
  }

  lemma ResolveKeepsOwned(
      db: Db, cfg: Config, guid: Guid, hasToken: bool, secretVerified: bool, p: Presented, displayName: string,
      draw: Draw, now: Time, sub: Guid, hwid: string)
    requires TableInvariant(db.devices) && UniqueIndexes(db.devices) && AllRevoked(db.devices, sub, hwid)
    requires guid == sub && p.header == Hwid(hwid) ==>
               !MayInsert(db, sub, hasToken, secretVerified, p, draw, now)
               || AnyCovered(db.devices, sub, hwid, p.keys)
    ensures
      var u := Resolve(db, cfg, guid, hasToken, secretVerified, p, displayName, draw, now).db.devices;
      SameOwned(db.devices, u, sub, hwid)
  {
    ResolveInserts(db, cfg, guid, hasToken, secretVerified, p, displayName, draw, now);
    ResolveGood(db, cfg, guid, hasToken, secretVerified, p, displayName, draw, now);
    if guid == sub && p.header == Hwid(hwid) {
      RevokedHwidAdmits(db, cfg, hasToken, secretVerified, p, displayName, draw, now, sub, hwid);
    }
    OwnedStays(db.devices, Resolve(db, cfg, guid, hasToken, secretVerified, p, displayName, draw, now).db.devices,
               sub, hwid);
  }

  /** Only an escape gives the HWID another row. */
  lemma StepKeepsOwned(db: Db, e: Event, sub: Guid, hwid: string)
    requires TableInvariant(db.devices) && UniqueIndexes(db.devices) && AllRevoked(db.devices, sub, hwid)
    requires !Escapes(db, e, sub, hwid)
    ensures SameOwned(db.devices, Step(db, e).devices, sub, hwid)
  {
    if e.op.OpResolve? {
      ResolveKeepsOwned(db, e.op.cfg, e.op.guid, e.op.hasToken, e.op.secretVerified, e.op.presented,
                        e.op.displayName, e.op.draw, e.at, sub, hwid);
    } else {
      StepGood(db, e);
      OwnedStays(db.devices, Step(db, e).devices, sub, hwid);
    }
  }

  /** No row of the HWID is enabled. */
  predicate NoneEnabled(t: Table, events: seq<Event>, sub: Guid, hwid: string) {
    forall i :: 0 <= i < |t| && OwnedBy(t[i], sub, hwid) ==> NeverEnabled(events, sub, t[i].publicId)
  }

  lemma StepKeepsAllRevoked(db: Db, events: seq<Event>, sub: Guid, hwid: string)
    requires TableInvariant(db.devices) && UniqueIndexes(db.devices) && AllRevoked(db.devices, sub, hwid)
    requires |events| > 0 && NoneEnabled(db.devices, events, sub, hwid) && !Escapes(db, events[0], sub, hwid)
    ensures
      var u := Step(db, events[0]).devices;
      AllRevoked(u, sub, hwid) && NoneEnabled(u, events[1..], sub, hwid)
  {
    var t, u := db.devices, Step(db, events[0]).devices;
    StepKeepsOwned(db, events[0], sub, hwid);
    StepGood(db, events[0]);
    forall i | 0 <= i < |u| && OwnedBy(u[i], sub, hwid)
      ensures u[i].revokedAt.Some? && NeverEnabled(events[1..], sub, u[i].publicId)
    {
      assert OwnedBy(t[i], sub, hwid) && NeverEnabled(events, sub, t[i].publicId) && Evolves(t[i], u[i]);
      StepKeepsRevoked(db, events[0], i);
    }
  }

  /** A disabled HWID stays denied, with its exact condition: from any state in which all its rows are
      revoked, over any run that enables none of them, every resolve by the HWID is refused if and only
      if none of them finds room under keys that can reproduce no stored hash. */
  lemma {:induction false} RevokedHwidStaysDenied(db: Db, events: seq<Event>, sub: Guid, hwid: string)
    requires TableInvariant(db.devices) && UniqueIndexes(db.devices)
    requires AllRevoked(db.devices, sub, hwid) && NoneEnabled(db.devices, events, sub, hwid)
    ensures AllRefused(db, events, sub, hwid) <==> NoneEscapes(db, events, sub, hwid)
    decreases |events|
  {
    if |events| > 0 {
      var e := events[0];
      if ResolvesFor(e, sub, hwid) {
        RevokedHwidAdmits(db, e.op.cfg, e.op.hasToken, e.op.secretVerified, e.op.presented, e.op.displayName,
                          e.op.draw, e.at, sub, hwid);
      }
      if !Escapes(db, e, sub, hwid) {
        StepKeepsAllRevoked(db, events, sub, hwid);
        StepGood(db, e);
        StepUnique(db, e);
        RevokedHwidStaysDenied(Step(db, e), events[1..], sub, hwid);
      }
    }
  }

  /* ---------- lapsed reservations ---------- */

  /** A device of the feed whose reservation has lapsed may renew it by asking again. */
  predicate Lapsed(d: Device, now: Time) {
    d.channel.UnifiedFeed? && d.revokedAt.None? && ReservationExpired(d, now)
  }

  /** The lookup for what is presented finds row i. */
  predicate Finds(t: Table, p: Presented, i: nat) {
    i < |t|
    && var identity := Identify(p.header, p.keys);
       identity.Identified? && FindUnified(t, t[i].sub, identity.current, identity.previous) == Some(i)
  }

  lemma LapsedMayReturn(
      db: Db, cfg: Config, p: Presented, displayName: string, draw: Draw, now: Time, i: nat)
    requires UniqueIndexes(db.devices) && Finds(db.devices, p, i)
    requires Lapsed(db.devices[i], now) && !db.devices[i].state.Disabled?
    requires FeedRefusal(db, db.devices[i].sub, true, now).None?
    ensures
      var sub := db.devices[i].sub;
      Resolve(db, cfg, sub, true, true, p, displayName, draw, now).result.access.Permit?
      <==> CountOccupied(db.devices, sub, now) < db.entitlements[sub].max
  {
    var sub, identity := db.devices[i].sub, Identify(p.header, p.keys);
    ResolveKnownCommits(db, cfg, sub, db.entitlements[sub], i, identity, p, displayName, now);
  }

  /** Issuing a personal link to the same subscription first, even as a replay, expires the
      reservation as a revocation, so the device is locked out until it is enabled. */
  lemma IssuingLocksOutLapsed(
      db: Db, i: nat, cfg: Config, r: TokenRequest, draw: Draw, now: Time,
      later: Config, p: Presented, displayName: string, draw': Draw, now': Time)
    requires TableInvariant(db.devices) && UniqueIndexes(db.devices) && Finds(db.devices, p, i)
    requires Lapsed(db.devices[i], now) && Opened(db, db.devices[i].sub, r, now)
    requires !PublicIdTaken(db.devices, draw.publicId)
    ensures
      var issued := CreateToken(db, cfg, db.devices[i].sub, r, draw, now).db;
      && i < |issued.devices| && issued.devices[i].revocationReason == Some(ExpiredPending)
      && Resolve(issued, later, db.devices[i].sub, true, true, p, displayName, draw', now').result.access.Forbid?
  {
    var sub, identity := db.devices[i].sub, Identify(p.header, p.keys);
    IssuingExpires(db, i, cfg, r, draw, now);
    IssuingKeepsFeed(db, cfg, sub, r, draw, now);
    SameLookup(db.devices, CreateToken(db, cfg, sub, r, draw, now).db.devices, sub, identity.current,
               identity.previous);
  }

  /** The same rows of the feed with the same stored hashes. */
  predicate SameFeed(t: Table, u: Table) {
    && |t| <= |u|
    && (forall i :: 0 <= i < |t| ==>
          u[i].channel == t[i].channel && u[i].sub == t[i].sub && u[i].policy == t[i].policy)
    && (forall i :: |t| <= i < |u| ==> !u[i].channel.UnifiedFeed?)
  }

  lemma SameLookup(t: Table, u: Table, sub: Guid, current: IdentityHash, previous: Option<IdentityHash>)
    requires UniqueIndexes(t) && SameFeed(t, u)
    ensures FindUnified(u, sub, current, previous) == FindUnified(t, sub, current, previous)
  {
    SameIdentity(t, u, sub, current);
    if previous.Some? {
      SameIdentity(t, u, sub, previous.value);
    }
  }

  lemma SameIdentity(t: Table, u: Table, sub: Guid, hash: IdentityHash)
    requires UniqueIndexes(t) && SameFeed(t, u)
    ensures FindIdentity(u, sub, hash) == FindIdentity(t, sub, hash)
  {
    var i, j := FindIdentity(t, sub, hash), FindIdentity(u, sub, hash);
    if i.Some? {
      assert IsUnified(u[i.value], sub) && u[i.value].policy.boundIdentity == Some(hash);
    }
    if j.Some? {
      assert IsUnified(t[j.value], sub) && t[j.value].policy.boundIdentity == Some(hash);
    }
  }

  lemma IssuingKeepsFeed(db: Db, cfg: Config, guid: Guid, r: TokenRequest, draw: Draw, now: Time)
    ensures SameFeed(db.devices, CreateToken(db, cfg, guid, r, draw, now).db.devices)
  {
    var after := CreateToken(db, cfg, guid, r, draw, now).db.devices;
    if after != db.devices {
      var t := ExpirePending(db.devices, guid, now);
      assert after == IssueToken(t, cfg, guid, db.entitlements[guid].max, r, draw, now).0;
      IssueKeepsFeed(t, cfg, guid, db.entitlements[guid].max, r, draw, now);
    }
  }

  lemma ReplayKeepsFeed(
      t: Table, i: nat, name: Option<string>, platform: Option<Platform>, hash: string, cfg: Config,
      active: nat, pending: nat, max: int)
    requires i < |t|
    ensures SameFeed(t, ReplayIssuance(t, i, name, platform, hash, cfg, active, pending, max).0)
  {
  }

  lemma IssueNewKeepsFeed(
      t: Table, cfg: Config, guid: Guid, max: int, r: TokenRequest, displayName: string, key: string,
      hash: string, draw: Draw, now: Time)
    ensures SameFeed(t, IssueNew(t, cfg, guid, max, r, displayName, key, hash, draw, now).0)
  {
  }

  lemma IssueKeepsFeed(t: Table, cfg: Config, guid: Guid, max: int, r: TokenRequest, draw: Draw, now: Time)
    ensures SameFeed(t, IssueToken(t, cfg, guid, max, r, draw, now).0)
  {
    var active, pending := CountActive(t, guid), CountPending(t, guid, now);
    var displayName := r.displayName.GetOr(DefaultDisplayName(active + pending + 1));
    var key, platform := EffectiveKey(cfg, r, displayName), RequestedPlatform(r.platform);
    var hash := IssuancePayload(guid, r.displayName, platform);
    var u, existing := IssueToken(t, cfg, guid, max, r, draw, now).0, FindKey(t, guid, key);
    if r.key.NoKey? && cfg.requireIssuanceKey {
      assert u == t;
    } else if existing.Some? {
      assert u == ReplayIssuance(t, existing.value, r.displayName, platform, hash, cfg, active, pending, max).0;
      ReplayKeepsFeed(t, existing.value, r.displayName, platform, hash, cfg, active, pending, max);
    } else {
      assert u == IssueNew(t, cfg, guid, max, r, displayName, key, hash, draw, now).0;
      IssueNewKeepsFeed(t, cfg, guid, max, r, displayName, key, hash, draw, now);
    }
  }

  lemma IssuingExpires(db: Db, i: nat, cfg: Config, r: TokenRequest, draw: Draw, now: Time)
    requires TableInvariant(db.devices) && UniqueIndexes(db.devices)
    requires i < |db.devices| && Lapsed(db.devices[i], now) && Opened(db, db.devices[i].sub, r, now)
    requires !PublicIdTaken(db.devices, draw.publicId)
    ensures
      var u := CreateToken(db, cfg, db.devices[i].sub, r, draw, now).db.devices;
      && i < |u| && u[i].revokedAt.Some? && u[i].revocationReason == Some(ExpiredPending)
      && u[i].policy == db.devices[i].policy && u[i].sub == db.devices[i].sub && u[i].channel.UnifiedFeed?
  {
    var sub := db.devices[i].sub;
    assert RowInvariant(db.devices[i]);
    CreateTokenCollides(db, cfg, sub, r, draw, now);
    ExpiredStays(ExpirePending(db.devices, sub, now), cfg, sub, db.entitlements[sub].max, r, draw, now, i);
  }

  lemma ExpiredStays(
      t: Table, cfg: Config, guid: Guid, max: int, r: TokenRequest, draw: Draw, now: Time, i: nat)
    requires i < |t| && t[i].channel.UnifiedFeed? && t[i].revokedAt.Some?
    ensures
      var u := IssueToken(t, cfg, guid, max, r, draw, now).0;
      && i < |u| && u[i].revokedAt == t[i].revokedAt && u[i].revocationReason == t[i].revocationReason
      && u[i].policy == t[i].policy && u[i].sub == t[i].sub && u[i].channel.UnifiedFeed?
  {
  }

  /* ---------- two key rotations ---------- */

  const ROTATED_CFG := Config(10, 10, 0, BindingEnforce, Enforce, 2, true, {}, {})

  /** HWID h under the given keys, asking for the feed. */
  function AskWith(keys: IdentityKeys, publicId: string, at: Time): Event {
    Event(OpResolve(ROTATED_CFG, "g", true, true, Presented(None, Hwid("h"), keys, false), "Phone",
                    Draw(publicId, "s", Protected("k", "n", "c", "t"))), at)
  }

  function RowUnder(key: string, publicId: string, until: Time): Device {
    NewUnified("g", Draw(publicId, "s", Protected("k", "n", "c", "t")), "Phone",
               Presented(None, Hwid("h"), IdentityKeys(Some(key), None), false), IdentityHash(key, "h"), until)
  }

  /** HWID h takes its slot under k1, is disabled by its user, and asks again after k1 has been
      rotated out twice. */
  const ROTATED_RUN := [
    Event(OpCreateSubscription("g", None, Entitlement(1, "active", None, 1)), 0),
    AskWith(IdentityKeys(Some("k1"), None), "1", 0),
    Event(OpRevoke("g", "1"), 5),
    AskWith(IdentityKeys(Some("k3"), Some("k2")), "2", 20)]

  const ROTATED_START := Step(EMPTY, ROTATED_RUN[0])
  const ROTATED_TAKEN := ROTATED_START.(devices := [RowUnder("k1", "1", 10)])
  const ROTATED_DISABLED := ROTATED_START.(devices := [DisableRow(RowUnder("k1", "1", 10), 5, UserRevoked)])

  function Asked(db: Db, keys: IdentityKeys, publicId: string, at: Time): Outcome<Resolution> {
    Resolve(db, ROTATED_CFG, "g", true, true, Presented(None, Hwid("h"), keys, false), "Phone",
            Draw(publicId, "s", Protected("k", "n", "c", "t")), at)
  }

  lemma AskStep(db: Db, keys: IdentityKeys, publicId: string, at: Time)
    ensures Step(db, AskWith(keys, publicId, at)) == Asked(db, keys, publicId, at).db
  {
  }

  /** Asking with keys under which no row is found, while no device is live. */
  lemma AskInserts(db: Db, key: string, previous: Option<string>, publicId: string, at: Time)
    requires db.subscriptions == ROTATED_START.subscriptions && db.entitlements == ROTATED_START.entitlements
    requires UniqueIndexes(db.devices) && !PublicIdTaken(db.devices, publicId)
    requires forall i :: 0 <= i < |db.devices| ==> !Live(db.devices[i], at)
    requires forall i :: 0 <= i < |db.devices| && db.devices[i].policy.boundIdentity.Some? ==>
               !Covers(IdentityKeys(Some(key), previous), db.devices[i].policy.boundIdentity.value)
    ensures
      var outcome := Asked(db, IdentityKeys(Some(key), previous), publicId, at);
      outcome.result.access.Permit? && outcome.db == db.(devices := db.devices + [RowUnder(key, publicId, at + 10)])
  {
    var p := Presented(None, Hwid("h"), IdentityKeys(Some(key), previous), false);
    assert OccupiedIds(db.devices, "g", at) == {};
    ResolveInserts(db, ROTATED_CFG, "g", true, true, p, "Phone",
                   Draw(publicId, "s", Protected("k", "n", "c", "t")), at);
  }

  lemma FirstAsk(db: Db)
    requires db.devices == [] && db.subscriptions == ROTATED_START.subscriptions
    requires db.entitlements == ROTATED_START.entitlements
    ensures Step(db, AskWith(IdentityKeys(Some("k1"), None), "1", 0)) == db.(devices := [RowUnder("k1", "1", 10)])
  {
    AskStep(db, IdentityKeys(Some("k1"), None), "1", 0);
    AskInserts(db, "k1", None, "1", 0);
    assert db.devices + [RowUnder("k1", "1", 10)] == [RowUnder("k1", "1", 10)];
  }

  lemma RotatedFirst()
    ensures Step(ROTATED_START, ROTATED_RUN[1]) == ROTATED_TAKEN
  {
    FirstAsk(ROTATED_START);
  }

  lemma RotatedSecond()
    ensures Step(ROTATED_TAKEN, ROTATED_RUN[2]) == ROTATED_DISABLED
  {
    assert ROTATED_TAKEN.devices[0].publicId == "1";
    assert FindDevice(ROTATED_TAKEN.devices, "g", "1") == Some(0);
  }

  lemma RotatedThird()
    ensures Answer(ROTATED_DISABLED, ROTATED_RUN[3]).Permit?
    ensures Step(ROTATED_DISABLED, ROTATED_RUN[3]).devices
         == [ROTATED_DISABLED.devices[0], RowUnder("k3", "2", 30)]
  {
    var t := ROTATED_DISABLED.devices;
    assert "k1"[1] != "k2"[1] && "k1"[1] != "k3"[1] && "1"[0] != "2"[0];
    assert t[0].policy.boundIdentity == Some(IdentityHash("k1", "h")) && t[0].publicId == "1";
    AskStep(ROTATED_DISABLED, IdentityKeys(Some("k3"), Some("k2")), "2", 20);
    AskInserts(ROTATED_DISABLED, "k3", Some("k2"), "2", 20);
  }

  lemma RotatedRuns()
    ensures Run(EMPTY, ROTATED_RUN[..3]) == ROTATED_DISABLED
    ensures Run(EMPTY, ROTATED_RUN) == Step(ROTATED_DISABLED, ROTATED_RUN[3])
  {
    var e0, e1, e2, e3 := ROTATED_RUN[0], ROTATED_RUN[1], ROTATED_RUN[2], ROTATED_RUN[3];
    RotatedFirst();
    RotatedSecond();
    RunThree(EMPTY, e0, e1, e2, []);
    RunThree(EMPTY, e0, e1, e2, [e3]);
    RunCons(ROTATED_DISABLED, e3, []);
    assert ROTATED_RUN[..3] == [e0, e1, e2] + [] && ROTATED_RUN == [e0, e1, e2] + [e3] && [e3] + [] == [e3];
  }

  /** After two rotations the disabled HWID is let in again without having been enabled, and owns two
      rows. */
  lemma TwoRotationsLetBackIn()
    ensures NeverEnabled(ROTATED_RUN, "g", "1")
    ensures Run(EMPTY, ROTATED_RUN[..3]) == ROTATED_DISABLED
    ensures Answer(ROTATED_DISABLED, ROTATED_RUN[3]).Permit?
    ensures !OneRowPerHwid(Run(EMPTY, ROTATED_RUN).devices)
  {
    RotatedRuns();
    RotatedThird();
    var t := Run(EMPTY, ROTATED_RUN).devices;
    assert SameHwid(t[0], t[1]);
  }
}
