/** Exactly-once issuance: from the moment a key is issued, one row of its subscription holds
    it in every later state, so a replay never makes a second device. */
module Issuance {
  import opened Text
  import opened Canonical
  import opened DevicePolicy
  import opened DeviceTable
  import opened Registry
  import opened Lifecycle
  import opened Growth
  import opened Uniqueness

  predicate Holds(d: Device, sub: Guid, key: string) {
    d.sub == sub && d.issuanceKey == Some(key)
  }

  /** The rows of a subscription that hold a key. */
  function Holders(t: Table, sub: Guid, key: string): set<nat> {
    set i: nat | i < |t| && Holds(t[i], sub, key)
  }

  /** One row holds the key, and the hash stored with it is that of the original request. */
  predicate HeldFor(t: Table, sub: Guid, key: string, hash: string) {
    exists i: nat :: i < |t| && Holds(t[i], sub, key) && t[i].issuanceHash == Some(hash)
  }

  /** Growth never loses a key: either its row keeps it or the row that replaces it takes it over
      in the same transaction. */
  lemma GrowthKeepsHolder(t: Table, u: Table, now: Time, cooldown: int, sub: Guid, key: string, hash: string)
    requires Grows(t, u, now, cooldown) && TableEvolves(t, u) && HeldFor(t, sub, key, hash)
    ensures HeldFor(u, sub, key, hash)
  {
    var i: nat :| i < |t| && Holds(t[i], sub, key) && t[i].issuanceHash == Some(hash);
    assert Evolves(t[i], u[i]);
    if |u| == |t| + 1 && u[|t|].origin.Replaces(i) {
      assert Replacement(t, u, i, u[|t|], now, cooldown);
      assert Holds(u[|t|], sub, key);
    } else {
      assert KeyKept(t[i], u[i]);
      assert Holds(u[i], sub, key);
    }
  }

  lemma {:induction false} HeldForRuns(db: Db, events: seq<Event>, sub: Guid, key: string, hash: string)
    requires TableInvariant(db.devices) && HeldFor(db.devices, sub, key, hash)
    ensures HeldFor(Run(db, events).devices, sub, key, hash)
    decreases |events|
  {
    if |events| > 0 {
      var e, next := events[0], Step(db, events[0]);
      var cooldown := if e.op.OpTransfer? then e.op.cfg.transferCooldown else 0;
      StepGood(db, e);
      StepGrows(db, e, cooldown);
      GrowthKeepsHolder(db.devices, next.devices, e.at, cooldown, sub, key, hash);
      HeldForRuns(next, events[1..], sub, key, hash);
    }
  }

  lemma HoldersUnique(t: Table, sub: Guid, key: string, hash: string)
    requires UniqueIndexes(t) && HeldFor(t, sub, key, hash)
    ensures exists i: nat :: Holders(t, sub, key) == {i} && i < |t| && t[i].issuanceHash == Some(hash)
  {
    var i: nat :| i < |t| && Holds(t[i], sub, key) && t[i].issuanceHash == Some(hash);
    assert forall j: nat :: j < |t| && j != i ==> !Clash(t[i], t[j]) || !Clash(t[j], t[i]);
    assert Holders(t, sub, key) == {i};
  }

  /** The key a request is issued under: the caller's, or the compatibility key of a request without
      one, which in legacy mode may be named after the next free slot. */
  function KeyOf(db: Db, cfg: Config, guid: Guid, r: TokenRequest, now: Time): string {
    var t := ExpirePending(db.devices, guid, now);
    var slot := CountActive(t, guid) + CountPending(t, guid, now) + 1;
    EffectiveKey(cfg, r, r.displayName.GetOr(DefaultDisplayName(slot)))
  }

  /** A request that gets as far as expiring stale reservations. */
  predicate Opened(db: Db, guid: Guid, r: TokenRequest, now: Time) {
    !r.key.BadKey? && !r.platform.BadPlatform? && guid in db.subscriptions && guid in db.entitlements
    && IssueRefusal(db.entitlements[guid], now).None?
  }

  /** A request that reaches the key lookup. */
  predicate Admitted(db: Db, cfg: Config, guid: Guid, r: TokenRequest, now: Time) {
    Opened(db, guid, r, now) && (r.key.NoKey? ==> !cfg.requireIssuanceKey)
  }

  function RequestHash(guid: Guid, r: TokenRequest): string {
    IssuancePayload(guid, r.displayName, RequestedPlatform(r.platform))
  }

  /** Blank names and platforms reach the repository as absent ones. */
  predicate Normalised(r: TokenRequest) {
    NormalisedName(r.displayName) && NormalisedPlatform(RequestedPlatform(r.platform))
  }

  predicate SameRequest(a: TokenRequest, b: TokenRequest) {
    a.displayName == b.displayName && RequestedPlatform(a.platform) == RequestedPlatform(b.platform)
  }

  lemma SameHash(guid: Guid, a: TokenRequest, b: TokenRequest)
    requires Normalised(a) && Normalised(b)
    ensures RequestHash(guid, a) == RequestHash(guid, b) <==> SameRequest(a, b)
  {
    if RequestHash(guid, a) == RequestHash(guid, b) {
      IssuancePayloadInjective(guid, a.displayName, RequestedPlatform(a.platform),
                               guid, b.displayName, RequestedPlatform(b.platform));
    }
  }

  predicate NamesDevice(result: TokenResult) {
    result.TokenCreated? || result.TokenExisting?
  }

  /* ---------- issuing ---------- */

  lemma IssueNewHolds(
      t: Table, cfg: Config, guid: Guid, max: int, r: TokenRequest, displayName: string, key: string,
      hash: string, draw: Draw, now: Time)
    requires NamesDevice(IssueNew(t, cfg, guid, max, r, displayName, key, hash, draw, now).1)
    ensures HeldFor(IssueNew(t, cfg, guid, max, r, displayName, key, hash, draw, now).0, guid, key, hash)
  {
    var u := IssueNew(t, cfg, guid, max, r, displayName, key, hash, draw, now).0;
    var legacy := FindLegacy(t, guid, displayName);
    if |u| == |t| {
      assert Holds(u[legacy.value], guid, key) && u[legacy.value].issuanceHash == Some(hash);
    } else {
      assert Holds(u[|t|], guid, key) && u[|t|].issuanceHash == Some(hash);
    }
  }

  lemma ReplayHolds(
      t: Table, i: nat, name: Option<string>, platform: Option<Platform>, hash: string, cfg: Config,
      active: nat, pending: nat, max: int, guid: Guid, key: string)
    requires i < |t| && Holds(t[i], guid, key) && t[i].issuanceHash.Some?
    requires ReplayIssuance(t, i, name, platform, hash, cfg, active, pending, max).1.TokenExisting?
    ensures HeldFor(ReplayIssuance(t, i, name, platform, hash, cfg, active, pending, max).0, guid, key, hash)
  {
    var u := ReplayIssuance(t, i, name, platform, hash, cfg, active, pending, max).0;
    assert Holds(u[i], guid, key) && u[i].issuanceHash == Some(hash);
  }

  lemma IssueTokenHolds(t: Table, cfg: Config, guid: Guid, max: int, r: TokenRequest, draw: Draw, now: Time)
    requires TableInvariant(t) && NamesDevice(IssueToken(t, cfg, guid, max, r, draw, now).1)
    ensures
      var slot := CountActive(t, guid) + CountPending(t, guid, now) + 1;
      var key := EffectiveKey(cfg, r, r.displayName.GetOr(DefaultDisplayName(slot)));
      HeldFor(IssueToken(t, cfg, guid, max, r, draw, now).0, guid, key, RequestHash(guid, r))
  {
    var active, pending := CountActive(t, guid), CountPending(t, guid, now);
    var displayName := r.displayName.GetOr(DefaultDisplayName(active + pending + 1));
    var key := EffectiveKey(cfg, r, displayName);
    var existing := FindKey(t, guid, key);
    if existing.Some? {
      assert RowInvariant(t[existing.value]);
      ReplayHolds(t, existing.value, r.displayName, RequestedPlatform(r.platform), RequestHash(guid, r), cfg,
                  active, pending, max, guid, key);
    } else {
      IssueNewHolds(t, cfg, guid, max, r, displayName, key, RequestHash(guid, r), draw, now);
    }
  }

  lemma NamedMeansIssued(db: Db, cfg: Config, guid: Guid, r: TokenRequest, draw: Draw, now: Time)
    requires NamesDevice(CreateToken(db, cfg, guid, r, draw, now).result)
    ensures
      && guid in db.entitlements
      && var (t, result) := IssueToken(ExpirePending(db.devices, guid, now), cfg, guid, db.entitlements[guid].max, r,
                                       draw, now);
         NamesDevice(result) && CreateToken(db, cfg, guid, r, draw, now).db.devices == t
  {
  }

  /** Answering a request with a device, created, adopted or replayed, leaves the request's key held
      for that request. */
  lemma CreatedHolds(db: Db, cfg: Config, guid: Guid, r: TokenRequest, draw: Draw, now: Time)
    requires TableInvariant(db.devices) && NamesDevice(CreateToken(db, cfg, guid, r, draw, now).result)
    ensures HeldFor(CreateToken(db, cfg, guid, r, draw, now).db.devices, guid, KeyOf(db, cfg, guid, r, now),
                    RequestHash(guid, r))
  {
    NamedMeansIssued(db, cfg, guid, r, draw, now);
    ExpireGood(db.devices, guid, now);
    IssueTokenHolds(ExpirePending(db.devices, guid, now), cfg, guid, db.entitlements[guid].max, r, draw, now);
  }

  /* ---------- replaying ---------- */

  /** What a replay of a held key does: nothing is added, and it is refused as a reuse exactly
      when it asks for something else. */
  lemma ReplayOutcome(
      t: Table, i: nat, r: TokenRequest, guid: Guid, cfg: Config, active: nat, pending: nat, max: int,
      original: TokenRequest)
    requires i < |t| && t[i].issuanceHash == Some(RequestHash(guid, original))
    requires Normalised(r) && Normalised(original)
    ensures
      var (u, result) := ReplayIssuance(t, i, r.displayName, RequestedPlatform(r.platform), RequestHash(guid, r),
                                        cfg, active, pending, max);
      && u == t
      && (result == TokenInvalid("idempotency_key_reused") <==> !SameRequest(r, original))
      && (result.TokenInvalid? || (result.TokenExisting? && result.publicId == t[i].publicId))
  {
    SameHash(guid, r, original);
    assert t[i := t[i]] == t;
  }

  lemma ExpiryKeepsHolders(t: Table, sub: Guid, key: string, hash: string, now: Time)
    ensures Holders(ExpirePending(t, sub, now), sub, key) == Holders(t, sub, key)
    ensures HeldFor(t, sub, key, hash) ==> HeldFor(ExpirePending(t, sub, now), sub, key, hash)
  {
    var u := ExpirePending(t, sub, now);
    if i: nat :| i < |t| && Holds(t[i], sub, key) && t[i].issuanceHash == Some(hash) {
      assert Holds(u[i], sub, key) && u[i].issuanceHash == Some(hash);
    }
  }

  /** The sole holder of a key is the row that the lookup finds. */
  lemma SoleHolderFound(t: Table, sub: Guid, key: string, hash: string)
    requires UniqueIndexes(t) && HeldFor(t, sub, key, hash)
    ensures
      var found := FindKey(t, sub, key);
      found.Some? && Holders(t, sub, key) == {found.value} && t[found.value].issuanceHash == Some(hash)
  {
    HoldersUnique(t, sub, key, hash);
    var i: nat :| Holders(t, sub, key) == {i} && i < |t| && t[i].issuanceHash == Some(hash);
    assert i in Holders(t, sub, key);
    var found := FindKey(t, sub, key);
    assert found.value in Holders(t, sub, key);
  }

  lemma IssueTokenReplays(
      t: Table, cfg: Config, guid: Guid, max: int, r: TokenRequest, draw: Draw, now: Time, key: string,
      original: TokenRequest)
    requires UniqueIndexes(t) && HeldFor(t, guid, key, RequestHash(guid, original))
    requires
      var slot := CountActive(t, guid) + CountPending(t, guid, now) + 1;
      EffectiveKey(cfg, r, r.displayName.GetOr(DefaultDisplayName(slot))) == key
    requires r.key.NoKey? ==> !cfg.requireIssuanceKey
    requires Normalised(r) && Normalised(original)
    ensures
      var (u, result) := IssueToken(t, cfg, guid, max, r, draw, now);
      var found := FindKey(t, guid, key);
      && u == t && found.Some?
      && (result == TokenInvalid("idempotency_key_reused") <==> !SameRequest(r, original))
      && (result.TokenInvalid? || (result.TokenExisting? && result.publicId == t[found.value].publicId))
  {
    SoleHolderFound(t, guid, key, RequestHash(guid, original));
    ReplayOutcome(t, FindKey(t, guid, key).value, r, guid, cfg, CountActive(t, guid), CountPending(t, guid, now),
                  max, original);
  }

  /** Any request whose key is held: no row is added, whatever the configuration, and the result names
      the holder or refuses, as a reuse exactly when the request is another one. */
  lemma ReplayNeverCreates(
      db: Db, cfg: Config, guid: Guid, r: TokenRequest, draw: Draw, now: Time, original: TokenRequest)
    requires UniqueIndexes(db.devices) && Normalised(r) && Normalised(original)
    requires HeldFor(db.devices, guid, KeyOf(db, cfg, guid, r, now), RequestHash(guid, original))
    requires Admitted(db, cfg, guid, r, now)
    ensures
      var outcome := CreateToken(db, cfg, guid, r, draw, now);
      && outcome.db == db.(devices := ExpirePending(db.devices, guid, now))
      && (outcome.result == TokenInvalid("idempotency_key_reused") <==> !SameRequest(r, original))
      && (outcome.result.TokenInvalid?
          || (outcome.result.TokenExisting?
              && exists i: nat :: Holders(db.devices, guid, KeyOf(db, cfg, guid, r, now)) == {i} && i < |db.devices|
                                  && outcome.result.publicId == db.devices[i].publicId))
  {
    var t, key := ExpirePending(db.devices, guid, now), KeyOf(db, cfg, guid, r, now);
    ExpiryKeepsHolders(db.devices, guid, key, RequestHash(guid, original), now);
    ExpireUnique(db.devices, guid, now);
    SoleHolderFound(t, guid, key, RequestHash(guid, original));
    IssueTokenReplays(t, cfg, guid, db.entitlements[guid].max, r, draw, now, key, original);
    var i := FindKey(t, guid, key).value;
    assert Holders(db.devices, guid, key) == {i};
  }

  /** A request that is not admitted creates nothing either. */
  lemma UnadmittedNeverCreates(db: Db, cfg: Config, guid: Guid, r: TokenRequest, draw: Draw, now: Time)
    requires UniqueIndexes(db.devices) && !Admitted(db, cfg, guid, r, now)
    ensures
      var outcome := CreateToken(db, cfg, guid, r, draw, now);
      |outcome.db.devices| == |db.devices| && (outcome.result.TokenInvalid? || outcome.result.TokenNotFound?)
  {
    ExpireUnique(db.devices, guid, now);
  }

  /** The promise over whole runs: after a request has been answered with a device under a key, every
      later state has exactly one holder of the key, and every later request that comes under it adds
      no device and is refused as a reuse if and only if it is another request. */
  lemma ExactlyOnce(
      db: Db, cfg: Config, guid: Guid, original: TokenRequest, draw: Draw, now: Time,
      events: seq<Event>, cfg': Config, r: TokenRequest, draw': Draw, now': Time)
    requires TableInvariant(db.devices) && UniqueIndexes(db.devices)
    requires NamesDevice(CreateToken(db, cfg, guid, original, draw, now).result)
    requires Normalised(r) && Normalised(original)
    ensures
      var key := KeyOf(db, cfg, guid, original, now);
      var later := Run(CreateToken(db, cfg, guid, original, draw, now).db, events);
      var replay := CreateToken(later, cfg', guid, r, draw', now');
      && |Holders(later.devices, guid, key)| == 1
      && (KeyOf(later, cfg', guid, r, now') == key ==>
            && |replay.db.devices| == |later.devices|
            && !replay.result.TokenCreated? && !replay.result.TokenViolation?
            && (Admitted(later, cfg', guid, r, now') ==>
                  (replay.result == TokenInvalid("idempotency_key_reused") <==> !SameRequest(r, original))))
  {
    var key, first := KeyOf(db, cfg, guid, original, now), CreateToken(db, cfg, guid, original, draw, now).db;
    CreatedHolds(db, cfg, guid, original, draw, now);
    CreateTokenGood(db, cfg, guid, original, draw, now);
    IssuedUnique(db, cfg, guid, original, draw, now);
    HeldForRuns(first, events, guid, key, RequestHash(guid, original));
    RunUnique(first, events);
    var later := Run(first, events);
    HoldersUnique(later.devices, guid, key, RequestHash(guid, original));
    if !Admitted(later, cfg', guid, r, now') {
      UnadmittedNeverCreates(later, cfg', guid, r, draw', now');
    } else if KeyOf(later, cfg', guid, r, now') == key {
      ReplayNeverCreates(later, cfg', guid, r, draw', now', original);
    }
  }
}
