/** What every transaction keeps true of each row, and how a row may change. */
module Lifecycle {
  import opened Text
  import opened Canonical
  import opened DevicePolicy
  import opened DeviceTable
  import opened Registry

  /** The revocations that promise to erase the stored credential.  Expiry does not. */
  predicate Erases(reason: Reason) {
    !reason.ExpiredPending?
  }

  /** What holds of one row in every reachable state. */
  predicate RowInvariant(d: Device) {
    && (d.revokedAt.Some? <==> d.revocationReason.Some?)
    && (d.credential.Complete() || d.credential.Erased())
    && (d.revocationReason.Some? && Erases(d.revocationReason.value) ==> d.credential.Erased())
    && (d.issuanceKey.Some? ==> d.issuanceHash.Some?)
    && (d.channel.UnifiedFeed? ==>
          && d.issuanceKey.None?
          && d.policy.mode.Enforce?
          && d.policy.boundIdentity.Some?
          && d.pendingExpiresAt == d.provisioningExpiresAt
          && (d.activatedAt.None? ==> d.pendingExpiresAt.Some?))
  }

  predicate TableInvariant(t: Table) {
    forall i :: 0 <= i < |t| ==> RowInvariant(t[i])
  }

  /** A version-1 link that is bound to a platform. */
  predicate PlatformBound(d: Device) {
    d.channel.DeviceLink? && d.policy.version == PLATFORM_HEURISTIC && IsBound(d.policy) && d.policy.boundPlatform.Some?
  }

  /** How one transaction may change a row. */
  predicate Evolves(a: Device, b: Device) {
    && b.sub == a.sub && b.publicId == a.publicId && b.secretHash == a.secretHash
    && b.channel == a.channel && b.origin == a.origin
    && b.lastTransferAt == a.lastTransferAt && b.transferCount == a.transferCount
    && b.policy.version == a.policy.version && b.policy.mode == a.policy.mode
    && (a.policy.boundIdentity.Some? ==>
          b.policy.boundIdentity.Some? && b.policy.boundIdentity.value.hwid == a.policy.boundIdentity.value.hwid)
    && (PlatformBound(a) ==> PlatformBound(b) && b.policy.boundPlatform == a.policy.boundPlatform)
    && (a.channel.DeviceLink? && a.revokedAt.Some? ==>
          && b.revokedAt == a.revokedAt && b.revocationReason == a.revocationReason
          && (a.credential.Erased() ==> b.credential.Erased()))
  }

  predicate TableEvolves(t: Table, u: Table) {
    |t| <= |u| && forall i :: 0 <= i < |t| ==> Evolves(t[i], u[i])
  }

  lemma EvolvesTransitive(a: Device, b: Device, c: Device)
    requires Evolves(a, b) && Evolves(b, c)
    ensures Evolves(a, c)
  {
  }

  lemma TableEvolvesTransitive(t: Table, u: Table, v: Table)
    requires TableEvolves(t, u) && TableEvolves(u, v)
    ensures TableEvolves(t, v)
  {
    forall i | 0 <= i < |t| ensures Evolves(t[i], v[i]) {
      EvolvesTransitive(t[i], u[i], v[i]);
    }
  }

  /** The invariant carried through every step of a transaction. */
  predicate Good(t: Table, u: Table) {
    TableInvariant(u) && TableEvolves(t, u)
  }

  predicate NoneRevived(t: Table, u: Table) {
    |t| <= |u| && forall i :: 0 <= i < |t| && t[i].revokedAt.Some? ==> u[i].revokedAt.Some?
  }

  /** At most one row is added, and a row of the unified feed only if feed says so. */
  predicate Adds(t: Table, u: Table, feed: bool) {
    |u| == |t| || (|u| == |t| + 1 && (feed || u[|t|].channel.DeviceLink?))
  }

  /** What every transaction but the enabling of a device does to the table. */
  predicate Spares(t: Table, u: Table, feed: bool) {
    Good(t, u) && NoneRevived(t, u) && Adds(t, u, feed)
  }

  /** Rewriting one row. */
  lemma PutGood(t: Table, i: nat, d: Device)
    requires i < |t| && TableInvariant(t) && RowInvariant(d) && Evolves(t[i], d)
    ensures Good(t, t[i := d])
  {
  }

  lemma PutSpares(t: Table, i: nat, d: Device)
    requires i < |t| && TableInvariant(t) && RowInvariant(d) && Evolves(t[i], d)
    requires t[i].revokedAt.Some? ==> d.revokedAt.Some?
    ensures Spares(t, t[i := d], false)
  {
  }

  lemma AppendGood(t: Table, u: Table, d: Device)
    requires Spares(t, u, false) && |u| == |t| && RowInvariant(d)
    ensures Spares(t, u + [d], d.channel.UnifiedFeed?)
  {
  }

  lemma SparesTransitive(t: Table, u: Table, v: Table, feed: bool)
    requires Spares(t, u, false) && |u| == |t| && Spares(u, v, feed)
    ensures Spares(t, v, feed)
  {
    TableEvolvesTransitive(t, u, v);
  }

  lemma ExpireGood(t: Table, sub: Guid, now: Time)
    requires TableInvariant(t)
    ensures Spares(t, ExpirePending(t, sub, now), false)
  {
  }

  lemma ReplayGood(
      t: Table, i: nat, name: Option<string>, platform: Option<Platform>, hash: string, cfg: Config,
      active: nat, pending: nat, max: int)
    requires i < |t| && TableInvariant(t)
    ensures Spares(t, ReplayIssuance(t, i, name, platform, hash, cfg, active, pending, max).0, false)
  {
    var d := t[i].(issuanceHash := Coalesce(t[i].issuanceHash, Some(hash)));
    PutSpares(t, i, d);
    PutSpares(t, i, t[i]);
  }

  lemma AdoptGood(t: Table, i: nat, key: string, hash: string, platform: Option<Platform>)
    requires i < |t| && TableInvariant(t) && t[i].policy.mode.Legacy?
    ensures Spares(t, t[i := AdoptLegacy(t[i], key, hash, platform)], false)
  {
    PutSpares(t, i, AdoptLegacy(t[i], key, hash, platform));
  }

  lemma GoodReflexive(t: Table)
    requires TableInvariant(t)
    ensures Spares(t, t, false)
  {
  }

  lemma IssueNewGood(
      t: Table, cfg: Config, guid: Guid, max: int, r: TokenRequest, displayName: string, key: string,
      hash: string, draw: Draw, now: Time)
    requires TableInvariant(t)
    ensures Spares(t, IssueNew(t, cfg, guid, max, r, displayName, key, hash, draw, now).0, false)
  {
    var platform := RequestedPlatform(r.platform);
    GoodReflexive(t);
    var legacy := FindLegacy(t, guid, displayName);
    if legacy.Some? {
      AdoptGood(t, legacy.value, key, hash, platform);
    }
    AppendGood(t, t, IssuedLink(cfg, guid, draw, displayName, key, hash, platform, now));
  }

  lemma IssueTokenGood(
      t: Table, cfg: Config, guid: Guid, max: int, r: TokenRequest, draw: Draw, now: Time)
    requires TableInvariant(t)
    ensures Spares(t, IssueToken(t, cfg, guid, max, r, draw, now).0, false)
  {
    var active, pending := CountActive(t, guid), CountPending(t, guid, now);
    var displayName := r.displayName.GetOr(DefaultDisplayName(active + pending + 1));
    var key, platform := EffectiveKey(cfg, r, displayName), RequestedPlatform(r.platform);
    var hash := IssuancePayload(guid, r.displayName, platform);
    var u, existing := IssueToken(t, cfg, guid, max, r, draw, now).0, FindKey(t, guid, key);
    if r.key.NoKey? && cfg.requireIssuanceKey {
      assert u == t;
      GoodReflexive(t);
    } else if existing.Some? {
      assert u == ReplayIssuance(t, existing.value, r.displayName, platform, hash, cfg, active, pending, max).0;
      ReplayGood(t, existing.value, r.displayName, platform, hash, cfg, active, pending, max);
    } else {
      assert u == IssueNew(t, cfg, guid, max, r, displayName, key, hash, draw, now).0;
      IssueNewGood(t, cfg, guid, max, r, displayName, key, hash, draw, now);
    }
  }

  lemma CreateTokenGood(db: Db, cfg: Config, guid: Guid, r: TokenRequest, draw: Draw, now: Time)
    requires TableInvariant(db.devices)
    ensures Spares(db.devices, CreateToken(db, cfg, guid, r, draw, now).db.devices, false)
  {
    var after := CreateToken(db, cfg, guid, r, draw, now).db.devices;
    if after == db.devices {
      GoodReflexive(after);
    } else {
      var t, max := ExpirePending(db.devices, guid, now), db.entitlements[guid].max;
      assert after == IssueToken(t, cfg, guid, max, r, draw, now).0;
      ExpireGood(db.devices, guid, now);
      IssueTokenGood(t, cfg, guid, max, r, draw, now);
      SparesTransitive(db.devices, t, after, false);
    }
  }

  lemma RetireGood(t: Table, i: nat, guid: Guid, reason: Reason, now: Time)
    requires i < |t| && TableInvariant(t) && t[i].revokedAt.None?
    ensures Spares(t, Retire(t, i, guid, reason, now), false)
  {
    var u := t[i := RevokeRow(ReleaseKey(t[i]), now, reason)];
    PutSpares(t, i, u[i]);
    ExpireGood(u, guid, now);
    SparesTransitive(t, u, Retire(t, i, guid, reason, now), false);
  }

  lemma ReplacedGood(t: Table, i: nat, guid: Guid, reason: Reason, now: Time, d: Device)
    requires i < |t| && TableInvariant(t) && t[i].revokedAt.None? && RowInvariant(d) && d.channel.DeviceLink?
    ensures Spares(t, Retire(t, i, guid, reason, now) + [d], false)
  {
    RetireGood(t, i, guid, reason, now);
    AppendGood(t, Retire(t, i, guid, reason, now), d);
  }

  lemma RegenerateGood(db: Db, cfg: Config, guid: Guid, publicId: string, draw: Draw, now: Time)
    requires TableInvariant(db.devices)
    ensures Spares(db.devices, Regenerate(db, cfg, guid, publicId, draw, now).db.devices, false)
  {
    var after := Regenerate(db, cfg, guid, publicId, draw, now).db.devices;
    if after == db.devices {
      GoodReflexive(after);
    } else {
      var i := FindDevice(db.devices, guid, publicId).value;
      ReplacedGood(db.devices, i, guid, Regenerated, now, RegeneratedLink(cfg, db.devices[i], i, draw, now));
    }
  }

  lemma TransferRowGood(
      db: Db, cfg: Config, guid: Guid, max: int, i: nat, operationId: string, platform: Platform,
      fingerprint: string, draw: Draw, now: Time)
    requires TableInvariant(db.devices) && i < |db.devices| && db.devices[i].revokedAt.None?
    ensures Spares(db.devices,
                 TransferRow(db, cfg, guid, max, i, operationId, platform, fingerprint, draw, now).db.devices, false)
  {
    GoodReflexive(db.devices);
    ReplacedGood(db.devices, i, guid, Transferred, now,
                 TransferredLink(cfg, db.devices[i], i, platform, draw, now));
  }

  lemma TransferGood(
      db: Db, cfg: Config, guid: Guid, publicId: string, operationId: Option<string>,
      platform: Option<Platform>, draw: Draw, now: Time)
    requires TableInvariant(db.devices)
    ensures Spares(db.devices, Transfer(db, cfg, guid, publicId, operationId, platform, draw, now).db.devices, false)
  {
    GoodReflexive(db.devices);
    var found := FindDevice(db.devices, guid, publicId);
    if operationId.Some? && platform.Some? && guid in db.entitlements
       && found.Some? && db.devices[found.value].revokedAt.None? {
      TransferRowGood(db, cfg, guid, db.entitlements[guid].max, found.value, operationId.value, platform.value,
                      TransferPayload(guid, publicId, platform.value), draw, now);
    }
  }

  lemma NoteRiskKeepsIdentity(policy: FeedPolicy, decision: Decision, risky: bool)
    ensures
      var noted := NoteRisk(policy, decision, risky);
      noted == policy.(binding := noted.binding)
  {
  }

  lemma BoundPolicyGood(d: Device, cfg: Config, p: Presented)
    ensures
      var decision := Evaluate(cfg.bindingMode, d.policy, d.requestedPlatform, ContextOf(p));
      var after := Rebind(NoteRisk(d.policy, decision, p.risky), d.requestedPlatform, ContextOf(p), decision);
      && after.version == d.policy.version && after.mode == d.policy.mode
      && (d.policy.boundIdentity.Some? ==>
            after.boundIdentity.Some? && after.boundIdentity.value.hwid == d.policy.boundIdentity.value.hwid)
  {
    RebindKeepsOwner(cfg.bindingMode, d.policy, d.requestedPlatform, p.platform, p.header, p.keys);
    var decision := Evaluate(cfg.bindingMode, d.policy, d.requestedPlatform, ContextOf(p));
    NoteRiskKeepsIdentity(d.policy, decision, p.risky);
    if decision.shouldRefresh && d.policy.boundIdentity.Some? {
      MatchMeansSameHwid(p.header, p.keys, d.policy.boundIdentity.value);
    }
  }

  lemma BoundPlatformKept(
      policy: FeedPolicy, requested: Option<string>, global: BindingMode, context: Context, risky: bool)
    requires policy.version == PLATFORM_HEURISTIC && IsBound(policy) && policy.boundPlatform.Some?
    ensures
      var decision := Evaluate(global, policy, requested, context);
      var after := Rebind(NoteRisk(policy, decision, risky), requested, context, decision);
      IsBound(after) && after.boundPlatform == policy.boundPlatform
  {
  }

  lemma AccessRowGood(d: Device, cfg: Config, p: Presented, replacement: Protected, now: Time)
    requires RowInvariant(d) && d.revokedAt.None?
    ensures
      var row := AccessRow(d, cfg, p, replacement, now).0;
      RowInvariant(row) && Evolves(d, row)
  {
    BoundPolicyGood(d, cfg, p);
    if PlatformBound(d) {
      BoundPlatformKept(d.policy, d.requestedPlatform, cfg.bindingMode, ContextOf(p), p.risky);
    }
    var row := AccessRow(d, cfg, p, replacement, now).0;
    assert PlatformBound(d) ==> PlatformBound(row) && row.policy.boundPlatform == d.policy.boundPlatform;
    assert row == d.(policy := row.policy, credential := row.credential, activatedAt := row.activatedAt);
  }

  /** What an access may do to the table. */
  lemma ValidateTable(
      db: Db, cfg: Config, guid: Guid, publicId: string, token: Option<string>, p: Presented,
      replacement: Protected, now: Time)
    ensures
      var found := FindDevice(db.devices, guid, publicId);
      var u := Validate(db, cfg, guid, publicId, token, p, replacement, now).db.devices;
      || u == db.devices
      || (found.Some? && db.devices[found.value].revokedAt.None?
          && (|| u == db.devices[found.value := RevokeRow(db.devices[found.value], now, ExpiredPending)]
              || u == db.devices[found.value := AccessRow(db.devices[found.value], cfg, p, replacement, now).0]))
  {
  }

  lemma ValidateGood(
      db: Db, cfg: Config, guid: Guid, publicId: string, token: Option<string>, p: Presented,
      replacement: Protected, now: Time)
    requires TableInvariant(db.devices)
    ensures Spares(db.devices, Validate(db, cfg, guid, publicId, token, p, replacement, now).db.devices, false)
  {
    GoodReflexive(db.devices);
    var found := FindDevice(db.devices, guid, publicId);
    if found.Some? && db.devices[found.value].revokedAt.None? {
      var i, d := found.value, db.devices[found.value];
      ValidateTable(db, cfg, guid, publicId, token, p, replacement, now);
      AccessRowGood(d, cfg, p, replacement, now);
      PutSpares(db.devices, i, AccessRow(d, cfg, p, replacement, now).0);
      PutSpares(db.devices, i, RevokeRow(d, now, ExpiredPending));
    }
  }

  lemma ObserveGood(d: Device, platform: Option<string>, displayName: string, current: IdentityHash, until: Time)
    requires RowInvariant(d) && d.channel.UnifiedFeed?
    requires d.policy.boundIdentity.Some? && d.policy.boundIdentity.value.hwid == current.hwid
    ensures
      var row := ObserveIdentity(d, platform, displayName, current);
      RowInvariant(row) && Evolves(d, row)
    ensures
      var row := ObserveIdentity(Reserve(d, until), platform, displayName, current);
      RowInvariant(row) && Evolves(d, row)
  {
  }

  /** What resolving a known row may do to the table. */
  lemma ResolveKnownTable(
      db: Db, cfg: Config, guid: Guid, e: Entitlement, i: nat, current: IdentityHash, p: Presented,
      displayName: string, now: Time)
    requires i < |db.devices|
    ensures
      var d := db.devices[i];
      var after := ResolveKnown(db, cfg, guid, e, i, current, p, displayName, now).db;
      || after == db
      || (!IsDisabled(d)
        && after == db.(devices := db.devices[i := ObserveIdentity(d, p.platform, displayName, current)]))
      || (!IsDisabled(d) && CountOccupied(db.devices, guid, now) < e.max
          && after == db.(devices := db.devices[i := ObserveIdentity(Reserve(d, now + cfg.reservationTtl),
                                                                     p.platform, displayName, current)]))
  {
  }

  lemma ResolveKnownGood(
      db: Db, cfg: Config, guid: Guid, e: Entitlement, i: nat, current: IdentityHash, p: Presented,
      displayName: string, now: Time)
    requires TableInvariant(db.devices) && i < |db.devices| && db.devices[i].channel.UnifiedFeed?
    requires db.devices[i].policy.boundIdentity.Some?
    requires db.devices[i].policy.boundIdentity.value.hwid == current.hwid
    ensures Spares(db.devices, ResolveKnown(db, cfg, guid, e, i, current, p, displayName, now).db.devices, true)
  {
    var d, until := db.devices[i], now + cfg.reservationTtl;
    var t := ResolveKnown(db, cfg, guid, e, i, current, p, displayName, now).db.devices;
    ResolveKnownTable(db, cfg, guid, e, i, current, p, displayName, now);
    ObserveGood(d, p.platform, displayName, current, until);
    if t == db.devices {
      GoodReflexive(t);
    } else if t == db.devices[i := ObserveIdentity(d, p.platform, displayName, current)] {
      PutSpares(db.devices, i, ObserveIdentity(d, p.platform, displayName, current));
    } else {
      PutSpares(db.devices, i, ObserveIdentity(Reserve(d, until), p.platform, displayName, current));
    }
  }

  lemma ResolveNewGood(
      db: Db, cfg: Config, guid: Guid, e: Entitlement, current: IdentityHash, p: Presented,
      displayName: string, draw: Draw, now: Time)
    requires TableInvariant(db.devices)
    ensures Spares(db.devices, ResolveNew(db, cfg, guid, e, current, p, displayName, draw, now).db.devices, true)
  {
    GoodReflexive(db.devices);
    AppendGood(db.devices, db.devices,
               NewUnified(guid, draw, displayName, p, current, now + cfg.reservationTtl));
  }

  lemma ResolveGood(
      db: Db, cfg: Config, guid: Guid, hasToken: bool, secretVerified: bool, p: Presented,
      displayName: string, draw: Draw, now: Time)
    requires TableInvariant(db.devices)
    ensures Spares(db.devices,
                 Resolve(db, cfg, guid, hasToken, secretVerified, p, displayName, draw, now).db.devices, true)
  {
    GoodReflexive(db.devices);
    var identity := Identify(p.header, p.keys);
    if identity.Identified? && guid in db.entitlements {
      var e := db.entitlements[guid];
      var found := FindUnified(db.devices, guid, identity.current, identity.previous);
      if found.Some? {
        MatchMeansSameHwid(p.header, p.keys, db.devices[found.value].policy.boundIdentity.value);
        ResolveKnownGood(db, cfg, guid, e, found.value, identity.current, p, displayName, now);
      } else {
        ResolveNewGood(db, cfg, guid, e, identity.current, p, displayName, draw, now);
      }
    }
  }

  lemma MarkActivatedGood(db: Db, guid: Guid, publicId: string, now: Time)
    requires TableInvariant(db.devices)
    ensures Spares(db.devices, MarkActivated(db, guid, publicId, now).devices, false)
  {
    GoodReflexive(db.devices);
    var found := FeedRow(db, guid, publicId);
    if found.Some? {
      PutSpares(db.devices, found.value, Activated(db.devices[found.value], now));
    }
  }

  lemma MarkFailedGood(db: Db, cfg: Config, guid: Guid, publicId: string, now: Time)
    requires TableInvariant(db.devices)
    ensures Spares(db.devices, MarkFailed(db, cfg, guid, publicId, now).devices, false)
  {
    GoodReflexive(db.devices);
    var found := FeedRow(db, guid, publicId);
    if found.Some? {
      PutSpares(db.devices, found.value, Failed(db.devices[found.value], now + cfg.reservationTtl));
    }
  }

  lemma EnableTable(db: Db, cfg: Config, guid: Guid, publicId: string, now: Time)
    ensures
      var found := FeedRow(db, guid, publicId);
      var u := Enable(db, cfg, guid, publicId, now).db.devices;
      u == db.devices
      || (found.Some? && u == db.devices[found.value := Reenabled(db.devices[found.value], now + cfg.reservationTtl)])
  {
  }

  lemma EnableGood(db: Db, cfg: Config, guid: Guid, publicId: string, now: Time)
    requires TableInvariant(db.devices)
    ensures
      var u := Enable(db, cfg, guid, publicId, now).db.devices;
      && Good(db.devices, u) && |u| == |db.devices|
      && forall i :: 0 <= i < |u| && db.devices[i].revokedAt.Some? && u[i].revokedAt.None? ==>
           db.devices[i].sub == guid && db.devices[i].publicId == publicId
  {
    GoodReflexive(db.devices);
    var found := FeedRow(db, guid, publicId);
    if found.Some? {
      EnableTable(db, cfg, guid, publicId, now);
      PutGood(db.devices, found.value, Reenabled(db.devices[found.value], now + cfg.reservationTtl));
    }
  }

  lemma RevokeGood(db: Db, guid: Guid, publicId: string, now: Time)
    requires TableInvariant(db.devices)
    ensures Spares(db.devices, Revoke(db, guid, publicId, now).db.devices, false)
  {
    GoodReflexive(db.devices);
    var found := FindDevice(db.devices, guid, publicId);
    if found.Some? {
      PutSpares(db.devices, found.value, DisableRow(db.devices[found.value], now, UserRevoked));
    }
  }

  lemma ResetAllGood(t: Table, guid: Guid, now: Time)
    requires TableInvariant(t)
    ensures Spares(t, ResetAllRows(t, guid, now), false)
  {
  }

  lemma ReadRepairGood(db: Db, id: nat, previous: Protected, replacement: Protected)
    requires TableInvariant(db.devices)
    ensures Spares(db.devices, ReadRepair(db, id, previous, replacement).db.devices, false)
  {
    GoodReflexive(db.devices);
    if id < |db.devices| && db.devices[id].credential == Columns(previous) {
      PutSpares(db.devices, id, db.devices[id].(credential := Columns(replacement)));
    }
  }

  /** The event enables this very row. */
  predicate Enables(e: Event, sub: Guid, publicId: string) {
    e.op.OpEnable? && e.op.guid == sub && e.op.publicId == publicId
  }

  /** What each event may do to the table: a row keeps its invariant and evolves as allowed, only
      the enabling of a revoked row brings it back, and only a resolve adds a row of the feed. */
  predicate Classified(t: Table, u: Table, e: Event) {
    && Good(t, u) && Adds(t, u, e.op.OpResolve?)
    && forall i :: 0 <= i < |t| && t[i].revokedAt.Some? && u[i].revokedAt.None? ==> Enables(e, t[i].sub, t[i].publicId)
  }

  lemma StepGoodLinks(db: Db, e: Event)
    requires TableInvariant(db.devices)
    requires e.op.OpCreateToken? || e.op.OpRegenerate? || e.op.OpTransfer?
    ensures Spares(db.devices, Step(db, e).devices, false)
  {
    match e.op
    case OpCreateToken(cfg, g, r, f) => CreateTokenGood(db, cfg, g, r, f, e.at);
    case OpRegenerate(cfg, g, p, f) => RegenerateGood(db, cfg, g, p, f, e.at);
    case OpTransfer(cfg, g, p, o, pl, f) => TransferGood(db, cfg, g, p, o, pl, f, e.at);
  }

  lemma StepGoodAccess(db: Db, e: Event)
    requires TableInvariant(db.devices)
    requires e.op.OpValidate? || e.op.OpResolve?
    ensures Spares(db.devices, Step(db, e).devices, e.op.OpResolve?)
  {
    match e.op
    case OpValidate(cfg, g, p, s, pr, c) => ValidateGood(db, cfg, g, p, s, pr, c, e.at);
    case OpResolve(cfg, g, h, v, pr, n, f) => ResolveGood(db, cfg, g, h, v, pr, n, f, e.at);
  }

  lemma StepGoodRevocations(db: Db, e: Event)
    requires TableInvariant(db.devices)
    requires e.op.OpRevoke? || e.op.OpRevokeAll? || e.op.OpReadRepair?
    ensures Spares(db.devices, Step(db, e).devices, false)
  {
    match e.op
    case OpRevoke(g, p) => RevokeGood(db, g, p, e.at);
    case OpRevokeAll(g) => GoodReflexive(db.devices); ResetAllGood(db.devices, g, e.at);
    case OpReadRepair(i, a, b) => ReadRepairGood(db, i, a, b);
  }

  lemma StepGoodFeed(db: Db, e: Event)
    requires TableInvariant(db.devices)
    requires e.op.OpMarkActivated? || e.op.OpMarkFailed?
    ensures Spares(db.devices, Step(db, e).devices, false)
  {
    match e.op
    case OpMarkActivated(g, p) => MarkActivatedGood(db, g, p, e.at);
    case OpMarkFailed(cfg, g, p) => MarkFailedGood(db, cfg, g, p, e.at);
  }

  lemma StepGoodEnable(db: Db, e: Event)
    requires TableInvariant(db.devices) && e.op.OpEnable?
    ensures Classified(db.devices, Step(db, e).devices, e)
  {
    EnableGood(db, e.op.cfg, e.op.guid, e.op.publicId, e.at);
  }

  lemma StepGoodEntitlements(db: Db, e: Event)
    requires TableInvariant(db.devices)
    requires e.op.OpCreateSubscription? || e.op.OpApplyOperation? || e.op.OpPutEntitlement?
    ensures Spares(db.devices, Step(db, e).devices, false)
  {
    GoodReflexive(db.devices);
  }

  /** Every transaction keeps the row invariant and changes each row only as allowed. */
  lemma StepGood(db: Db, e: Event)
    requires TableInvariant(db.devices)
    ensures Classified(db.devices, Step(db, e).devices, e)
  {
    match e.op
    case OpCreateToken(_, _, _, _) => StepGoodLinks(db, e);
    case OpRegenerate(_, _, _, _) => StepGoodLinks(db, e);
    case OpTransfer(_, _, _, _, _, _) => StepGoodLinks(db, e);
    case OpValidate(_, _, _, _, _, _) => StepGoodAccess(db, e);
    case OpResolve(_, _, _, _, _, _, _) => StepGoodAccess(db, e);
    case OpCreateSubscription(_, _, _) => StepGoodEntitlements(db, e);
    case OpApplyOperation(_, _) => StepGoodEntitlements(db, e);
    case OpPutEntitlement(_, _) => StepGoodEntitlements(db, e);
    case OpMarkActivated(_, _) => StepGoodFeed(db, e);
    case OpMarkFailed(_, _, _) => StepGoodFeed(db, e);
    case OpEnable(_, _, _) => StepGoodEnable(db, e);
    case _ => StepGoodRevocations(db, e);
  }

  lemma {:induction false} RunGood(db: Db, events: seq<Event>)
    requires TableInvariant(db.devices)
    ensures Good(db.devices, Run(db, events).devices)
    decreases |events|
  {
    if |events| > 0 {
      var next := Step(db, events[0]);
      StepGood(db, events[0]);
      RunGood(next, events[1..]);
      TableEvolvesTransitive(db.devices, next.devices, Run(db, events).devices);
    }
  }
}
