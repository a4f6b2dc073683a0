/** What the feed must do: whom it admits, what it leaves of the row, and what activating and enabling
    a device do. */
module FeedAdmission {
  import opened Text
  import opened Canonical
  import opened DevicePolicy
  import opened DeviceTable
  import opened Registry
  import opened Lifecycle
  import opened Uniqueness
  import opened IdentityRows
  import opened Ownership

  /* ---------- asking ---------- */

  predicate InForce(e: Entitlement, now: Time) {
    e.status == "active" && (e.validUntil.None? || now < e.validUntil.value)
  }

  predicate Entitled(db: Db, guid: Guid, now: Time) {
    guid in db.subscriptions && guid in db.entitlements && InForce(db.entitlements[guid], now)
  }

  /** A well-formed HWID under a configured key, with the secret of an entitled subscription. */
  predicate Asks(db: Db, guid: Guid, hasToken: bool, secretVerified: bool, p: Presented, now: Time) {
    p.header.Hwid? && p.keys.current.Some? && hasToken && secretVerified && Entitled(db, guid, now)
  }

  predicate Stores(d: Device, sub: Guid, hash: IdentityHash) {
    d.sub == sub && d.channel.UnifiedFeed? && d.policy.boundIdentity == Some(hash)
  }

  /** Row i is the one a HWID goes by: it stores its hash under the current key or, if none does, under
      the previous one. */
  predicate GoesBy(t: Table, sub: Guid, hwid: string, keys: IdentityKeys, i: nat) {
    i < |t| && keys.current.Some?
    && (|| Stores(t[i], sub, IdentityHash(keys.current.value, hwid))
        || (&& keys.previous.Some? && Stores(t[i], sub, IdentityHash(keys.previous.value, hwid))
            && forall j :: 0 <= j < |t| ==> !Stores(t[j], sub, IdentityHash(keys.current.value, hwid))))
  }

  lemma StoredOnce(t: Table, sub: Guid, hash: IdentityHash, i: nat)
    requires UniqueIndexes(t)
    ensures FindIdentity(t, sub, hash) == Some(i) <==> i < |t| && Stores(t[i], sub, hash)
  {
    var found := FindIdentity(t, sub, hash);
    if i < |t| && Stores(t[i], sub, hash) {
      assert IsUnified(t[i], sub) && IsUnified(t[found.value], sub);
      assert !(found.value < i) && !(i < found.value);
    }
  }

  lemma NotStored(t: Table, sub: Guid, hash: IdentityHash)
    ensures FindIdentity(t, sub, hash).None? <==> forall j :: 0 <= j < |t| ==> !Stores(t[j], sub, hash)
  {
    var found := FindIdentity(t, sub, hash);
    if found.None? {
      forall j | 0 <= j < |t| ensures !Stores(t[j], sub, hash) {
        assert IsUnified(t[j], sub) ==> t[j].policy.boundIdentity != Some(hash);
      }
    }
  }

  lemma LookupGoesBy(t: Table, sub: Guid, hwid: string, keys: IdentityKeys, i: nat)
    requires UniqueIndexes(t) && keys.current.Some?
    ensures
      var identity := Identify(Hwid(hwid), keys);
      FindUnified(t, sub, identity.current, identity.previous) == Some(i) <==> GoesBy(t, sub, hwid, keys, i)
  {
    StoredOnce(t, sub, IdentityHash(keys.current.value, hwid), i);
    NotStored(t, sub, IdentityHash(keys.current.value, hwid));
    if keys.previous.Some? {
      StoredOnce(t, sub, IdentityHash(keys.previous.value, hwid), i);
    }
  }

  lemma RefusedUnlessEntitled(db: Db, guid: Guid, secretVerified: bool, now: Time)
    ensures FeedRefusal(db, guid, secretVerified, now).None? <==> secretVerified && Entitled(db, guid, now)
  {
  }

  /* ---------- a device that is known ---------- */

  /** The row after its HWID has been admitted: its hash is that under the current key, its activation
      and everything else is kept, and only a lapsed reservation is renewed. */
  predicate Readmitted(
      d: Device, row: Device, p: Presented, displayName: string, hash: IdentityHash, until: Time, now: Time)
  {
    && row == d.(displayName := displayName, policy := row.policy, pendingExpiresAt := row.pendingExpiresAt,
                 provisioningExpiresAt := row.provisioningExpiresAt, state := row.state)
    && row.policy == d.policy.(boundPlatform := row.policy.boundPlatform, boundIdentity := Some(hash))
    && row.policy.boundPlatform == (if p.platform.Some? then p.platform else d.policy.boundPlatform)
    && (if Live(d, now) then
          row.pendingExpiresAt == d.pendingExpiresAt && row.provisioningExpiresAt == d.provisioningExpiresAt
          && row.state == d.state
        else
          row.pendingExpiresAt == Some(until) && row.provisioningExpiresAt == Some(until) && row.state.Provisioning?)
  }

  /** A known HWID is admitted if and only if its row is neither revoked nor disabled and holds its slot
      or finds one free.  However full the subscription, a device that holds its slot is served. */
  lemma KnownAdmitted(
      db: Db, cfg: Config, guid: Guid, hasToken: bool, secretVerified: bool, p: Presented,
      displayName: string, draw: Draw, now: Time, i: nat)
    requires TableInvariant(db.devices) && UniqueIndexes(db.devices)
    requires p.header.Hwid? && GoesBy(db.devices, guid, p.header.value, p.keys, i)
    ensures
      var d := db.devices[i];
      var outcome := Resolve(db, cfg, guid, hasToken, secretVerified, p, displayName, draw, now);
      && (outcome.result.access.Permit?
          <==> && Asks(db, guid, hasToken, secretVerified, p, now) && d.revokedAt.None? && !d.state.Disabled?
               && (Live(d, now) || CountOccupied(db.devices, guid, now) < db.entitlements[guid].max))
      && (outcome.result.access.Permit? ==>
            && |outcome.db.devices| == |db.devices|
            && outcome.db == db.(devices := db.devices[i := outcome.db.devices[i]])
            && Readmitted(d, outcome.db.devices[i], p, displayName,
                          IdentityHash(p.keys.current.value, p.header.value), now + cfg.reservationTtl, now)
            && outcome.result == Resolution(Permit(CountOccupied(outcome.db.devices, guid, now),
                                                   db.entitlements[guid].max, db.entitlements[guid].validUntil),
                                            Some(d.publicId), false, d.activatedAt.None?))
      && (!outcome.result.access.Permit? ==> outcome.db == db && outcome.result.access.Forbid?)
  {
    var identity := Identify(p.header, p.keys);
    LookupGoesBy(db.devices, guid, p.header.value, p.keys, i);
    RefusedUnlessEntitled(db, guid, secretVerified, now);
    assert RowInvariant(db.devices[i]);
    if Asks(db, guid, hasToken, secretVerified, p, now) {
      ResolveKnownCommits(db, cfg, guid, db.entitlements[guid], i, identity, p, displayName, now);
    }
  }

  /* ---------- a device that is new ---------- */

  predicate Unknown(t: Table, sub: Guid, p: Presented) {
    p.header.Hwid? ==> forall i: nat :: i < |t| ==> !GoesBy(t, sub, p.header.value, p.keys, i)
  }

  /** A new row of the feed: pending, bound to the HWID, with a reservation and no credential. */
  predicate NewlyReserved(
      d: Device, sub: Guid, draw: Draw, displayName: string, p: Presented, hash: IdentityHash, until: Time)
  {
    && d.sub == sub && d.channel.UnifiedFeed? && d.publicId == draw.publicId && d.secretHash == draw.secret
    && d.displayName == displayName
    && d.pendingExpiresAt == Some(until) && d.provisioningExpiresAt == Some(until) && d.state.Provisioning?
    && d.activatedAt.None? && d.revokedAt.None? && d.revocationReason.None?
    && d.credential.Erased() && d.issuanceKey.None? && d.issuanceHash.None?
    && d.requestedPlatform == p.platform && d.lastTransferAt.None? && d.transferCount == 0
    && d.policy == FeedPolicy(2, Enforce, Bound, p.platform, Some(hash))
  }

  /** A HWID without a row is admitted if and only if a slot is free; it then reserves one. */
  lemma NewAdmitted(
      db: Db, cfg: Config, guid: Guid, hasToken: bool, secretVerified: bool, p: Presented,
      displayName: string, draw: Draw, now: Time)
    requires UniqueIndexes(db.devices) && Unknown(db.devices, guid, p)
    ensures
      var outcome := Resolve(db, cfg, guid, hasToken, secretVerified, p, displayName, draw, now);
      && (outcome.result.access.Permit?
          <==> && Asks(db, guid, hasToken, secretVerified, p, now)
               && CountOccupied(db.devices, guid, now) < db.entitlements[guid].max
               && !PublicIdTaken(db.devices, draw.publicId))
      && (outcome.result.access.Permit? ==>
            && |outcome.db.devices| == |db.devices| + 1
            && outcome.db == db.(devices := db.devices + [outcome.db.devices[|db.devices|]])
            && NewlyReserved(outcome.db.devices[|db.devices|], guid, draw, displayName, p,
                             IdentityHash(p.keys.current.value, p.header.value), now + cfg.reservationTtl)
            && outcome.result.publicId == Some(draw.publicId) && outcome.result.created && outcome.result.provisioning)
      && (!outcome.result.access.Permit? ==> outcome.db == db)
  {
    RefusedUnlessEntitled(db, guid, secretVerified, now);
    if Asks(db, guid, hasToken, secretVerified, p, now) {
      var identity := Identify(p.header, p.keys);
      var found := FindUnified(db.devices, guid, identity.current, identity.previous);
      if found.Some? {
        LookupGoesBy(db.devices, guid, p.header.value, p.keys, found.value);
      }
      ResolveNewInserts(db, cfg, guid, db.entitlements[guid], identity.current, p, displayName, draw, now);
    }
  }

  /** What a refusal says is true, and the reasons are exact where they do not depend on others. */
  lemma ResolveRefusals(
      db: Db, cfg: Config, guid: Guid, hasToken: bool, secretVerified: bool, p: Presented,
      displayName: string, draw: Draw, now: Time)
    requires UniqueIndexes(db.devices)
    ensures
      var access := Resolve(db, cfg, guid, hasToken, secretVerified, p, displayName, draw, now).result.access;
      access.Forbid? ==>
        match access.status
        case DeviceIdentityRequired => !p.header.Hwid? || p.keys.current.None?
        case SubscriptionNotFound => guid !in db.subscriptions
        case DeviceTokenInvalid => !hasToken || !secretVerified
        case SubscriptionExpired =>
          guid in db.entitlements
          && (db.entitlements[guid].status == "expired"
              || (db.entitlements[guid].validUntil.Some? && db.entitlements[guid].validUntil.value <= now))
        case SubscriptionDisabled => guid in db.entitlements ==> db.entitlements[guid].status != "active"
        case DeviceTokenRevoked =>
          p.header.Hwid?
          && exists i: nat :: GoesBy(db.devices, guid, p.header.value, p.keys, i)
                              && (db.devices[i].revokedAt.Some? || db.devices[i].state.Disabled?)
        case DeviceLimitReached =>
          guid in db.entitlements && CountOccupied(db.devices, guid, now) >= db.entitlements[guid].max
        case _ => false
    ensures
      var access := Resolve(db, cfg, guid, hasToken, secretVerified, p, displayName, draw, now).result.access;
      access.Forbid? && access.status.DeviceIdentityRequired? <==> !p.header.Hwid? || p.keys.current.None?
  {
    var identity := Identify(p.header, p.keys);
    if identity.Identified? {
      var found := FindUnified(db.devices, guid, identity.current, identity.previous);
      if found.Some? {
        LookupGoesBy(db.devices, guid, p.header.value, p.keys, found.value);
      }
    }
  }

  /* ---------- activating and failing ---------- */

  /** Row i of the feed is the one its public id names. */
  lemma AddressedRow(db: Db, i: nat)
    requires UniqueIndexes(db.devices) && i < |db.devices|
    ensures FeedRow(db, db.devices[i].sub, db.devices[i].publicId)
         == if db.devices[i].sub in db.subscriptions && db.devices[i].channel.UnifiedFeed? then Some(i) else None
  {
    NamedRow(db.devices, i);
  }

  /** Activation makes the slot of an unrevoked row of the feed a lasting one, from the first time on,
      and touches nothing else. */
  lemma ActivationEffect(db: Db, i: nat, now: Time)
    requires UniqueIndexes(db.devices) && i < |db.devices| && db.devices[i].sub in db.subscriptions
    ensures
      var d := db.devices[i];
      var after := MarkActivated(db, d.sub, d.publicId, now);
      if d.channel.UnifiedFeed? && d.revokedAt.None? then
        && |after.devices| == |db.devices| && after == db.(devices := db.devices[i := after.devices[i]])
        && var row := after.devices[i];
           && row == d.(activatedAt := row.activatedAt, pendingExpiresAt := None, provisioningExpiresAt := None,
                        state := ActiveState)
           && row.activatedAt == (if d.activatedAt.Some? then d.activatedAt else Some(now))
           && forall later :: Live(row, later)
      else after == db
  {
    AddressedRow(db, i);
  }

  /** A failure is noted, and sets only the deadlines that are missing. */
  lemma FailureEffect(db: Db, cfg: Config, i: nat, now: Time)
    requires UniqueIndexes(db.devices) && i < |db.devices| && db.devices[i].sub in db.subscriptions
    ensures
      var d := db.devices[i];
      var after := MarkFailed(db, cfg, d.sub, d.publicId, now);
      var until := Some(now + cfg.reservationTtl);
      if d.channel.UnifiedFeed? && d.revokedAt.None? then
        && |after.devices| == |db.devices| && after == db.(devices := db.devices[i := after.devices[i]])
        && var row := after.devices[i];
           && row == d.(state := ProvisioningFailed, pendingExpiresAt := row.pendingExpiresAt,
                        provisioningExpiresAt := row.provisioningExpiresAt)
           && row.pendingExpiresAt == (if d.pendingExpiresAt.Some? then d.pendingExpiresAt else until)
           && row.provisioningExpiresAt == (if d.provisioningExpiresAt.Some? then d.provisioningExpiresAt else until)
      else after == db
  {
    AddressedRow(db, i);
  }

  /* ---------- enabling ---------- */

  /** A revoked device of the feed is enabled if and only if the subscription is entitled and has a slot
      free; it is then pending with a new reservation. */
  lemma EnabledExactly(db: Db, cfg: Config, i: nat, now: Time)
    requires UniqueIndexes(db.devices) && i < |db.devices|
    ensures
      var d, until := db.devices[i], Some(now + cfg.reservationTtl);
      var outcome := Enable(db, cfg, d.sub, d.publicId, now);
      && (outcome.result.Enabled?
          <==> d.channel.UnifiedFeed? && d.revokedAt.Some? && Entitled(db, d.sub, now)
               && CountOccupied(db.devices, d.sub, now) < db.entitlements[d.sub].max)
      && outcome.db == (if outcome.result.Enabled? then
                          db.(devices := db.devices[i := d.(revokedAt := None, revocationReason := None,
                                                           activatedAt := None, pendingExpiresAt := until,
                                                           provisioningExpiresAt := until, state := Provisioning)])
                        else db)
      && (outcome.result.EnableNotFound? <==> !d.channel.UnifiedFeed? || d.sub !in db.subscriptions)
      && (outcome.result.EnableInactive? ==> !Entitled(db, d.sub, now))
      && (outcome.result.EnableExisting? ==> d.revokedAt.None?)
      && (outcome.result.EnableLimitReached? ==>
            CountOccupied(db.devices, d.sub, now) >= db.entitlements[d.sub].max)
  {
    AddressedRow(db, i);
  }

  lemma SameHolder(t: Table, u: Table, sub: Guid, hwid: string, keys: IdentityKeys, i: nat)
    requires |u| == |t| && GoesBy(t, sub, hwid, keys, i)
    requires forall j :: 0 <= j < |t| ==>
               u[j].sub == t[j].sub && u[j].channel == t[j].channel && u[j].policy == t[j].policy
    ensures GoesBy(u, sub, hwid, keys, i)
  {
    forall j | 0 <= j < |t| && !Stores(t[j], sub, IdentityHash(keys.current.value, hwid))
      ensures !Stores(u[j], sub, IdentityHash(keys.current.value, hwid))
    {
    }
  }

  /** Enabling undoes disabling: until its new reservation runs out the HWID is admitted again. */
  lemma EnabledIsAdmitted(
      db: Db, cfg: Config, i: nat, now: Time, cfg': Config, p: Presented, displayName: string, draw: Draw,
      later: Time)
    requires TableInvariant(db.devices) && UniqueIndexes(db.devices) && i < |db.devices|
    requires Enable(db, cfg, db.devices[i].sub, db.devices[i].publicId, now).result.Enabled?
    requires p.header.Hwid? && GoesBy(db.devices, db.devices[i].sub, p.header.value, p.keys, i)
    requires now <= later < now + cfg.reservationTtl && Entitled(db, db.devices[i].sub, later)
    ensures
      var enabled := Enable(db, cfg, db.devices[i].sub, db.devices[i].publicId, now).db;
      Resolve(enabled, cfg', db.devices[i].sub, true, true, p, displayName, draw, later).result.access.Permit?
  {
    var d := db.devices[i];
    var enabled := Enable(db, cfg, d.sub, d.publicId, now).db;
    EnabledExactly(db, cfg, i, now);
    EnableGood(db, cfg, d.sub, d.publicId, now);
    EnableUnique(db, cfg, d.sub, d.publicId, now);
    SameHolder(db.devices, enabled.devices, d.sub, p.header.value, p.keys, i);
    KnownAdmitted(enabled, cfg', d.sub, true, true, p, displayName, draw, later, i);
  }
}
