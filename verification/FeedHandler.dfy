/** The handler of the unified feed: two transactions of the repository with a look at the
    catalogue between them. */
module FeedHandler {
  import opened Text
  import opened Canonical
  import opened DevicePolicy
  import opened DeviceTable
  import opened Registry
  import opened Lifecycle
  import opened Uniqueness
  import opened IdentityRows
  import opened Ownership
  import opened Consistency
  import opened Repository
  import opened SlotBound
  import opened SlotRuns

  datatype Response =
    | NotFoundText
    | StatusOnly(access: Access)
    | ServersUnavailable(access: Access)
    | Links(access: Access)

  /** The row a permitted resolve names: unified, unrevoked, and holding its slot. */
  ghost predicate Reserved(db: Db, guid: Guid, publicId: string, now: Time) {
    var found := FeedRow(db, guid, publicId);
    found.Some? && db.devices[found.value].revokedAt.None? && Live(db.devices[found.value], now)
  }

  lemma NamedFeedRow(db: Db, guid: Guid, i: nat)
    requires UniqueIndexes(db.devices) && i < |db.devices| && IsUnified(db.devices[i], guid) && guid in db.subscriptions
    ensures FeedRow(db, guid, db.devices[i].publicId) == Some(i)
  {
    NamedRow(db.devices, i);
  }

  lemma KnownReserves(
      db: Db, cfg: Config, guid: Guid, e: Entitlement, i: nat, current: IdentityHash, p: Presented,
      displayName: string, now: Time)
    requires TableInvariant(db.devices) && cfg.reservationTtl > 0 && guid in db.subscriptions
    requires i < |db.devices| && IsUnified(db.devices[i], guid)
    ensures
      var outcome := ResolveKnown(db, cfg, guid, e, i, current, p, displayName, now);
      outcome.result.access.Permit? ==>
        outcome.result.publicId == Some(db.devices[i].publicId)
        && Reserved(outcome.db, guid, db.devices[i].publicId, now)
  {
    var outcome := ResolveKnown(db, cfg, guid, e, i, current, p, displayName, now);
    assert RowInvariant(db.devices[i]);
    if outcome.result.access.Permit? {
      NamedFeedRow(outcome.db, guid, i);
    }
  }

  lemma NewReserves(
      db: Db, cfg: Config, guid: Guid, e: Entitlement, current: IdentityHash, p: Presented,
      displayName: string, draw: Draw, now: Time)
    requires cfg.reservationTtl > 0 && guid in db.subscriptions
    ensures
      var outcome := ResolveNew(db, cfg, guid, e, current, p, displayName, draw, now);
      outcome.result.access.Permit? ==>
        outcome.result.publicId == Some(draw.publicId) && Reserved(outcome.db, guid, draw.publicId, now)
  {
    var outcome := ResolveNew(db, cfg, guid, e, current, p, displayName, draw, now);
    if outcome.result.access.Permit? {
      NamedFeedRow(outcome.db, guid, |db.devices|);
    }
  }

  /** A permitted resolve leaves a row that holds its slot at that moment, so activating it at once
      is harmless; only the time that passes until the second transaction can make it late. */
  lemma PermittedMeansReserved(
      db: Db, cfg: Config, guid: Guid, hasToken: bool, secretVerified: bool, p: Presented,
      displayName: string, draw: Draw, now: Time)
    requires TableInvariant(db.devices) && cfg.reservationTtl > 0
    ensures
      var outcome := Resolve(db, cfg, guid, hasToken, secretVerified, p, displayName, draw, now);
      outcome.result.access.Permit? ==>
        outcome.result.publicId.Some?
        && Reserved(outcome.db, guid, outcome.result.publicId.value, now)
        && Harmless(outcome.db, Event(OpMarkActivated(guid, outcome.result.publicId.value), now))
  {
    var identity := Identify(p.header, p.keys);
    if identity.Identified? && guid in db.subscriptions && guid in db.entitlements {
      var e := db.entitlements[guid];
      var found := FindUnified(db.devices, guid, identity.current, identity.previous);
      if found.Some? {
        KnownReserves(db, cfg, guid, e, found.value, identity.current, p, displayName, now);
      } else {
        NewReserves(db, cfg, guid, e, identity.current, p, displayName, draw, now);
      }
    }
  }

  /** Serves the feed when nothing comes between its two transactions.  Links are served only to a
      device that is then active. */
  method ServeFeed(
      repository: MediatorRepository, cfg: Config, guid: Guid, hasToken: bool, secretVerified: bool, p: Presented,
      displayName: string, draw: Draw, catalogAvailable: bool, resolvedAt: Time, activatedAt: Time)
    returns (response: Response)
    requires repository.Valid() && cfg.reservationTtl > 0
    modifies repository
    ensures repository.Valid()
    ensures
      var resolved := Resolve(old(repository.State()), cfg, guid, hasToken, secretVerified, p, displayName, draw,
                              resolvedAt);
      if resolved.result.access.Permit? && catalogAvailable then
        && response == Links(resolved.result.access)
        && repository.State() == MarkActivated(resolved.db, guid, resolved.result.publicId.value, activatedAt)
        && var found := FeedRow(repository.State(), guid, resolved.result.publicId.value);
           found.Some? && IsActive(repository.devices[found.value], guid)
      else
        && repository.State() == resolved.db
        && response == if resolved.result.access.Permit? then ServersUnavailable(resolved.result.access)
                       else if resolved.result.access == Refuse(SubscriptionNotFound) then NotFoundText
                       else StatusOnly(resolved.result.access)
  {
    ghost var start := repository.State();
    PermittedMeansReserved(start, cfg, guid, hasToken, secretVerified, p, displayName, draw, resolvedAt);
    var resolution := repository.ResolveUnifiedFeedDevice(
      cfg, guid, hasToken, secretVerified, p, displayName, draw, resolvedAt);
    if resolution.access.Forbid? && resolution.access.status.SubscriptionNotFound? {
      return NotFoundText;
    }
    if !resolution.access.Permit? || resolution.publicId.None? {
      return StatusOnly(resolution.access);
    }
    if !catalogAvailable {
      return ServersUnavailable(resolution.access);
    }
    ghost var between := repository.State();
    repository.MarkUnifiedDeviceActivated(guid, resolution.publicId.value, activatedAt);
    ActivatedRow(between, guid, resolution.publicId.value, activatedAt);
    return Links(resolution.access);
  }

  lemma ActivatedRow(db: Db, guid: Guid, publicId: string, now: Time)
    requires UniqueIndexes(db.devices)
    requires FeedRow(db, guid, publicId).Some? && db.devices[FeedRow(db, guid, publicId).value].revokedAt.None?
    ensures
      var after := MarkActivated(db, guid, publicId, now);
      FeedRow(after, guid, publicId) == FeedRow(db, guid, publicId)
      && IsActive(after.devices[FeedRow(after, guid, publicId).value], guid)
  {
    var i := FeedRow(db, guid, publicId).value;
    MarkActivatedUnique(db, guid, publicId, now);
    NamedFeedRow(MarkActivated(db, guid, publicId, now), guid, i);
  }
}
