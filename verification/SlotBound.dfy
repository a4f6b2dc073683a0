/** No subscription ever holds more live devices than its entitlement allows, in any run whose
    timestamps do not go back and whose late activations find a free slot. */
module SlotBound {
  import opened Text
  import opened Canonical
  import opened DevicePolicy
  import opened DeviceTable
  import opened Registry
  import opened Lifecycle

  /** Rows belong to known subscriptions, and every subscription has an entitlement. */
  ghost predicate Rooted(db: Db) {
    db.entitlements.Keys == db.subscriptions
    && forall i :: 0 <= i < |db.devices| ==> db.devices[i].sub in db.subscriptions
  }

  ghost predicate Bounded(db: Db, now: Time) {
    forall sub :: sub in db.entitlements ==>
      CountOccupied(db.devices, sub, now) <= db.entitlements[sub].max
  }

  ghost predicate KeepsBound(db: Db, after: Db, now: Time) {
    Bounded(db, now) ==> Bounded(after, now)
  }

  /** No subscription gains a device, except that guid may fill up to max. */
  ghost predicate Fits(t: Table, u: Table, guid: Guid, max: int, now: Time) {
    forall sub :: CountOccupied(u, sub, now) <= CountOccupied(t, sub, now)
                  || (sub == guid && CountOccupied(u, sub, now) <= max)
  }

  /** Old rows stay with their subscriptions; new ones belong to guid. */
  predicate ExtendsFor(t: Table, u: Table, guid: Guid) {
    && |t| <= |u|
    && (forall i :: 0 <= i < |t| ==> u[i].sub == t[i].sub)
    && (forall i :: |t| <= i < |u| ==> u[i].sub == guid)
  }

  /** What a transaction on the device table does to rooted, bounded states. */
  ghost predicate SlotStep(db: Db, after: Db, guid: Guid, now: Time) {
    && after.entitlements == db.entitlements && after.subscriptions == db.subscriptions
    && ExtendsFor(db.devices, after.devices, guid)
    && (after.devices != db.devices ==>
          guid in db.entitlements && Fits(db.devices, after.devices, guid, db.entitlements[guid].max, now))
  }

  lemma Stays(db: Db, guid: Guid, now: Time)
    ensures SlotStep(db, db, guid, now)
  {
  }

  lemma PutStep(db: Db, i: nat, d: Device, now: Time)
    requires i < |db.devices| && d.sub == db.devices[i].sub && d.sub in db.entitlements
    requires Live(d, now) ==>
               Live(db.devices[i], now) || CountOccupied(db.devices, d.sub, now) < db.entitlements[d.sub].max
    ensures SlotStep(db, db.(devices := db.devices[i := d]), d.sub, now)
  {
    PutFits(db.devices, i, d, db.entitlements[d.sub].max, now);
  }

  lemma TableStep(db: Db, t: Table, guid: Guid, now: Time)
    requires guid in db.entitlements && ExtendsFor(db.devices, t, guid)
    requires Fits(db.devices, t, guid, db.entitlements[guid].max, now)
    ensures SlotStep(db, db.(devices := t), guid, now)
  {
  }

  lemma SlotStepKeeps(db: Db, after: Db, guid: Guid, now: Time)
    requires Rooted(db) && SlotStep(db, after, guid, now)
    ensures Rooted(after) && KeepsBound(db, after, now)
  {
    if Bounded(db, now) {
      forall sub | sub in after.entitlements
        ensures CountOccupied(after.devices, sub, now) <= after.entitlements[sub].max
      {
        assert CountOccupied(db.devices, sub, now) <= db.entitlements[sub].max;
      }
    }
    forall i | 0 <= i < |after.devices| ensures after.devices[i].sub in after.subscriptions {
      if i < |db.devices| {
        assert db.devices[i].sub in db.subscriptions;
      }
    }
  }

  lemma ShrinkFits(t: Table, u: Table, guid: Guid, max: int, now: Time)
    requires Shrinks(t, u, now)
    ensures Fits(t, u, guid, max, now)
  {
    forall sub ensures CountOccupied(u, sub, now) <= CountOccupied(t, sub, now) {
      ShrinkingCounts(t, u, sub, now);
    }
  }

  /** One more row fits where the two counts of its subscription leave room. */
  lemma AppendFits(t: Table, u: Table, d: Device, guid: Guid, max: int, now: Time)
    requires Shrinks(t, u, now) && d.sub == guid
    requires CountActive(u, guid) + CountPending(u, guid, now) < max
    ensures Fits(t, u + [d], guid, max, now)
  {
    ActiveAndPendingAreOccupied(u, guid, now);
    forall sub
      ensures CountOccupied(u + [d], sub, now) <= CountOccupied(t, sub, now)
              || (sub == guid && CountOccupied(u + [d], sub, now) <= max)
    {
      AppendCounts(u, d, sub, now);
      ShrinkingCounts(t, u, sub, now);
    }
  }

  lemma PutFits(t: Table, i: nat, d: Device, max: int, now: Time)
    requires i < |t| && d.sub == t[i].sub
    requires Live(d, now) ==> Live(t[i], now) || CountOccupied(t, d.sub, now) < max
    ensures Fits(t, t[i := d], d.sub, max, now)
  {
    forall sub
      ensures CountOccupied(t[i := d], sub, now) <= CountOccupied(t, sub, now)
              || (sub == d.sub && CountOccupied(t[i := d], sub, now) <= max)
    {
      PutCounts(t, i, d, sub, now);
    }
  }

  lemma ExpireShrinks(t: Table, guid: Guid, now: Time)
    ensures Shrinks(t, ExpirePending(t, guid, now), now)
  {
  }

  lemma RetireShrinks(t: Table, i: nat, guid: Guid, reason: Reason, now: Time)
    requires i < |t|
    ensures Shrinks(t, Retire(t, i, guid, reason, now), now)
  {
    var v := t[i := RevokeRow(ReleaseKey(t[i]), now, reason)];
    assert Shrinks(t, v, now);
    ExpireShrinks(v, guid, now);
  }

  lemma ShrinksTransitive(t: Table, u: Table, v: Table, now: Time)
    requires Shrinks(t, u, now) && Shrinks(u, v, now)
    ensures Shrinks(t, v, now)
  {
  }

  lemma IssueNewFits(
      s: Table, t: Table, cfg: Config, guid: Guid, max: int, r: TokenRequest, displayName: string, key: string,
      hash: string, draw: Draw, now: Time)
    requires Shrinks(s, t, now)
    ensures
      var u := IssueNew(t, cfg, guid, max, r, displayName, key, hash, draw, now).0;
      && Fits(s, u, guid, max, now)
      && ExtendsFor(s, u, guid)
  {
    var platform := RequestedPlatform(r.platform);
    ShrinkFits(s, t, guid, max, now);
    var legacy := FindLegacy(t, guid, displayName);
    if legacy.Some? {
      var u := t[legacy.value := AdoptLegacy(t[legacy.value], key, hash, platform)];
      assert Shrinks(t, u, now);
      ShrinksTransitive(s, t, u, now);
      ShrinkFits(s, u, guid, max, now);
    }
    if CountActive(t, guid) + CountPending(t, guid, now) < max {
      AppendFits(s, t, IssuedLink(cfg, guid, draw, displayName, key, hash, platform, now), guid, max, now);
    }
  }

  lemma ReplayShrinks(
      t: Table, i: nat, name: Option<string>, platform: Option<Platform>, hash: string, cfg: Config,
      active: nat, pending: nat, max: int, now: Time)
    requires i < |t|
    ensures Shrinks(t, ReplayIssuance(t, i, name, platform, hash, cfg, active, pending, max).0, now)
  {
  }

  lemma ReplayFits(
      s: Table, t: Table, i: nat, name: Option<string>, platform: Option<Platform>, hash: string, cfg: Config,
      guid: Guid, active: nat, pending: nat, max: int, now: Time)
    requires i < |t| && Shrinks(s, t, now)
    ensures
      var u := ReplayIssuance(t, i, name, platform, hash, cfg, active, pending, max).0;
      Fits(s, u, guid, max, now) && ExtendsFor(s, u, guid)
  {
    var u := ReplayIssuance(t, i, name, platform, hash, cfg, active, pending, max).0;
    ReplayShrinks(t, i, name, platform, hash, cfg, active, pending, max, now);
    ShrinksTransitive(s, t, u, now);
    ShrinkFits(s, u, guid, max, now);
  }

  lemma IssueTokenFits(
      s: Table, t: Table, cfg: Config, guid: Guid, max: int, r: TokenRequest, draw: Draw, now: Time)
    requires Shrinks(s, t, now)
    ensures
      var u := IssueToken(t, cfg, guid, max, r, draw, now).0;
      && Fits(s, u, guid, max, now)
      && ExtendsFor(s, u, guid)
  {
    var active, pending := CountActive(t, guid), CountPending(t, guid, now);
    var displayName := r.displayName.GetOr(DefaultDisplayName(active + pending + 1));
    var key, platform := EffectiveKey(cfg, r, displayName), RequestedPlatform(r.platform);
    var hash := IssuancePayload(guid, r.displayName, platform);
    var u, existing := IssueToken(t, cfg, guid, max, r, draw, now).0, FindKey(t, guid, key);
    if r.key.NoKey? && cfg.requireIssuanceKey {
      assert u == t;
      ShrinkFits(s, t, guid, max, now);
    } else if existing.Some? {
      assert u == ReplayIssuance(t, existing.value, r.displayName, platform, hash, cfg, active, pending, max).0;
      ReplayFits(s, t, existing.value, r.displayName, platform, hash, cfg, guid, active, pending, max, now);
    } else {
      assert u == IssueNew(t, cfg, guid, max, r, displayName, key, hash, draw, now).0;
      IssueNewFits(s, t, cfg, guid, max, r, displayName, key, hash, draw, now);
    }
  }

  lemma CreateTokenSlots(db: Db, cfg: Config, guid: Guid, r: TokenRequest, draw: Draw, now: Time)
    ensures SlotStep(db, CreateToken(db, cfg, guid, r, draw, now).db, guid, now)
  {
    Stays(db, guid, now);
    if guid in db.entitlements {
      var t, max := ExpirePending(db.devices, guid, now), db.entitlements[guid].max;
      ExpireShrinks(db.devices, guid, now);
      IssueTokenFits(db.devices, t, cfg, guid, max, r, draw, now);
      TableStep(db, IssueToken(t, cfg, guid, max, r, draw, now).0, guid, now);
    }
  }

  lemma ReplaceSlots(db: Db, i: nat, guid: Guid, reason: Reason, d: Device, now: Time)
    requires i < |db.devices| && d.sub == guid && guid in db.entitlements
    ensures
      var u := Retire(db.devices, i, guid, reason, now);
      NoSlotLeft(u, guid, db.entitlements[guid].max, now).None? ==>
        SlotStep(db, db.(devices := u + [d]), guid, now)
  {
    var u, max := Retire(db.devices, i, guid, reason, now), db.entitlements[guid].max;
    RetireShrinks(db.devices, i, guid, reason, now);
    if NoSlotLeft(u, guid, max, now).None? {
      AppendFits(db.devices, u, d, guid, max, now);
      TableStep(db, u + [d], guid, now);
    }
  }

  lemma RegenerateSlots(db: Db, cfg: Config, guid: Guid, publicId: string, draw: Draw, now: Time)
    ensures SlotStep(db, Regenerate(db, cfg, guid, publicId, draw, now).db, guid, now)
  {
    Stays(db, guid, now);
    var found := FindDevice(db.devices, guid, publicId);
    if found.Some? && guid in db.entitlements {
      ReplaceSlots(db, found.value, guid, Regenerated,
                   RegeneratedLink(cfg, db.devices[found.value], found.value, draw, now), now);
    }
  }

  lemma TransferRowSlots(
      db: Db, cfg: Config, guid: Guid, i: nat, operationId: string, platform: Platform, fingerprint: string,
      draw: Draw, now: Time)
    requires i < |db.devices| && guid in db.entitlements && db.devices[i].sub == guid
    ensures SlotStep(
      db, TransferRow(db, cfg, guid, db.entitlements[guid].max, i, operationId, platform, fingerprint, draw, now).db,
      guid, now)
  {
    Stays(db, guid, now);
    ReplaceSlots(db, i, guid, Transferred, TransferredLink(cfg, db.devices[i], i, platform, draw, now), now);
  }

  lemma TransferSlots(
      db: Db, cfg: Config, guid: Guid, publicId: string, operationId: Option<string>,
      platform: Option<Platform>, draw: Draw, now: Time)
    ensures SlotStep(db, Transfer(db, cfg, guid, publicId, operationId, platform, draw, now).db, guid, now)
  {
    Stays(db, guid, now);
    var found := FindDevice(db.devices, guid, publicId);
    if found.Some? && guid in db.entitlements && platform.Some? && operationId.Some? {
      TransferRowSlots(db, cfg, guid, found.value, operationId.value, platform.value,
                       TransferPayload(guid, publicId, platform.value), draw, now);
    }
  }

  /** Activation through a personal link is guarded by the active count alone, which is enough:
      the row already holds the slot it activates. */
  lemma ValidateSlots(
      db: Db, cfg: Config, guid: Guid, publicId: string, token: Option<string>, p: Presented,
      replacement: Protected, now: Time)
    ensures SlotStep(db, Validate(db, cfg, guid, publicId, token, p, replacement, now).db, guid, now)
  {
    Stays(db, guid, now);
    var found := FindDevice(db.devices, guid, publicId);
    if found.Some? && guid in db.entitlements {
      var i, d := found.value, db.devices[found.value];
      if Live(d, now) {
        PutStep(db, i, AccessRow(d, cfg, p, replacement, now).0, now);
      }
      PutStep(db, i, RevokeRow(d, now, ExpiredPending), now);
    }
  }

  lemma ResolveKnownSlots(
      db: Db, cfg: Config, guid: Guid, i: nat, current: IdentityHash, p: Presented, displayName: string, now: Time)
    requires i < |db.devices| && guid in db.entitlements && db.devices[i].sub == guid
    ensures
      var after := ResolveKnown(db, cfg, guid, db.entitlements[guid], i, current, p, displayName, now).db;
      SlotStep(db, after, guid, now)
  {
    var d := db.devices[i];
    ResolveKnownTable(db, cfg, guid, db.entitlements[guid], i, current, p, displayName, now);
    Stays(db, guid, now);
    PutStep(db, i, ObserveIdentity(d, p.platform, displayName, current), now);
    if CountOccupied(db.devices, guid, now) < db.entitlements[guid].max {
      PutStep(db, i, ObserveIdentity(Reserve(d, now + cfg.reservationTtl), p.platform, displayName, current), now);
    }
  }

  lemma ResolveNewSlots(
      db: Db, cfg: Config, guid: Guid, current: IdentityHash, p: Presented, displayName: string, draw: Draw,
      now: Time)
    requires guid in db.entitlements
    ensures SlotStep(
      db, ResolveNew(db, cfg, guid, db.entitlements[guid], current, p, displayName, draw, now).db, guid, now)
  {
    Stays(db, guid, now);
    ActiveAndPendingAreOccupied(db.devices, guid, now);
    var row := NewUnified(guid, draw, displayName, p, current, now + cfg.reservationTtl);
    if CountOccupied(db.devices, guid, now) < db.entitlements[guid].max {
      AppendFits(db.devices, db.devices, row, guid, db.entitlements[guid].max, now);
      TableStep(db, db.devices + [row], guid, now);
    }
  }

  lemma ResolveSlots(
      db: Db, cfg: Config, guid: Guid, hasToken: bool, secretVerified: bool, p: Presented,
      displayName: string, draw: Draw, now: Time)
    ensures SlotStep(
      db, Resolve(db, cfg, guid, hasToken, secretVerified, p, displayName, draw, now).db, guid, now)
  {
    var identity := Identify(p.header, p.keys);
    if identity.Identified? && guid in db.entitlements {
      var found := FindUnified(db.devices, guid, identity.current, identity.previous);
      if found.Some? {
        ResolveKnownSlots(db, cfg, guid, found.value, identity.current, p, displayName, now);
      } else {
        ResolveNewSlots(db, cfg, guid, identity.current, p, displayName, draw, now);
      }
    }
  }

  lemma MarkFailedSlots(db: Db, cfg: Config, guid: Guid, publicId: string, now: Time)
    requires Rooted(db)
    ensures SlotStep(db, MarkFailed(db, cfg, guid, publicId, now), guid, now)
  {
    Stays(db, guid, now);
    var found := FeedRow(db, guid, publicId);
    if found.Some? {
      PutStep(db, found.value, Failed(db.devices[found.value], now + cfg.reservationTtl), now);
    }
  }

  lemma EnableSlots(db: Db, cfg: Config, guid: Guid, publicId: string, now: Time)
    ensures SlotStep(db, Enable(db, cfg, guid, publicId, now).db, guid, now)
  {
    Stays(db, guid, now);
    var found := FeedRow(db, guid, publicId);
    if found.Some? && guid in db.entitlements && CountOccupied(db.devices, guid, now) < db.entitlements[guid].max {
      PutStep(db, found.value, Reenabled(db.devices[found.value], now + cfg.reservationTtl), now);
    }
  }

  lemma RevokeSlots(db: Db, guid: Guid, publicId: string, now: Time)
    requires Rooted(db)
    ensures SlotStep(db, Revoke(db, guid, publicId, now).db, guid, now)
  {
    Stays(db, guid, now);
    var found := FindDevice(db.devices, guid, publicId);
    if found.Some? && guid in db.subscriptions {
      PutStep(db, found.value, DisableRow(db.devices[found.value], now, UserRevoked), now);
    }
  }

  lemma RevokeAllSlots(db: Db, guid: Guid, now: Time)
    requires Rooted(db)
    ensures SlotStep(db, RevokeAll(db, guid, now).db, guid, now)
  {
    Stays(db, guid, now);
    if guid in db.subscriptions {
      var t := ResetAllRows(db.devices, guid, now);
      ShrinkFits(db.devices, t, guid, db.entitlements[guid].max, now);
      TableStep(db, t, guid, now);
    }
  }

  lemma ReadRepairSlots(db: Db, id: nat, previous: Protected, replacement: Protected, now: Time)
    requires Rooted(db)
    ensures
      var after := ReadRepair(db, id, previous, replacement).db;
      Rooted(after) && KeepsBound(db, after, now)
  {
    if id < |db.devices| {
      var d := db.devices[id];
      var after := db.(devices := db.devices[id := d.(credential := Columns(replacement))]);
      PutStep(db, id, d.(credential := Columns(replacement)), now);
      SlotStepKeeps(db, after, d.sub, now);
    }
  }

  /** Raising a limit keeps the bound, and no entitlement change lowers one. */
  lemma RaisedLimits(db: Db, after: Db, guid: Guid, now: Time)
    requires Rooted(db)
    requires after.devices == db.devices && after.subscriptions == db.subscriptions + {guid}
    requires guid in after.entitlements && after.entitlements == db.entitlements[guid := after.entitlements[guid]]
    requires after.entitlements[guid].max >= if guid in db.entitlements then db.entitlements[guid].max else 0
    ensures Rooted(after) && KeepsBound(db, after, now)
  {
    if Bounded(db, now) {
      forall sub | sub in after.entitlements
        ensures CountOccupied(after.devices, sub, now) <= after.entitlements[sub].max
      {
        if sub in db.entitlements {
          assert CountOccupied(db.devices, sub, now) <= db.entitlements[sub].max;
        } else {
          assert OccupiedIds(db.devices, sub, now) == {};
        }
      }
    }
  }

  lemma CreateSubscriptionSlots(db: Db, guid: Guid, externalId: Option<string>, e: Entitlement, now: Time)
    requires Rooted(db)
    ensures
      var after := CreateSubscription(db, guid, externalId, e, now).db;
      Rooted(after) && KeepsBound(db, after, now)
  {
    var outcome := CreateSubscription(db, guid, externalId, e, now);
    if outcome.result.SubscriptionCreated? {
      RaisedLimits(db, outcome.db, guid, now);
    }
  }

  lemma ApplyOperationSlots(db: Db, guid: Guid, r: OperationRequest, now: Time)
    requires Rooted(db)
    ensures
      var after := ApplyOperation(db, guid, r, now).db;
      Rooted(after) && KeepsBound(db, after, now)
  {
    var outcome := ApplyOperation(db, guid, r, now);
    if outcome.result.OperationApplied? {
      RaisedLimits(db, outcome.db, guid, now);
    }
  }

  lemma PutEntitlementSlots(db: Db, guid: Guid, e: Entitlement, now: Time)
    requires Rooted(db)
    ensures
      var after := PutEntitlement(db, guid, e).db;
      Rooted(after) && KeepsBound(db, after, now)
  {
    var outcome := PutEntitlement(db, guid, e);
    if outcome.result.PutApplied? {
      RaisedLimits(db, outcome.db, guid, now);
    }
  }
}
