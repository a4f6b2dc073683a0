/** The three unique indexes: every transaction keeps them, and which transactions can run
    into them at all. */
module Uniqueness {
  import opened Text
  import opened Canonical
  import opened DevicePolicy
  import opened DeviceTable
  import opened Registry
  import opened Lifecycle

  /** No index sees a new value: keys may only be given up. */
  predicate SameIndexed(a: Device, b: Device) {
    b.sub == a.sub && b.publicId == a.publicId && b.channel == a.channel
    && b.policy.boundIdentity == a.policy.boundIdentity
    && (b.issuanceKey == a.issuanceKey || b.issuanceKey.None?)
  }

  lemma SameIndexedTable(t: Table, u: Table)
    requires UniqueIndexes(t) && |u| == |t|
    requires forall i :: 0 <= i < |t| ==> SameIndexed(t[i], u[i])
    ensures UniqueIndexes(u)
  {
    forall i, j | 0 <= i < j < |u| ensures !Clash(u[i], u[j]) {
      assert SameIndexed(t[i], u[i]) && SameIndexed(t[j], u[j]) && !Clash(t[i], t[j]);
    }
  }

  lemma PutUnique(t: Table, i: nat, d: Device)
    requires UniqueIndexes(t) && i < |t| && SameIndexed(t[i], d)
    ensures UniqueIndexes(t[i := d])
  {
    SameIndexedTable(t, t[i := d]);
  }

  lemma ExpireUnique(t: Table, sub: Guid, now: Time)
    requires UniqueIndexes(t)
    ensures UniqueIndexes(ExpirePending(t, sub, now))
  {
    SameIndexedTable(t, ExpirePending(t, sub, now));
  }

  predicate PublicIdTaken(t: Table, publicId: string) {
    exists i :: 0 <= i < |t| && t[i].publicId == publicId
  }

  lemma AppendUnique(t: Table, d: Device)
    requires UniqueIndexes(t) && !PublicIdTaken(t, d.publicId)
    requires forall i :: 0 <= i < |t| ==> !KeyClash(t[i], d) && !IdentityClash(t[i], d)
    ensures UniqueIndexes(t + [d])
  {
    var u := t + [d];
    forall i, j | 0 <= i < j < |u| ensures !Clash(u[i], u[j]) {
      if j < |t| {
        assert !Clash(t[i], t[j]);
      }
    }
  }

  lemma ValidateUnique(
      db: Db, cfg: Config, guid: Guid, publicId: string, token: Option<string>, p: Presented,
      replacement: Protected, now: Time)
    requires UniqueIndexes(db.devices)
    ensures UniqueIndexes(Validate(db, cfg, guid, publicId, token, p, replacement, now).db.devices)
  {
    var found := FindDevice(db.devices, guid, publicId);
    if found.Some? {
      PutUnique(db.devices, found.value, RevokeRow(db.devices[found.value], now, ExpiredPending));
    }
  }

  lemma MarkActivatedUnique(db: Db, guid: Guid, publicId: string, now: Time)
    requires UniqueIndexes(db.devices)
    ensures UniqueIndexes(MarkActivated(db, guid, publicId, now).devices)
  {
    var found := FeedRow(db, guid, publicId);
    if found.Some? {
      PutUnique(db.devices, found.value, Activated(db.devices[found.value], now));
    }
  }

  lemma MarkFailedUnique(db: Db, cfg: Config, guid: Guid, publicId: string, now: Time)
    requires UniqueIndexes(db.devices)
    ensures UniqueIndexes(MarkFailed(db, cfg, guid, publicId, now).devices)
  {
    var found := FeedRow(db, guid, publicId);
    if found.Some? {
      PutUnique(db.devices, found.value, Failed(db.devices[found.value], now + cfg.reservationTtl));
    }
  }

  lemma EnableUnique(db: Db, cfg: Config, guid: Guid, publicId: string, now: Time)
    requires UniqueIndexes(db.devices)
    ensures UniqueIndexes(Enable(db, cfg, guid, publicId, now).db.devices)
  {
    var found := FeedRow(db, guid, publicId);
    if found.Some? {
      PutUnique(db.devices, found.value, Reenabled(db.devices[found.value], now + cfg.reservationTtl));
    }
  }

  lemma RevocationsUnique(db: Db, guid: Guid, publicId: string, now: Time)
    requires UniqueIndexes(db.devices)
    ensures UniqueIndexes(Revoke(db, guid, publicId, now).db.devices)
    ensures UniqueIndexes(RevokeAll(db, guid, now).db.devices)
  {
    var found := FindDevice(db.devices, guid, publicId);
    if found.Some? {
      PutUnique(db.devices, found.value, DisableRow(db.devices[found.value], now, UserRevoked));
    }
    SameIndexedTable(db.devices, ResetAllRows(db.devices, guid, now));
  }

  lemma ReadRepairUnique(db: Db, id: nat, previous: Protected, replacement: Protected)
    requires UniqueIndexes(db.devices)
    ensures UniqueIndexes(ReadRepair(db, id, previous, replacement).db.devices)
  {
    if id < |db.devices| {
      PutUnique(db.devices, id, db.devices[id].(credential := Columns(replacement)));
    }
  }

  lemma IssuedUnique(db: Db, cfg: Config, guid: Guid, r: TokenRequest, draw: Draw, now: Time)
    requires UniqueIndexes(db.devices)
    ensures UniqueIndexes(CreateToken(db, cfg, guid, r, draw, now).db.devices)
  {
  }

  lemma StepUniqueFeed(db: Db, e: Event)
    requires UniqueIndexes(db.devices)
    requires e.op.OpMarkActivated? || e.op.OpMarkFailed? || e.op.OpEnable?
    ensures UniqueIndexes(Step(db, e).devices)
  {
    match e.op
    case OpMarkActivated(g, p) => MarkActivatedUnique(db, g, p, e.at);
    case OpMarkFailed(cfg, g, p) => MarkFailedUnique(db, cfg, g, p, e.at);
    case OpEnable(cfg, g, p) => EnableUnique(db, cfg, g, p, e.at);
  }

  lemma StepUniqueRevocations(db: Db, e: Event)
    requires UniqueIndexes(db.devices)
    requires e.op.OpRevoke? || e.op.OpRevokeAll? || e.op.OpReadRepair?
    ensures UniqueIndexes(Step(db, e).devices)
  {
    match e.op
    case OpRevoke(g, p) => RevocationsUnique(db, g, p, e.at);
    case OpRevokeAll(g) => RevocationsUnique(db, g, "", e.at);
    case OpReadRepair(i, a, b) => ReadRepairUnique(db, i, a, b);
  }

  lemma StepUniqueAccess(db: Db, e: Event)
    requires UniqueIndexes(db.devices)
    requires e.op.OpValidate? || e.op.OpResolve?
    ensures UniqueIndexes(Step(db, e).devices)
  {
    match e.op
    case OpValidate(cfg, g, p, s, pr, c) => ValidateUnique(db, cfg, g, p, s, pr, c, e.at);
    case _ =>
  }

  /** The other transactions insert and update under the indexes, or leave the table alone. */
  lemma StepUnique(db: Db, e: Event)
    requires UniqueIndexes(db.devices)
    ensures UniqueIndexes(Step(db, e).devices)
  {
    match e.op
    case OpCreateToken(cfg, g, r, f) => IssuedUnique(db, cfg, g, r, f, e.at);
    case OpValidate(_, _, _, _, _, _) => StepUniqueAccess(db, e);
    case OpResolve(_, _, _, _, _, _, _) => StepUniqueAccess(db, e);
    case OpMarkActivated(_, _) => StepUniqueFeed(db, e);
    case OpMarkFailed(_, _, _) => StepUniqueFeed(db, e);
    case OpEnable(_, _, _) => StepUniqueFeed(db, e);
    case OpRevoke(_, _) => StepUniqueRevocations(db, e);
    case OpRevokeAll(_) => StepUniqueRevocations(db, e);
    case OpReadRepair(_, _, _) => StepUniqueRevocations(db, e);
    case _ =>
  }

  lemma {:induction false} RunUnique(db: Db, events: seq<Event>)
    requires UniqueIndexes(db.devices)
    ensures UniqueIndexes(Run(db, events).devices)
    decreases |events|
  {
    if |events| > 0 {
      StepUnique(db, events[0]);
      RunUnique(Step(db, events[0]), events[1..]);
    }
  }

  /* ---------- which transactions can run into an index ---------- */

  lemma ExpireKeepsIndexed(t: Table, sub: Guid, now: Time, publicId: string)
    ensures PublicIdTaken(ExpirePending(t, sub, now), publicId) <==> PublicIdTaken(t, publicId)
  {
    var u := ExpirePending(t, sub, now);
    if PublicIdTaken(t, publicId) {
      var i :| 0 <= i < |t| && t[i].publicId == publicId;
      assert u[i].publicId == publicId;
    }
    if PublicIdTaken(u, publicId) {
      var i :| 0 <= i < |u| && u[i].publicId == publicId;
      assert t[i].publicId == publicId;
    }
  }

  lemma AdoptUnique(t: Table, i: nat, guid: Guid, key: string, hash: string, platform: Option<Platform>)
    requires UniqueIndexes(t) && i < |t| && t[i].sub == guid && FindKey(t, guid, key).None?
    ensures UniqueIndexes(t[i := AdoptLegacy(t[i], key, hash, platform)])
  {
    var u := t[i := AdoptLegacy(t[i], key, hash, platform)];
    forall a, b | 0 <= a < b < |u| ensures !Clash(u[a], u[b]) {
      assert !Clash(t[a], t[b]);
    }
  }

  lemma IssueNewUnique(
      t: Table, cfg: Config, guid: Guid, max: int, r: TokenRequest, displayName: string, key: string,
      hash: string, draw: Draw, now: Time)
    requires UniqueIndexes(t) && !PublicIdTaken(t, draw.publicId) && FindKey(t, guid, key).None?
    ensures UniqueIndexes(IssueNew(t, cfg, guid, max, r, displayName, key, hash, draw, now).0)
  {
    var platform := RequestedPlatform(r.platform);
    var legacy := FindLegacy(t, guid, displayName);
    if legacy.Some? {
      AdoptUnique(t, legacy.value, guid, key, hash, platform);
    }
    AppendUnique(t, IssuedLink(cfg, guid, draw, displayName, key, hash, platform, now));
  }

  lemma ReplayUnique(
      t: Table, i: nat, name: Option<string>, platform: Option<Platform>, hash: string, cfg: Config,
      active: nat, pending: nat, max: int)
    requires UniqueIndexes(t) && i < |t|
    ensures UniqueIndexes(ReplayIssuance(t, i, name, platform, hash, cfg, active, pending, max).0)
  {
    PutUnique(t, i, t[i].(issuanceHash := Coalesce(t[i].issuanceHash, Some(hash))));
  }

  lemma IssueTokenUnique(
      t: Table, cfg: Config, guid: Guid, max: int, r: TokenRequest, draw: Draw, now: Time)
    requires UniqueIndexes(t) && !PublicIdTaken(t, draw.publicId)
    ensures UniqueIndexes(IssueToken(t, cfg, guid, max, r, draw, now).0)
  {
    var active, pending := CountActive(t, guid), CountPending(t, guid, now);
    var displayName := r.displayName.GetOr(DefaultDisplayName(active + pending + 1));
    var key := EffectiveKey(cfg, r, displayName);
    var platform := RequestedPlatform(r.platform);
    var hash := IssuancePayload(guid, r.displayName, platform);
    var existing := FindKey(t, guid, key);
    if existing.Some? {
      ReplayUnique(t, existing.value, r.displayName, platform, hash, cfg, active, pending, max);
    } else {
      IssueNewUnique(t, cfg, guid, max, r, displayName, key, hash, draw, now);
    }
  }

  /** Issuing, regenerating and transferring cannot clash on a key or an identity: only a
      repeated random public id stops them, or, for a transfer, an operation id that another
      subscription has used. */
  lemma CreateTokenCollides(db: Db, cfg: Config, guid: Guid, r: TokenRequest, draw: Draw, now: Time)
    requires UniqueIndexes(db.devices)
    ensures CreateToken(db, cfg, guid, r, draw, now).result.TokenViolation? ==> PublicIdTaken(db.devices, draw.publicId)
  {
    ExpireKeepsIndexed(db.devices, guid, now, draw.publicId);
    ExpireUnique(db.devices, guid, now);
    if !PublicIdTaken(db.devices, draw.publicId) && guid in db.entitlements {
      IssueTokenUnique(ExpirePending(db.devices, guid, now), cfg, guid, db.entitlements[guid].max, r, draw, now);
    }
  }

  lemma RetireIndexed(t: Table, i: nat, guid: Guid, reason: Reason, now: Time)
    requires UniqueIndexes(t) && i < |t|
    ensures
      var u := Retire(t, i, guid, reason, now);
      UniqueIndexes(u) && u[i].issuanceKey.None? && forall j :: 0 <= j < |t| ==> SameIndexed(t[j], u[j])
  {
    var v := t[i := RevokeRow(ReleaseKey(t[i]), now, reason)];
    PutUnique(t, i, v[i]);
    ExpireUnique(v, guid, now);
    forall j | 0 <= j < |t| ensures SameIndexed(t[j], Retire(t, i, guid, reason, now)[j]) {
      assert SameIndexed(t[j], v[j]);
    }
  }

  lemma ReplaceUnique(t: Table, i: nat, guid: Guid, reason: Reason, now: Time, d: Device)
    requires UniqueIndexes(t) && i < |t| && !PublicIdTaken(t, d.publicId)
    requires d.sub == t[i].sub && d.issuanceKey == t[i].issuanceKey && d.channel.DeviceLink?
    ensures UniqueIndexes(Retire(t, i, guid, reason, now) + [d])
  {
    RetireIndexed(t, i, guid, reason, now);
    var u := Retire(t, i, guid, reason, now);
    forall j | 0 <= j < |u| ensures !KeyClash(u[j], d) && !IdentityClash(u[j], d) && u[j].publicId != d.publicId {
      assert SameIndexed(t[j], u[j]);
      if j < i {
        assert !Clash(t[j], t[i]);
      } else if i < j {
        assert !Clash(t[i], t[j]);
      }
    }
    AppendUnique(u, d);
  }

  lemma RegenerateCollides(db: Db, cfg: Config, guid: Guid, publicId: string, draw: Draw, now: Time)
    requires UniqueIndexes(db.devices)
    ensures Regenerate(db, cfg, guid, publicId, draw, now).result.TokenViolation? ==>
              PublicIdTaken(db.devices, draw.publicId)
  {
    var found := FindDevice(db.devices, guid, publicId);
    if found.Some? && !PublicIdTaken(db.devices, draw.publicId) {
      ReplaceUnique(db.devices, found.value, guid, Regenerated, now,
                    RegeneratedLink(cfg, db.devices[found.value], found.value, draw, now));
    }
  }

  lemma TransferCollides(
      db: Db, cfg: Config, guid: Guid, publicId: string, operationId: Option<string>,
      platform: Option<Platform>, draw: Draw, now: Time)
    requires UniqueIndexes(db.devices)
    ensures Transfer(db, cfg, guid, publicId, operationId, platform, draw, now).result.TokenViolation? ==>
              PublicIdTaken(db.devices, draw.publicId)
              || (operationId.Some? && operationId.value in db.transfers)
  {
    var found := FindDevice(db.devices, guid, publicId);
    if found.Some? && platform.Some? && !PublicIdTaken(db.devices, draw.publicId) {
      ReplaceUnique(db.devices, found.value, guid, Transferred, now,
                    TransferredLink(cfg, db.devices[found.value], found.value, platform.value, draw, now));
    }
  }
}
