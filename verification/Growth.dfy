/** How a transaction may extend the table: by nothing, by a freshly issued row, or by the
    replacement of exactly one row, which hands over its issuance key in the same step. */
module Growth {
  import opened Text
  import opened Canonical
  import opened DevicePolicy
  import opened DeviceTable
  import opened Registry
  import opened Lifecycle

  /** A row that holds an issuance key keeps it, and the request hash stored with it. */
  predicate KeyKept(a: Device, b: Device) {
    a.issuanceKey.Some? ==>
      b.issuanceKey == a.issuanceKey && (a.issuanceHash.Some? ==> b.issuanceHash == a.issuanceHash)
  }

  predicate KeysKept(t: Table, u: Table) {
    |t| <= |u| && forall i :: 0 <= i < |t| ==> KeyKept(t[i], u[i])
  }

  predicate KeysKeptExcept(t: Table, u: Table, k: nat) {
    |t| <= |u| && forall i :: 0 <= i < |t| && i != k ==> KeyKept(t[i], u[i])
  }

  predicate FreshlyIssued(d: Device) {
    d.origin.Issued? && d.lastTransferAt.None? && d.transferCount == 0
  }

  predicate RegeneratedRow(prior: Device, d: Device, k: nat) {
    d.origin == RegeneratedFrom(k) && d.lastTransferAt == prior.lastTransferAt
    && d.transferCount == prior.transferCount && d.policy == prior.policy
  }

  predicate TransferredRow(prior: Device, d: Device, k: nat, now: Time, cooldown: int) {
    d.origin == TransferredFrom(k) && d.lastTransferAt == Some(now)
    && d.transferCount == prior.transferCount + 1 && d.policy.boundIdentity.None?
    && (prior.lastTransferAt.Some? ==> prior.lastTransferAt.value + cooldown <= now)
  }

  /** Row d takes the place of row k. */
  predicate Replacement(t: Table, u: Table, k: nat, d: Device, now: Time, cooldown: int) {
    k < |t| <= |u| && d.channel.DeviceLink? && d.sub == t[k].sub
    && d.issuanceKey == t[k].issuanceKey && d.issuanceHash == t[k].issuanceHash
    && t[k].revokedAt.None? && u[k].revokedAt.Some? && u[k].issuanceKey.None?
    && (RegeneratedRow(t[k], d, k) || TransferredRow(t[k], d, k, now, cooldown))
  }

  predicate Grows(t: Table, u: Table, now: Time, cooldown: int) {
    if |u| == |t| then KeysKept(t, u)
    else
      && |u| == |t| + 1
      && u[|t|].revokedAt.None? && u[|t|].activatedAt.None?
      && if u[|t|].origin.Issued? then FreshlyIssued(u[|t|]) && KeysKept(t, u)
         else
           && Replacement(t, u, u[|t|].origin.source, u[|t|], now, cooldown)
           && KeysKeptExcept(t, u, u[|t|].origin.source)
  }

  lemma GrowsReflexive(t: Table, now: Time, cooldown: int)
    ensures Grows(t, t, now, cooldown)
  {
  }

  lemma PutGrows(t: Table, i: nat, d: Device, now: Time, cooldown: int)
    requires i < |t| && KeyKept(t[i], d)
    ensures Grows(t, t[i := d], now, cooldown)
  {
  }

  lemma ExpireKeeps(t: Table, sub: Guid, now: Time)
    ensures KeysKept(t, ExpirePending(t, sub, now))
  {
  }

  /** Expiring first changes nothing about how the table grows. */
  lemma ExpireThenGrows(t: Table, sub: Guid, now: Time, u: Table, cooldown: int)
    requires Grows(ExpirePending(t, sub, now), u, now, cooldown)
    requires |u| == |t| || u[|t|].origin.Issued?
    ensures Grows(t, u, now, cooldown)
  {
    var v := ExpirePending(t, sub, now);
    forall i | 0 <= i < |t| ensures KeyKept(t[i], u[i]) {
      assert KeyKept(t[i], v[i]) && KeyKept(v[i], u[i]);
    }
  }

  lemma AppendIssued(t: Table, d: Device, now: Time, cooldown: int)
    requires FreshlyIssued(d) && d.revokedAt.None? && d.activatedAt.None?
    ensures Grows(t, t + [d], now, cooldown)
  {
  }

  lemma ReplayGrows(
      t: Table, i: nat, name: Option<string>, platform: Option<Platform>, hash: string, cfg: Config,
      active: nat, pending: nat, max: int, now: Time, cooldown: int)
    requires i < |t|
    ensures
      var u := ReplayIssuance(t, i, name, platform, hash, cfg, active, pending, max).0;
      Grows(t, u, now, cooldown) && |u| == |t|
  {
    PutGrows(t, i, t[i].(issuanceHash := Coalesce(t[i].issuanceHash, Some(hash))), now, cooldown);
    GrowsReflexive(t, now, cooldown);
  }

  lemma IssueNewGrows(
      t: Table, cfg: Config, guid: Guid, max: int, r: TokenRequest, displayName: string, key: string,
      hash: string, draw: Draw, now: Time, cooldown: int)
    ensures
      var u := IssueNew(t, cfg, guid, max, r, displayName, key, hash, draw, now).0;
      Grows(t, u, now, cooldown) && (|u| == |t| || u[|t|].origin.Issued?)
  {
    var platform := RequestedPlatform(r.platform);
    GrowsReflexive(t, now, cooldown);
    var legacy := FindLegacy(t, guid, displayName);
    if legacy.Some? {
      PutGrows(t, legacy.value, AdoptLegacy(t[legacy.value], key, hash, platform), now, cooldown);
    }
    AppendIssued(t, IssuedLink(cfg, guid, draw, displayName, key, hash, platform, now), now, cooldown);
  }

  lemma IssueTokenGrows(
      t: Table, cfg: Config, guid: Guid, max: int, r: TokenRequest, draw: Draw, now: Time, cooldown: int)
    ensures
      var u := IssueToken(t, cfg, guid, max, r, draw, now).0;
      Grows(t, u, now, cooldown) && (|u| == |t| || u[|t|].origin.Issued?)
  {
    var active, pending := CountActive(t, guid), CountPending(t, guid, now);
    var displayName := r.displayName.GetOr(DefaultDisplayName(active + pending + 1));
    var key, platform := EffectiveKey(cfg, r, displayName), RequestedPlatform(r.platform);
    var hash := IssuancePayload(guid, r.displayName, platform);
    var u, existing := IssueToken(t, cfg, guid, max, r, draw, now).0, FindKey(t, guid, key);
    if r.key.NoKey? && cfg.requireIssuanceKey {
      assert u == t;
      GrowsReflexive(t, now, cooldown);
    } else if existing.Some? {
      assert u == ReplayIssuance(t, existing.value, r.displayName, platform, hash, cfg, active, pending, max).0;
      ReplayGrows(t, existing.value, r.displayName, platform, hash, cfg, active, pending, max, now, cooldown);
    } else {
      assert u == IssueNew(t, cfg, guid, max, r, displayName, key, hash, draw, now).0;
      IssueNewGrows(t, cfg, guid, max, r, displayName, key, hash, draw, now, cooldown);
    }
  }

  lemma CreateTokenGrows(
      db: Db, cfg: Config, guid: Guid, r: TokenRequest, draw: Draw, now: Time, cooldown: int)
    ensures Grows(db.devices, CreateToken(db, cfg, guid, r, draw, now).db.devices, now, cooldown)
  {
    var after := CreateToken(db, cfg, guid, r, draw, now).db.devices;
    if after == db.devices {
      GrowsReflexive(after, now, cooldown);
    } else {
      var t, max := ExpirePending(db.devices, guid, now), db.entitlements[guid].max;
      assert after == IssueToken(t, cfg, guid, max, r, draw, now).0;
      IssueTokenGrows(t, cfg, guid, max, r, draw, now, cooldown);
      ExpireThenGrows(db.devices, guid, now, after, cooldown);
    }
  }

  /** Retiring row i releases its key and revokes it; every other key stays. */
  lemma RetireReleases(t: Table, i: nat, guid: Guid, reason: Reason, now: Time)
    requires i < |t|
    ensures
      var u := Retire(t, i, guid, reason, now);
      KeysKeptExcept(t, u, i) && u[i].revokedAt.Some? && u[i].issuanceKey.None?
  {
    var v := t[i := RevokeRow(ReleaseKey(t[i]), now, reason)];
    ExpireKeeps(v, guid, now);
    assert v[i].revokedAt.Some? && v[i].issuanceKey.None?;
  }

  lemma AppendReplacement(t: Table, u: Table, k: nat, d: Device, now: Time, cooldown: int)
    requires |u| == |t| && d.origin.Replaces(k) && Replacement(t, u, k, d, now, cooldown)
    requires KeysKeptExcept(t, u, k) && d.revokedAt.None? && d.activatedAt.None?
    ensures Grows(t, u + [d], now, cooldown)
  {
  }

  lemma RegenerateRowGrows(
      db: Db, cfg: Config, guid: Guid, max: int, i: nat, draw: Draw, now: Time, cooldown: int)
    requires i < |db.devices| && db.devices[i].revokedAt.None?
    ensures Grows(db.devices, RegenerateRow(db, cfg, guid, max, i, draw, now).db.devices, now, cooldown)
  {
    GrowsReflexive(db.devices, now, cooldown);
    RetireReleases(db.devices, i, guid, Regenerated, now);
    AppendReplacement(db.devices, Retire(db.devices, i, guid, Regenerated, now), i,
                      RegeneratedLink(cfg, db.devices[i], i, draw, now), now, cooldown);
  }

  lemma RegenerateGrows(
      db: Db, cfg: Config, guid: Guid, publicId: string, draw: Draw, now: Time, cooldown: int)
    ensures Grows(db.devices, Regenerate(db, cfg, guid, publicId, draw, now).db.devices, now, cooldown)
  {
    GrowsReflexive(db.devices, now, cooldown);
    var found := FindDevice(db.devices, guid, publicId);
    if found.Some? && db.devices[found.value].revokedAt.None? && guid in db.entitlements {
      RegenerateRowGrows(db, cfg, guid, db.entitlements[guid].max, found.value, draw, now, cooldown);
    }
  }

  lemma TransferRowGrows(
      db: Db, cfg: Config, guid: Guid, max: int, i: nat, operationId: string, platform: Platform,
      fingerprint: string, draw: Draw, now: Time, cooldown: int)
    requires i < |db.devices| && db.devices[i].revokedAt.None?
    requires cooldown <= cfg.transferCooldown && !CoolingDown(db.devices[i], cfg, now)
    ensures Grows(db.devices,
                  TransferRow(db, cfg, guid, max, i, operationId, platform, fingerprint, draw, now).db.devices,
                  now, cooldown)
  {
    GrowsReflexive(db.devices, now, cooldown);
    RetireReleases(db.devices, i, guid, Transferred, now);
    AppendReplacement(db.devices, Retire(db.devices, i, guid, Transferred, now), i,
                      TransferredLink(cfg, db.devices[i], i, platform, draw, now), now, cooldown);
  }

  lemma TransferGrows(
      db: Db, cfg: Config, guid: Guid, publicId: string, operationId: Option<string>,
      platform: Option<Platform>, draw: Draw, now: Time, cooldown: int)
    requires cooldown <= cfg.transferCooldown
    ensures Grows(db.devices, Transfer(db, cfg, guid, publicId, operationId, platform, draw, now).db.devices,
                  now, cooldown)
  {
    GrowsReflexive(db.devices, now, cooldown);
    var found := FindDevice(db.devices, guid, publicId);
    if operationId.Some? && platform.Some? && guid in db.entitlements && found.Some?
       && db.devices[found.value].revokedAt.None? && !CoolingDown(db.devices[found.value], cfg, now) {
      TransferRowGrows(db, cfg, guid, db.entitlements[guid].max, found.value, operationId.value, platform.value,
                       TransferPayload(guid, publicId, platform.value), draw, now, cooldown);
    }
  }

  lemma ValidateGrows(
      db: Db, cfg: Config, guid: Guid, publicId: string, token: Option<string>, p: Presented,
      replacement: Protected, now: Time, cooldown: int)
    ensures Grows(db.devices, Validate(db, cfg, guid, publicId, token, p, replacement, now).db.devices, now, cooldown)
  {
    GrowsReflexive(db.devices, now, cooldown);
    var found := FindDevice(db.devices, guid, publicId);
    if found.Some? {
      var d := db.devices[found.value];
      PutGrows(db.devices, found.value, AccessRow(d, cfg, p, replacement, now).0, now, cooldown);
      PutGrows(db.devices, found.value, RevokeRow(d, now, ExpiredPending), now, cooldown);
    }
  }

  lemma ResolveGrows(
      db: Db, cfg: Config, guid: Guid, hasToken: bool, secretVerified: bool, p: Presented,
      displayName: string, draw: Draw, now: Time, cooldown: int)
    ensures Grows(db.devices,
                  Resolve(db, cfg, guid, hasToken, secretVerified, p, displayName, draw, now).db.devices,
                  now, cooldown)
  {
    GrowsReflexive(db.devices, now, cooldown);
    var identity := Identify(p.header, p.keys);
    if identity.Identified? {
      var found := FindUnified(db.devices, guid, identity.current, identity.previous);
      if found.Some? {
        var d := db.devices[found.value];
        var reserved := Reserve(d, now + cfg.reservationTtl);
        PutGrows(db.devices, found.value, ObserveIdentity(d, p.platform, displayName, identity.current), now, cooldown);
        PutGrows(db.devices, found.value, ObserveIdentity(reserved, p.platform, displayName, identity.current), now,
                 cooldown);
      }
    }
  }

  /** The cooldown an event is subject to; only transfers have one. */
  predicate RespectsCooldown(e: Event, cooldown: int) {
    e.op.OpTransfer? ==> cooldown <= e.op.cfg.transferCooldown
  }

  lemma StepGrowsLinks(db: Db, e: Event, cooldown: int)
    requires e.op.OpCreateToken? || e.op.OpRegenerate? || e.op.OpTransfer?
    requires RespectsCooldown(e, cooldown)
    ensures Grows(db.devices, Step(db, e).devices, e.at, cooldown)
  {
    match e.op
    case OpCreateToken(cfg, g, r, f) => CreateTokenGrows(db, cfg, g, r, f, e.at, cooldown);
    case OpRegenerate(cfg, g, p, f) => RegenerateGrows(db, cfg, g, p, f, e.at, cooldown);
    case OpTransfer(cfg, g, p, o, pl, f) => TransferGrows(db, cfg, g, p, o, pl, f, e.at, cooldown);
  }

  lemma StepGrowsAccess(db: Db, e: Event, cooldown: int)
    requires e.op.OpValidate? || e.op.OpResolve?
    ensures Grows(db.devices, Step(db, e).devices, e.at, cooldown)
  {
    match e.op
    case OpValidate(cfg, g, p, s, pr, c) => ValidateGrows(db, cfg, g, p, s, pr, c, e.at, cooldown);
    case OpResolve(cfg, g, h, v, pr, n, f) => ResolveGrows(db, cfg, g, h, v, pr, n, f, e.at, cooldown);
  }

  lemma RevokeGrows(db: Db, guid: Guid, publicId: string, now: Time, cooldown: int)
    ensures Grows(db.devices, Revoke(db, guid, publicId, now).db.devices, now, cooldown)
  {
    GrowsReflexive(db.devices, now, cooldown);
  }

  lemma ReadRepairGrows(db: Db, id: nat, previous: Protected, replacement: Protected, now: Time, cooldown: int)
    ensures Grows(db.devices, ReadRepair(db, id, previous, replacement).db.devices, now, cooldown)
  {
    GrowsReflexive(db.devices, now, cooldown);
  }

  lemma MarkActivatedGrows(db: Db, guid: Guid, publicId: string, now: Time, cooldown: int)
    ensures Grows(db.devices, MarkActivated(db, guid, publicId, now).devices, now, cooldown)
  {
    GrowsReflexive(db.devices, now, cooldown);
  }

  lemma MarkFailedGrows(db: Db, cfg: Config, guid: Guid, publicId: string, now: Time, cooldown: int)
    ensures Grows(db.devices, MarkFailed(db, cfg, guid, publicId, now).devices, now, cooldown)
  {
    GrowsReflexive(db.devices, now, cooldown);
  }

  lemma EnableGrows(db: Db, cfg: Config, guid: Guid, publicId: string, now: Time, cooldown: int)
    ensures Grows(db.devices, Enable(db, cfg, guid, publicId, now).db.devices, now, cooldown)
  {
    GrowsReflexive(db.devices, now, cooldown);
  }

  lemma StepGrowsRows(db: Db, e: Event, cooldown: int)
    requires e.op.OpRevoke? || e.op.OpReadRepair? || e.op.OpMarkActivated? || e.op.OpMarkFailed? || e.op.OpEnable?
    ensures Grows(db.devices, Step(db, e).devices, e.at, cooldown)
  {
    match e.op
    case OpRevoke(g, p) => RevokeGrows(db, g, p, e.at, cooldown);
    case OpReadRepair(i, a, b) => ReadRepairGrows(db, i, a, b, e.at, cooldown);
    case OpMarkActivated(g, p) => MarkActivatedGrows(db, g, p, e.at, cooldown);
    case OpMarkFailed(cfg, g, p) => MarkFailedGrows(db, cfg, g, p, e.at, cooldown);
    case OpEnable(cfg, g, p) => EnableGrows(db, cfg, g, p, e.at, cooldown);
  }

  lemma StepGrowsOthers(db: Db, e: Event, cooldown: int)
    requires e.op.OpRevokeAll? || e.op.OpCreateSubscription? || e.op.OpApplyOperation? || e.op.OpPutEntitlement?
    ensures Grows(db.devices, Step(db, e).devices, e.at, cooldown)
  {
    GrowsReflexive(db.devices, e.at, cooldown);
  }

  lemma StepGrows(db: Db, e: Event, cooldown: int)
    requires RespectsCooldown(e, cooldown)
    ensures Grows(db.devices, Step(db, e).devices, e.at, cooldown)
  {
    match e.op
    case OpCreateToken(_, _, _, _) => StepGrowsLinks(db, e, cooldown);
    case OpRegenerate(_, _, _, _) => StepGrowsLinks(db, e, cooldown);
    case OpTransfer(_, _, _, _, _, _) => StepGrowsLinks(db, e, cooldown);
    case OpValidate(_, _, _, _, _, _) => StepGrowsAccess(db, e, cooldown);
    case OpResolve(_, _, _, _, _, _, _) => StepGrowsAccess(db, e, cooldown);
    case OpRevokeAll(_) => StepGrowsOthers(db, e, cooldown);
    case OpCreateSubscription(_, _, _) => StepGrowsOthers(db, e, cooldown);
    case OpApplyOperation(_, _) => StepGrowsOthers(db, e, cooldown);
    case OpPutEntitlement(_, _) => StepGrowsOthers(db, e, cooldown);
    case _ => StepGrowsRows(db, e, cooldown);
  }
}
