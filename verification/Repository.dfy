/** The repository itself: tables that each transaction reads and rewrites statement by
    statement, in the order of its SQL.  Every method is shown to compute the transaction of the
    same name in Registry, which is what the theorems about runs are about. */
module Repository {
  import opened Text
  import opened Canonical
  import opened DevicePolicy
  import opened DeviceTable
  import opened Registry
  import opened Lifecycle
  import opened Uniqueness
  import opened SlotBound
  import opened SlotRuns
  import opened Consistency

  lemma SameIndexedEither(t: Table, i: nat, a: Device, b: Device)
    requires i < |t| && SameIndexed(a, b) && SameIndexed(b, a)
    ensures UniqueIndexes(t[i := a]) <==> UniqueIndexes(t[i := b])
  {
    if UniqueIndexes(t[i := a]) {
      PutUnique(t[i := a], i, b);
      assert t[i := a][i := b] == t[i := b];
    }
    if UniqueIndexes(t[i := b]) {
      PutUnique(t[i := b], i, a);
      assert t[i := b][i := a] == t[i := a];
    }
  }

  class MediatorRepository {
    var devices: Table
    var subscriptions: set<Guid>
    var externalIds: map<string, Guid>
    var entitlements: map<Guid, Entitlement>
    var log: map<string, LogEntry>
    var transfers: map<string, TransferEntry>

    ghost function State(): Db
      reads this
    {
      Db(devices, subscriptions, externalIds, entitlements, log, transfers)
    }

    /** What holds of the device table in the middle of a transaction too. */
    ghost predicate Indexed()
      reads this
    {
      UniqueIndexes(devices)
    }

    /** What holds between transactions. */
    ghost predicate Valid()
      reads this
    {
      Consistent(State())
    }

    constructor ()
      ensures Valid() && State() == EMPTY
    {
      devices, subscriptions, externalIds, entitlements, log, transfers := [], {}, map[], map[], map[], map[];
      new;
      EmptyConsistent();
    }

    /* ---------- statements ---------- */

    /** INSERT checks the unique indexes against every row. */
    method Insert(d: Device) returns (ok: bool)
      requires Indexed()
      modifies this`devices
      ensures Indexed()
      ensures ok <==> UniqueIndexes(old(devices) + [d])
      ensures devices == if ok then old(devices) + [d] else old(devices)
    {
      ghost var t := devices;
      ok := forall i :: 0 <= i < |devices| ==> !Clash(devices[i], d);
      if ok {
        devices := devices + [d];
        assert UniqueIndexes(t + [d]) by {
          forall i, j | 0 <= i < j < |t + [d]| ensures !Clash((t + [d])[i], (t + [d])[j]) {
            if j < |t| {
              assert !Clash(t[i], t[j]);
            }
          }
        }
      } else {
        ghost var i :| 0 <= i < |t| && Clash(t[i], d);
        assert Clash((t + [d])[i], (t + [d])[|t|]);
      }
    }

    /** UPDATE of one row checks them too. */
    method Update(i: nat, d: Device) returns (ok: bool)
      requires Indexed() && i < |devices|
      modifies this`devices
      ensures Indexed()
      ensures ok <==> UniqueIndexes(old(devices)[i := d])
      ensures devices == if ok then old(devices)[i := d] else old(devices)
    {
      ghost var t := devices;
      ghost var u := t[i := d];
      ok := forall j :: 0 <= j < |devices| && j != i ==> !Clash(devices[j], d) && !Clash(d, devices[j]);
      if ok {
        devices := devices[i := d];
        assert UniqueIndexes(u) by {
          forall a, b | 0 <= a < b < |u| ensures !Clash(u[a], u[b]) {
            assert !Clash(t[a], t[b]);
          }
        }
      } else {
        ghost var j :| 0 <= j < |t| && j != i && (Clash(t[j], d) || Clash(d, t[j]));
        assert Clash(u[j], u[i]) || Clash(u[i], u[j]);
        assert j < i ==> Clash(u[j], u[i]);
        assert i < j ==> Clash(u[i], u[j]);
      }
    }

    /** An UPDATE that sets no indexed column, or clears one. */
    method Set(i: nat, d: Device)
      requires Indexed() && i < |devices| && SameIndexed(devices[i], d)
      modifies this`devices
      ensures Indexed() && devices == old(devices)[i := d]
    {
      PutUnique(devices, i, d);
      devices := devices[i := d];
    }

    method ExpirePendingRows(sub: Guid, now: Time)
      requires Indexed()
      modifies this`devices
      ensures Indexed() && devices == ExpirePending(old(devices), sub, now)
    {
      ExpireUnique(devices, sub, now);
      devices := ExpirePending(devices, sub, now);
    }

    /* ---------- entitlements ---------- */

    method CreateMediatedSubscription(guid: Guid, externalId: Option<string>, e: Entitlement, now: Time)
      returns (result: SubscriptionResult)
      requires Valid()
      modifies this
      ensures Outcome(State(), result) == CreateSubscription(old(State()), guid, externalId, e, now)
      ensures Valid() && KeepsBound(old(State()), State(), now)
    {
      ghost var start := State();
      if !ValidEntitlement(e) {
        return SubscriptionRejected;
      }
      if externalId.Some? && !Blank(externalId.value) && externalId.value in externalIds {
        return SubscriptionExists(externalIds[externalId.value]);
      }
      if guid in subscriptions || (externalId.Some? && externalId.value in externalIds) {
        return SubscriptionViolation;
      }
      if CreationOperationId(guid) in log {
        return SubscriptionViolation;
      }
      subscriptions := subscriptions + {guid};
      if externalId.Some? {
        externalIds := externalIds[externalId.value := guid];
      }
      entitlements := entitlements[guid := e];
      log := log[CreationOperationId(guid) := CreationEntry(guid, e, now)];
      assert State() == CreateSubscription(start, guid, externalId, e, now).db;
      CreateSubscriptionLeaves(start, guid, externalId, e, now);
      return SubscriptionCreated(guid);
    }

    method ApplyEntitlementOperation(guid: Guid, r: OperationRequest, now: Time) returns (result: OperationResult)
      requires Valid()
      modifies this
      ensures Outcome(State(), result) == ApplyOperation(old(State()), guid, r, now)
      ensures Valid() && KeepsBound(old(State()), State(), now)
    {
      ghost var start := State();
      if !ValidOperation(r) {
        return OperationRejected;
      }
      var fingerprint := OperationFingerprint(guid, r);
      if r.operationId in log {
        var entry := log[r.operationId];
        return if entry.fingerprint == fingerprint then OperationAlreadyApplied(entry)
               else OperationIdempotencyConflict(entry);
      }
      if guid !in subscriptions {
        return OperationSubscriptionNotFound;
      }
      if guid !in entitlements {
        return OperationVersionConflict(None);
      }
      var current := entitlements[guid];
      if current.version != r.expectedVersion {
        return OperationVersionConflict(Some(current.version));
      }
      if r.max < current.max {
        return OperationLimitDecrease(current.version);
      }
      var active := CountActive(devices, guid);
      if r.max < active {
        return OperationActiveDevicesConflict(current.version, active);
      }
      var update := Entitlement(current.version + 1, r.status, r.validUntil, r.max);
      if exists id :: id in log && log[id].sub == guid && log[id].result.version == update.version {
        return OperationViolation;
      }
      var entry := LogEntry(guid, r.kind, fingerprint, r.expectedVersion, update, now);
      entitlements := entitlements[guid := update];
      log := log[r.operationId := entry];
      ApplyOperationLeaves(start, guid, r, now);
      return OperationApplied(entry, active);
    }

    method ApplyEntitlement(guid: Guid, e: Entitlement, now: Time) returns (result: PutResult)
      requires Valid()
      modifies this
      ensures Outcome(State(), result) == PutEntitlement(old(State()), guid, e)
      ensures Valid() && KeepsBound(old(State()), State(), now)
    {
      PutEntitlementLeaves(State(), guid, e, now);
      if !ValidEntitlement(e) {
        return PutRejected;
      }
      if guid !in subscriptions {
        return PutSubscriptionNotFound;
      }
      var current := if guid in entitlements then Some(entitlements[guid]) else None;
      var active := CountActive(devices, guid);
      if current.Some? && e.max < current.value.max {
        return PutLimitDecrease(current.value.version, active);
      }
      if e.max < active {
        return PutActiveDevicesExceedNewLimit(
          if current.Some? then Some(current.value.version) else None, active);
      }
      if current.Some? {
        if e.version < current.value.version {
          return PutStale(current.value.version, active);
        }
        if e.version == current.value.version {
          return if e == current.value then PutAlreadyApplied(current.value.version, active)
                 else PutInvalidState(current.value.version, active);
        }
      }
      entitlements := entitlements[guid := e];
      return PutApplied(e.version, active);
    }

    /* ---------- personal links ---------- */

    /** A request whose key row i already holds. */
    method ReplayHeld(i: nat, r: TokenRequest, hash: string, cfg: Config, active: nat, pending: nat, max: int)
      returns (result: TokenResult)
      requires Indexed() && i < |devices|
      modifies this`devices
      ensures Indexed()
      ensures (devices, result)
           == ReplayIssuance(old(devices), i, r.displayName, RequestedPlatform(r.platform), hash, cfg,
                             active, pending, max)
    {
      var d := devices[i];
      if !ReplayCompatible(d, r.displayName, RequestedPlatform(r.platform), hash) {
        return TokenInvalid("idempotency_key_reused");
      }
      if d.issuanceHash.None? {
        Set(i, d.(issuanceHash := Some(hash)));
      } else {
        assert devices[i := d] == devices;
      }
      if d.revokedAt.Some? {
        return TokenInvalid("device_issuance_revoked");
      }
      if !d.credential.Complete() {
        return TokenInvalid("credential_reissue_required");
      }
      var error := CredentialError(cfg, d.credential.Get());
      if error.Some? {
        return TokenInvalid(error.value);
      }
      return TokenExisting(d.publicId, d.displayName, active, pending, max, d.pendingExpiresAt);
    }

    /** A request whose key no row holds. */
    method IssueUnheld(
        guid: Guid, r: TokenRequest, displayName: string, key: string, hash: string, cfg: Config, max: int,
        draw: Draw, now: Time)
      returns (ok: bool, result: TokenResult)
      requires Indexed() && FindKey(devices, guid, key).None?
      modifies this`devices
      ensures Indexed()
      ensures
        var (t, issued) := IssueNew(old(devices), cfg, guid, max, r, displayName, key, hash, draw, now);
        (ok <==> UniqueIndexes(t)) && (ok ==> devices == t && result == issued)
    {
      var active, pending := CountActive(devices, guid), CountPending(devices, guid, now);
      var platform := RequestedPlatform(r.platform);
      if r.key.NoKey? && cfg.newPolicyMode.Legacy? {
        var legacy := FindLegacy(devices, guid, displayName);
        if legacy.Some? && devices[legacy.value].credential.Complete() {
          var i, d := legacy.value, devices[legacy.value];
          AdoptUnique(devices, i, guid, key, hash, platform);
          devices := devices[i := AdoptLegacy(d, key, hash, platform)];
          var error := CredentialError(cfg, d.credential.Get());
          if error.Some? {
            return true, TokenInvalid(error.value);
          }
          return true, TokenExisting(d.publicId, d.displayName, active, pending, max, d.pendingExpiresAt);
        }
      }
      if active + pending >= max {
        return true, TokenLimitReached(active, pending, max);
      }
      ok := Insert(IssuedLink(cfg, guid, draw, displayName, key, hash, platform, now));
      result := TokenCreated(draw.publicId, displayName, active, pending + 1, max, now + cfg.pendingTtl);
    }

    /** Everything after stale reservations have been expired. */
    method IssueDeviceToken(cfg: Config, guid: Guid, max: int, r: TokenRequest, draw: Draw, now: Time)
      returns (ok: bool, result: TokenResult)
      requires Indexed()
      modifies this`devices
      ensures Indexed()
      ensures
        var (t, issued) := IssueToken(old(devices), cfg, guid, max, r, draw, now);
        (ok <==> UniqueIndexes(t)) && (ok ==> devices == t && result == issued)
    {
      var active, pending := CountActive(devices, guid), CountPending(devices, guid, now);
      var displayName := r.displayName.GetOr(DefaultDisplayName(active + pending + 1));
      if r.key.NoKey? && cfg.requireIssuanceKey {
        return true, TokenInvalid("device_issuance_key_required");
      }
      var key := EffectiveKey(cfg, r, displayName);
      var hash := IssuancePayload(guid, r.displayName, RequestedPlatform(r.platform));
      var existing := FindKey(devices, guid, key);
      assert IssueToken(devices, cfg, guid, max, r, draw, now)
          == if existing.Some? then
               ReplayIssuance(devices, existing.value, r.displayName, RequestedPlatform(r.platform), hash, cfg,
                              active, pending, max)
             else IssueNew(devices, cfg, guid, max, r, displayName, key, hash, draw, now);
      if existing.Some? {
        ok := true;
        result := ReplayHeld(existing.value, r, hash, cfg, active, pending, max);
      } else {
        ok, result := IssueUnheld(guid, r, displayName, key, hash, cfg, max, draw, now);
      }
    }

    method CreateDeviceToken(cfg: Config, guid: Guid, r: TokenRequest, draw: Draw, now: Time)
      returns (result: TokenResult)
      requires Valid()
      modifies this
      ensures Outcome(State(), result) == CreateToken(old(State()), cfg, guid, r, draw, now)
      ensures Valid() && KeepsBound(old(State()), State(), now)
    {
      CreateTokenLeaves(State(), cfg, guid, r, draw, now);
      if r.key.BadKey? {
        return TokenInvalid("invalid_idempotency_key");
      }
      if r.platform.BadPlatform? {
        return TokenInvalid("invalid_requested_platform");
      }
      if guid !in subscriptions {
        return TokenNotFound;
      }
      if guid !in entitlements {
        return TokenInvalid("entitlement_missing");
      }
      var e := entitlements[guid];
      if e.status == EXPIRED {
        return TokenInvalid("subscription_expired");
      }
      if e.status != ACTIVE {
        return TokenInvalid("subscription_disabled");
      }
      if e.validUntil.Some? && e.validUntil.value <= now {
        return TokenInvalid("subscription_expired");
      }
      var saved := devices;
      ExpirePendingRows(guid, now);
      var ok;
      ok, result := IssueDeviceToken(cfg, guid, e.max, r, draw, now);
      if !ok {
        devices := saved;
        return TokenViolation;
      }
    }

    /** The statements that retire row i, as far as the recount. */
    method RetireRow(i: nat, guid: Guid, reason: Reason, now: Time)
      requires Indexed() && i < |devices|
      modifies this`devices
      ensures Indexed() && devices == Retire(old(devices), i, guid, reason, now)
    {
      ghost var t := devices;
      if devices[i].issuanceKey.Some? {
        Set(i, devices[i].(issuanceKey := None, issuanceHash := None));
      }
      Set(i, RevokeRow(devices[i], now, reason));
      assert devices == t[i := RevokeRow(ReleaseKey(t[i]), now, reason)];
      ExpirePendingRows(guid, now);
    }

    /** Regenerating a link hands its key to a new row; a limit reached after the old row has been
        revoked undoes both. */
    method RegenerateDeviceToken(cfg: Config, guid: Guid, publicId: string, draw: Draw, now: Time)
      returns (result: TokenResult)
      requires Valid()
      modifies this
      ensures Outcome(State(), result) == Regenerate(old(State()), cfg, guid, publicId, draw, now)
      ensures Valid() && KeepsBound(old(State()), State(), now)
    {
      RegenerateLeaves(State(), cfg, guid, publicId, draw, now);
      if guid !in subscriptions {
        return TokenNotFound;
      }
      if guid !in entitlements {
        return TokenInvalid("entitlement_missing");
      }
      var refusal, max := ReissueRefusal(entitlements[guid], now), entitlements[guid].max;
      if refusal.Some? {
        return TokenInvalid(refusal.value);
      }
      var found := FindDevice(devices, guid, publicId);
      if found.None? || devices[found.value].revokedAt.Some? {
        return TokenInvalid("device_token_not_found");
      }
      var saved, row := devices, RegeneratedLink(cfg, devices[found.value], found.value, draw, now);
      RetireRow(found.value, guid, Regenerated, now);
      var full := NoSlotLeft(devices, guid, max, now);
      if full.Some? {
        devices := saved;
        return full.value;
      }
      result := ReplacementCreated(devices, guid, row, max, now);
      var ok := Insert(row);
      if !ok {
        devices := saved;
        return TokenViolation;
      }
    }

    /** The write half of a transfer: as a regeneration, plus the record of the operation. */
    method TransferUnrevoked(
        cfg: Config, guid: Guid, max: int, i: nat, operationId: string, platform: Platform, fingerprint: string,
        draw: Draw, now: Time)
      returns (result: TokenResult)
      requires Indexed() && i < |devices|
      modifies this
      ensures Indexed()
      ensures Outcome(State(), result)
           == TransferRow(old(State()), cfg, guid, max, i, operationId, platform, fingerprint, draw, now)
    {
      var saved, row := devices, TransferredLink(cfg, devices[i], i, platform, draw, now);
      RetireRow(i, guid, Transferred, now);
      var full := NoSlotLeft(devices, guid, max, now);
      if full.Some? {
        devices := saved;
        return full.value;
      }
      result := ReplacementCreated(devices, guid, row, max, now);
      var ok := Insert(row);
      if !ok || operationId in transfers {
        devices := saved;
        return TokenViolation;
      }
      transfers := transfers[operationId := TransferEntry(guid, i, |devices| - 1, fingerprint, now)];
    }

    method TransferDeviceToken(
        cfg: Config, guid: Guid, publicId: string, operationId: Option<string>, platform: Option<Platform>,
        draw: Draw, now: Time)
      returns (result: TokenResult)
      requires Valid()
      modifies this
      ensures Outcome(State(), result) == Transfer(old(State()), cfg, guid, publicId, operationId, platform, draw, now)
      ensures Valid() && KeepsBound(old(State()), State(), now)
    {
      TransferLeaves(State(), cfg, guid, publicId, operationId, platform, draw, now);
      if operationId.None? {
        return TokenInvalid("invalid_idempotency_key");
      }
      if platform.None? {
        return TokenInvalid("invalid_requested_platform");
      }
      var fingerprint := TransferPayload(guid, publicId, platform.value);
      if operationId.value in transfers && transfers[operationId.value].sub == guid
         && guid in subscriptions && guid in entitlements
         && transfers[operationId.value].source < |devices| && transfers[operationId.value].replacement < |devices|
      {
        var entry := transfers[operationId.value];
        var d := devices[entry.replacement];
        if entry.fingerprint != fingerprint || devices[entry.source].publicId != publicId {
          return TokenInvalid("idempotency_key_reused");
        }
        if !d.credential.Complete() {
          return TokenInvalid("credential_reissue_required");
        }
        var error := CredentialError(cfg, d.credential.Get());
        if error.Some? {
          return TokenInvalid(error.value);
        }
        return TokenExisting(d.publicId, d.displayName, CountActive(devices, guid), CountPending(devices, guid, now),
                             entitlements[guid].max, d.pendingExpiresAt);
      }
      if guid !in subscriptions {
        return TokenNotFound;
      }
      if guid !in entitlements {
        return TokenInvalid("entitlement_missing");
      }
      var refusal, max := ReissueRefusal(entitlements[guid], now), entitlements[guid].max;
      if refusal.Some? {
        return TokenInvalid(refusal.value);
      }
      var found := FindDevice(devices, guid, publicId);
      if found.None? || devices[found.value].revokedAt.Some? {
        return TokenInvalid("device_token_not_found");
      }
      if CoolingDown(devices[found.value], cfg, now) {
        return TokenInvalid("device_transfer_cooldown_active");
      }
      result := TransferUnrevoked(cfg, guid, max, found.value, operationId.value, platform.value, fingerprint,
                                  draw, now);
    }

    method RevokeDeviceToken(guid: Guid, publicId: string, now: Time) returns (affected: bool)
      requires Valid()
      modifies this
      ensures Outcome(State(), affected) == Revoke(old(State()), guid, publicId, now)
      ensures Valid() && KeepsBound(old(State()), State(), now)
    {
      RevokeLeaves(State(), guid, publicId, now);
      var found := FindDevice(devices, guid, publicId);
      affected := guid in subscriptions && found.Some?;
      if affected {
        Set(found.value, DisableRow(devices[found.value], now, UserRevoked));
      }
    }

    method RevokeAllDeviceTokens(guid: Guid, now: Time) returns (result: RevokeAllResult)
      requires Valid()
      modifies this
      ensures Outcome(State(), result) == RevokeAll(old(State()), guid, now)
      ensures Valid() && KeepsBound(old(State()), State(), now)
    {
      RevokeAllLeaves(State(), guid, now);
      if guid !in subscriptions {
        return RevokeAllResult(false, 0);
      }
      result := RevokeAllResult(true, |UnrevokedIds(devices, guid)|);
      RevocationsUnique(State(), guid, "", now);
      devices := ResetAllRows(devices, guid, now);
    }

    method GetDeviceCredential(cfg: Config, guid: Guid, publicId: string) returns (result: ReadResult)
      ensures result == ReadCredential(State(), cfg, guid, publicId)
    {
      var found := FindDevice(devices, guid, publicId);
      if guid !in subscriptions || found.None? {
        return ReadNotFound;
      }
      var d := devices[found.value];
      if d.revokedAt.Some? {
        return ReadInvalid("device_token_revoked");
      }
      if !d.credential.Complete() {
        return ReadInvalid("credential_reissue_required");
      }
      var error := CredentialError(cfg, d.credential.Get());
      return if error.Some? then ReadInvalid(error.value) else ReadAvailable(found.value, d.credential.Get());
    }

    method ReadRepairDeviceCredential(id: nat, previous: Protected, replacement: Protected, now: Time)
      returns (affected: bool)
      requires Valid()
      modifies this
      ensures Outcome(State(), affected) == ReadRepair(old(State()), id, previous, replacement)
      ensures Valid() && KeepsBound(old(State()), State(), now)
    {
      ReadRepairLeaves(State(), id, previous, replacement, now);
      affected := id < |devices| && devices[id].credential == Columns(previous);
      if affected {
        Set(id, devices[id].(credential := Columns(replacement)));
      }
    }

    /* ---------- access ---------- */

    /** The statements of an access that reached the policy: backfill, risk, binding, use.  Only
        the binding writes an indexed column. */
    method RecordAccess(i: nat, cfg: Config, p: Presented, replacement: Protected, now: Time)
      returns (ok: bool, decision: Decision)
      requires Indexed() && i < |devices|
      modifies this`devices
      ensures Indexed()
      ensures decision == AccessRow(old(devices)[i], cfg, p, replacement, now).1
      ensures
        var t := old(devices)[i := AccessRow(old(devices)[i], cfg, p, replacement, now).0];
        (ok <==> UniqueIndexes(t)) && (ok ==> devices == t)
    {
      ghost var t, final := devices, AccessRow(devices[i], cfg, p, replacement, now).0;
      var requested := devices[i].requestedPlatform;
      if !devices[i].credential.Complete() {
        Set(i, devices[i].(credential := Columns(replacement)));
      }
      decision := Evaluate(cfg.bindingMode, devices[i].policy, requested, ContextOf(p));
      if decision.shouldRecord && p.risky && !devices[i].policy.mode.Legacy? {
        Set(i, devices[i].(policy := devices[i].policy.(binding := Review)));
      }
      ok := true;
      if decision.shouldBind || decision.shouldRefresh {
        var bound := devices[i].(policy := Rebind(devices[i].policy, requested, ContextOf(p), decision));
        ghost var before := devices;
        ok := Update(i, bound);
        if !ok {
          assert before[i := bound] == t[i := bound];
          SameIndexedEither(t, i, bound, final);
          return;
        }
      }
      if decision.allowed {
        Set(i, MarkUsed(devices[i], now));
      }
      assert devices == t[i := final];
    }

    method ValidateDeviceTokenAccess(
        cfg: Config, guid: Guid, publicId: string, token: Option<string>, p: Presented, replacement: Protected,
        now: Time)
      returns (result: Access)
      requires Valid()
      modifies this
      ensures Outcome(State(), result) == Validate(old(State()), cfg, guid, publicId, token, p, replacement, now)
      ensures Valid() && KeepsBound(old(State()), State(), now)
    {
      ValidateLeaves(State(), cfg, guid, publicId, token, p, replacement, now);
      var found := FindDevice(devices, guid, publicId);
      if token.None? || guid !in subscriptions || guid !in entitlements || found.None? {
        return Refuse(DeviceTokenInvalid);
      }
      var i, e := found.value, entitlements[guid];
      var d := devices[i];
      if d.revokedAt.Some? {
        return Refuse(DeviceTokenRevoked);
      }
      if token.value != d.secretHash {
        return Refuse(DeviceTokenInvalid);
      }
      if d.activatedAt.None? && d.pendingExpiresAt.Some? && d.pendingExpiresAt.value <= now {
        Set(i, RevokeRow(d, now, ExpiredPending));
        return Refuse(DeviceTokenExpired);
      }
      if e.status == EXPIRED {
        return Refuse(SubscriptionExpired);
      }
      if e.status != ACTIVE {
        return Refuse(SubscriptionDisabled);
      }
      if e.validUntil.Some? && e.validUntil.value <= now {
        return Refuse(SubscriptionExpired);
      }
      var active := CountActive(devices, guid);
      if d.activatedAt.None? && active >= e.max {
        return Forbid(DeviceLimitReached, active, e.max, None);
      }
      var saved := devices;
      var ok, decision := RecordAccess(i, cfg, p, replacement, now);
      if !ok {
        devices := saved;
        return AccessViolation;
      }
      return if decision.allowed then
               Permit(if d.activatedAt.None? then active + 1 else active, e.max, e.validUntil)
             else Forbid(DeniedStatus(decision.reason), active, e.max, decision.reason);
    }

    /** A resolve by a HWID whose row is i. */
    method ResolveKnownDevice(
        cfg: Config, guid: Guid, e: Entitlement, i: nat, current: IdentityHash, p: Presented,
        displayName: string, now: Time)
      returns (result: Resolution)
      requires Indexed() && i < |devices|
      modifies this`devices
      ensures Indexed()
      ensures Outcome(State(), result) == ResolveKnown(old(State()), cfg, guid, e, i, current, p, displayName, now)
    {
      var saved, d := devices, devices[i];
      if d.revokedAt.Some? || d.state.Disabled? {
        return Denied(Forbid(DeviceTokenRevoked, CountOccupied(devices, guid, now), e.max, None));
      }
      if ReservationExpired(d, now) {
        var occupied := CountOccupied(devices, guid, now);
        if occupied >= e.max {
          return Denied(Forbid(DeviceLimitReached, occupied, e.max, None));
        }
        Set(i, Reserve(d, now + cfg.reservationTtl));
      }
      var observed := ObserveIdentity(devices[i], p.platform, displayName, current);
      assert devices[i := observed] == saved[i := observed];
      var ok := Update(i, observed);
      if !ok {
        devices := saved;
        return Denied(AccessViolation);
      }
      return Resolution(Permit(CountOccupied(devices, guid, now), e.max, e.validUntil), Some(d.publicId), false,
                        d.activatedAt.None?);
    }

    /** A resolve by a HWID that has no row. */
    method ReserveNewDevice(
        cfg: Config, guid: Guid, e: Entitlement, current: IdentityHash, p: Presented, displayName: string,
        draw: Draw, now: Time)
      returns (result: Resolution)
      requires Indexed()
      modifies this`devices
      ensures Indexed()
      ensures Outcome(State(), result) == ResolveNew(old(State()), cfg, guid, e, current, p, displayName, draw, now)
    {
      var occupied := CountOccupied(devices, guid, now);
      if occupied >= e.max {
        return Denied(Forbid(DeviceLimitReached, occupied, e.max, None));
      }
      var ok := Insert(NewUnified(guid, draw, displayName, p, current, now + cfg.reservationTtl));
      if !ok {
        return Denied(AccessViolation);
      }
      return Resolution(Permit(occupied + 1, e.max, e.validUntil), Some(draw.publicId), true, true);
    }

    method ResolveUnifiedFeedDevice(
        cfg: Config, guid: Guid, hasToken: bool, secretVerified: bool, p: Presented, displayName: string,
        draw: Draw, now: Time)
      returns (result: Resolution)
      requires Valid()
      modifies this
      ensures Outcome(State(), result)
           == Resolve(old(State()), cfg, guid, hasToken, secretVerified, p, displayName, draw, now)
      ensures Valid() && KeepsBound(old(State()), State(), now)
    {
      ghost var start := State();
      var identity := Identify(p.header, p.keys);
      if !identity.Identified? {
        return Denied(Refuse(DeviceIdentityRequired));
      }
      if !hasToken {
        return Denied(Refuse(DeviceTokenInvalid));
      }
      if guid !in subscriptions {
        return Denied(Refuse(SubscriptionNotFound));
      }
      if !secretVerified {
        return Denied(Refuse(DeviceTokenInvalid));
      }
      if guid !in entitlements {
        return Denied(Refuse(SubscriptionDisabled));
      }
      var e := entitlements[guid];
      if e.status == EXPIRED || (e.validUntil.Some? && e.validUntil.value <= now) {
        return Denied(Refuse(SubscriptionExpired));
      }
      if e.status != ACTIVE {
        return Denied(Refuse(SubscriptionDisabled));
      }
      var found := FindUnified(devices, guid, identity.current, identity.previous);
      if found.Some? {
        result := ResolveKnownDevice(cfg, guid, e, found.value, identity.current, p, displayName, now);
        ResolveLeaves(start, cfg, guid, hasToken, secretVerified, p, displayName, draw, now);
        return;
      }
      result := ReserveNewDevice(cfg, guid, e, identity.current, p, displayName, draw, now);
      ResolveLeaves(start, cfg, guid, hasToken, secretVerified, p, displayName, draw, now);
    }

    /** Does not look at the reservation it completes. */
    method MarkUnifiedDeviceActivated(guid: Guid, publicId: string, now: Time)
      requires Valid()
      modifies this
      ensures Valid()
      ensures old(Bounded(State(), now)) ==>
                (Bounded(State(), now) <==> Harmless(old(State()), Event(OpMarkActivated(guid, publicId), now)))
      ensures State() == MarkActivated(old(State()), guid, publicId, now)
    {
      MarkActivatedLeaves(State(), guid, publicId, now);
      ActivationBounded(State(), guid, publicId, now);
      var found := FindDevice(devices, guid, publicId);
      if guid in subscriptions && found.Some? {
        var d := devices[found.value];
        if d.channel.UnifiedFeed? && d.revokedAt.None? {
          Set(found.value, d.(activatedAt := Coalesce(d.activatedAt, Some(now)), pendingExpiresAt := None,
                              provisioningExpiresAt := None, state := ActiveState));
        }
      }
    }

    method MarkUnifiedDeviceProvisioningFailed(cfg: Config, guid: Guid, publicId: string, now: Time)
      requires Valid()
      modifies this
      ensures State() == MarkFailed(old(State()), cfg, guid, publicId, now)
      ensures Valid() && KeepsBound(old(State()), State(), now)
    {
      ghost var start := State();
      var found := FindDevice(devices, guid, publicId);
      if guid in subscriptions && found.Some? {
        var d, until := devices[found.value], now + cfg.reservationTtl;
        if d.channel.UnifiedFeed? && d.revokedAt.None? {
          Set(found.value, d.(state := ProvisioningFailed,
                              provisioningExpiresAt := Coalesce(d.provisioningExpiresAt, Some(until)),
                              pendingExpiresAt := Coalesce(d.pendingExpiresAt, Some(until))));
          MarkFailedLeaves(start, cfg, guid, publicId, now);
        }
      }
    }

    method EnableUnifiedDevice(cfg: Config, guid: Guid, publicId: string, now: Time) returns (result: EnableResult)
      requires Valid()
      modifies this
      ensures Outcome(State(), result) == Enable(old(State()), cfg, guid, publicId, now)
      ensures Valid() && KeepsBound(old(State()), State(), now)
    {
      ghost var start := State();
      var found := FindDevice(devices, guid, publicId);
      if guid !in subscriptions || found.None? || !devices[found.value].channel.UnifiedFeed? {
        return EnableNotFound;
      }
      if guid !in entitlements {
        return EnableInactive(0);
      }
      var d, e := devices[found.value], entitlements[guid];
      if e.status != ACTIVE || PastValidity(e, now) {
        return EnableInactive(e.max);
      }
      var occupied := CountOccupied(devices, guid, now);
      if d.revokedAt.None? {
        return EnableExisting(occupied, e.max);
      }
      if occupied >= e.max {
        return EnableLimitReached(occupied, e.max);
      }
      Set(found.value, Reenabled(d, now + cfg.reservationTtl));
      EnableLeaves(start, cfg, guid, publicId, now);
      return Enabled(occupied + 1, e.max);
    }
  }
}
