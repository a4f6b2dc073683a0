/** What issuing, regenerating and transferring a link must leave behind: the new row, the rows beside
    it, and a secret that opens it. */
module IssuedLinks {
  import opened Text
  import opened Canonical
  import opened DevicePolicy
  import opened DeviceTable
  import opened Registry
  import opened Lifecycle
  import opened Growth
  import opened Uniqueness
  import opened Ownership
  import opened Issuance
  import opened KeylessRequests
  import opened Reports
  import opened Forks
  import opened FeedAdmission
  import opened LinkAccess
  import opened Revocations

  /** A reservation of the subscription that has run out. */
  predicate Stale(d: Device, sub: Guid, now: Time) {
    d.sub == sub && d.revokedAt.None? && d.activatedAt.None?
    && d.pendingExpiresAt.Some? && d.pendingExpiresAt.value <= now
  }

  /** Stale reservations are revoked as such, with their credentials where they were; other rows are as
      they were. */
  predicate Swept(d: Device, row: Device, sub: Guid, now: Time) {
    if Stale(d, sub, now) then row == d.(revokedAt := Some(now), revocationReason := Some(ExpiredPending))
    else row == d
  }

  /** A pending personal link with the drawn id, secret and credential. */
  predicate Drawn(d: Device, sub: Guid, draw: Draw, until: Time) {
    && d.channel.DeviceLink? && d.sub == sub && d.publicId == draw.publicId && d.secretHash == draw.secret
    && d.credential == CredentialColumns(Some(draw.credential.keyId), Some(draw.credential.nonce),
                                         Some(draw.credential.ciphertext), Some(draw.credential.tag))
    && d.pendingExpiresAt == Some(until) && d.activatedAt.None? && d.revokedAt.None? && d.revocationReason.None?
    && d.provisioningExpiresAt.None? && d.state.LegacyState?
  }

  /** The row of a newly issued link. */
  predicate FreshLink(d: Device, cfg: Config, guid: Guid, r: TokenRequest, key: string, draw: Draw, until: Time) {
    && Drawn(d, guid, draw, until)
    && (r.displayName.Some? ==> d.displayName == r.displayName.value)
    && d.requestedPlatform == (if r.platform.OnPlatform? then Some(r.platform.value) else None)
    && d.issuanceKey == Some(key) && d.issuanceHash == Some(RequestHash(guid, r))
    && d.policy.version == cfg.newPolicyVersion && d.policy.mode == cfg.newPolicyMode
    && d.policy.boundIdentity.None? && d.policy.boundPlatform.None?
    && d.policy.binding == (if cfg.newPolicyMode.Legacy? then Grandfathered else Unbound)
    && d.lastTransferAt.None? && d.transferCount == 0
  }

  lemma IssuedRow(t: Table, cfg: Config, guid: Guid, max: int, r: TokenRequest, draw: Draw, now: Time)
    requires IssueToken(t, cfg, guid, max, r, draw, now).1.TokenCreated?
    ensures
      var slots := CountActive(t, guid) + CountPending(t, guid, now);
      var key := EffectiveKey(cfg, r, r.displayName.GetOr(DefaultDisplayName(slots + 1)));
      var (u, result) := IssueToken(t, cfg, guid, max, r, draw, now);
      && |u| == |t| + 1 && u[..|t|] == t && FreshLink(u[|t|], cfg, guid, r, key, draw, now + cfg.pendingTtl)
      && result.publicId == draw.publicId && result.displayName == u[|t|].displayName
      && result.expiresAt == now + cfg.pendingTtl && result.max == max
  {
  }

  /** A request that creates adds one fresh link, sweeps the stale reservations of its subscription and
      changes nothing else. */
  lemma CreatedRow(db: Db, cfg: Config, guid: Guid, r: TokenRequest, draw: Draw, now: Time)
    requires CreateToken(db, cfg, guid, r, draw, now).result.TokenCreated?
    ensures
      var outcome := CreateToken(db, cfg, guid, r, draw, now);
      var u, n := outcome.db.devices, |db.devices|;
      && outcome.db == db.(devices := u) && |u| == n + 1
      && (forall i :: 0 <= i < n ==> Swept(db.devices[i], u[i], guid, now))
      && FreshLink(u[n], cfg, guid, r, KeyOf(db, cfg, guid, r, now), draw, now + cfg.pendingTtl)
      && outcome.result.publicId == draw.publicId && outcome.result.expiresAt == now + cfg.pendingTtl
      && outcome.result.displayName == u[n].displayName && outcome.result.max == db.entitlements[guid].max
  {
    var t := ExpirePending(db.devices, guid, now);
    CreatedMeansCommitted(db, cfg, guid, r, draw, now);
    IssuedRow(t, cfg, guid, db.entitlements[guid].max, r, draw, now);
    SweptPrefix(db.devices, CreateToken(db, cfg, guid, r, draw, now).db.devices, guid, now);
  }

  lemma CreatedMeansCommitted(db: Db, cfg: Config, guid: Guid, r: TokenRequest, draw: Draw, now: Time)
    requires CreateToken(db, cfg, guid, r, draw, now).result.TokenCreated?
    ensures guid in db.entitlements
    ensures
      var (u, result) := IssueToken(ExpirePending(db.devices, guid, now), cfg, guid, db.entitlements[guid].max, r, draw,
                                    now);
      CreateToken(db, cfg, guid, r, draw, now) == Outcome(db.(devices := u), result)
  {
  }

  lemma SweptPrefix(t: Table, u: Table, guid: Guid, now: Time)
    requires |t| <= |u| && u[..|t|] == ExpirePending(t, guid, now)
    ensures forall i :: 0 <= i < |t| ==> Swept(t[i], u[i], guid, now)
  {
    forall i | 0 <= i < |t| ensures Swept(t[i], u[i], guid, now) {
      assert u[i] == u[..|t|][i];
    }
  }

  lemma PendingRowCounts(t: Table, i: nat, sub: Guid, now: Time)
    requires i < |t| && IsPending(t[i], sub, now)
    ensures CountPending(t, sub, now) > 0
  {
    assert i in PendingIds(t, sub, now);
  }

  /** A pending link within the limit works: until its deadline its secret opens it, if and only if the
      subscription is entitled and the policy admits the access. */
  lemma PendingLinkOpens(
      db: Db, i: nat, max: int, now: Time, cfg: Config, p: Presented, replacement: Protected, later: Time)
    requires TableInvariant(db.devices) && UniqueIndexes(db.devices) && i < |db.devices|
    requires db.devices[i].channel.DeviceLink? && IsPending(db.devices[i], db.devices[i].sub, now)
    requires db.devices[i].sub in db.entitlements && max == db.entitlements[db.devices[i].sub].max
    requires CountActive(db.devices, db.devices[i].sub) + CountPending(db.devices, db.devices[i].sub, now) <= max
    ensures
      var d := db.devices[i];
      Validate(db, cfg, d.sub, d.publicId, Some(d.secretHash), p, replacement, later).result.Permit?
      <==> && Entitled(db, d.sub, later) && (d.pendingExpiresAt.Some? ==> later < d.pendingExpiresAt.value)
           && (cfg.bindingMode.BindingEnforce? && d.policy.mode.Enforce? ==> Admits(d.policy, d.requestedPlatform, p))
  {
    PendingRowCounts(db.devices, i, db.devices[i].sub, now);
    OpenedExactly(db, cfg, i, Some(db.devices[i].secretHash), p, replacement, later);
  }

  /** So a new link works. */
  lemma CreatedLinkOpens(
      db: Db, cfg: Config, guid: Guid, r: TokenRequest, draw: Draw, now: Time,
      cfg': Config, p: Presented, replacement: Protected, later: Time)
    requires TableInvariant(db.devices) && UniqueIndexes(db.devices) && cfg.pendingTtl > 0
    requires CreateToken(db, cfg, guid, r, draw, now).result.TokenCreated?
    ensures
      var created, requested := CreateToken(db, cfg, guid, r, draw, now).db, RequestedPlatform(r.platform);
      Validate(created, cfg', guid, draw.publicId, Some(draw.secret), p, replacement, later).result.Permit?
      <==> && Entitled(db, guid, later) && later < now + cfg.pendingTtl
           && (cfg'.bindingMode.BindingEnforce? && cfg.newPolicyMode.Enforce? ==>
                 Admits(FeedPolicy(cfg.newPolicyVersion, Enforce, Unbound, None, None), requested, p))
  {
    var created := CreateToken(db, cfg, guid, r, draw, now).db;
    CreatedRow(db, cfg, guid, r, draw, now);
    CreateTokenReports(db, cfg, guid, r, draw, now);
    CreateTokenGood(db, cfg, guid, r, draw, now);
    IssuedUnique(db, cfg, guid, r, draw, now);
    PendingLinkOpens(created, |db.devices|, db.entitlements[guid].max, now, cfg', p, replacement, later);
  }

  /* ---------- replaying ---------- */

  /** The answer to a replay: the device, unless it has been revoked or its credential cannot be read
      back. */
  function ReplayAnswer(cfg: Config, d: Device): Option<string> {
    if d.revokedAt.Some? then Some("device_issuance_revoked")
    else if !d.credential.Complete() then Some("credential_reissue_required")
    else if d.credential.keyId.value !in cfg.credentialKeys then Some("credential_key_unavailable")
    else if d.credential.ciphertext.value in cfg.unreadable then Some("credential_corrupted")
    else None
  }

  /** The same request under a held key is answered with its device exactly when that can be handed out
      again. */
  lemma ReplayAnswersExactly(
      db: Db, cfg: Config, guid: Guid, r: TokenRequest, draw: Draw, now: Time, i: nat)
    requires UniqueIndexes(db.devices) && Normalised(r) && Admitted(db, cfg, guid, r, now)
    requires i < |db.devices| && Holds(db.devices[i], guid, KeyOf(db, cfg, guid, r, now))
    requires db.devices[i].issuanceHash == Some(RequestHash(guid, r))
    ensures
      var outcome := CreateToken(db, cfg, guid, r, draw, now);
      && |outcome.db.devices| == |db.devices|
      && var d := outcome.db.devices[i];
      && Swept(db.devices[i], d, guid, now)
      && (outcome.result.TokenExisting? <==> ReplayAnswer(cfg, d).None?)
      && (outcome.result.TokenExisting? ==>
            outcome.result.publicId == d.publicId && outcome.result.displayName == d.displayName
            && outcome.result.pendingExpiresAt == d.pendingExpiresAt)
      && (ReplayAnswer(cfg, d).Some? ==> outcome.result == TokenInvalid(ReplayAnswer(cfg, d).value))
  {
    var t, key := ExpirePending(db.devices, guid, now), KeyOf(db, cfg, guid, r, now);
    ExpireUnique(db.devices, guid, now);
    KeyFound(t, i, guid, key);
    ReplayedToken(t, cfg, guid, db.entitlements[guid].max, r, draw, now, i);
    AdmittedCommits(db, cfg, guid, r, draw, now);
  }

  lemma KeyFound(t: Table, i: nat, sub: Guid, key: string)
    requires UniqueIndexes(t) && i < |t| && Holds(t[i], sub, key)
    ensures FindKey(t, sub, key) == Some(i)
  {
    var found := FindKey(t, sub, key);
    assert !(found.value < i) && !(i < found.value);
  }

  /** An admitted request commits what issuing leaves, if that keeps the indexes. */
  lemma AdmittedCommits(db: Db, cfg: Config, guid: Guid, r: TokenRequest, draw: Draw, now: Time)
    requires Admitted(db, cfg, guid, r, now)
    ensures
      var (u, result) := IssueToken(ExpirePending(db.devices, guid, now), cfg, guid, db.entitlements[guid].max, r, draw,
                                    now);
      UniqueIndexes(u) ==> CreateToken(db, cfg, guid, r, draw, now) == Outcome(db.(devices := u), result)
  {
  }

  lemma ReplayedToken(t: Table, cfg: Config, guid: Guid, max: int, r: TokenRequest, draw: Draw, now: Time, i: nat)
    requires
      var slots := CountActive(t, guid) + CountPending(t, guid, now);
      FindKey(t, guid, EffectiveKey(cfg, r, r.displayName.GetOr(DefaultDisplayName(slots + 1)))) == Some(i)
    requires i < |t| && t[i].issuanceHash == Some(RequestHash(guid, r)) && (r.key.NoKey? ==> !cfg.requireIssuanceKey)
    ensures
      var (u, result) := IssueToken(t, cfg, guid, max, r, draw, now);
      && u == t
      && (result.TokenExisting? <==> ReplayAnswer(cfg, t[i]).None?)
      && (result.TokenExisting? ==>
            result.publicId == t[i].publicId && result.displayName == t[i].displayName
            && result.pendingExpiresAt == t[i].pendingExpiresAt)
      && (ReplayAnswer(cfg, t[i]).Some? ==> result == TokenInvalid(ReplayAnswer(cfg, t[i]).value))
  {
    assert t[i := t[i]] == t;
  }

  /* ---------- refusing and adopting ---------- */

  /** Why an entitlement refuses new links: issuing looks at the status first ... */
  lemma IssueRefusedExactly(e: Entitlement, now: Time)
    ensures IssueRefusal(e, now)
         == if InForce(e, now) then None
            else if e.status == "active" || e.status == "expired" then Some("subscription_expired")
            else Some("subscription_disabled")
  {
  }

  /** ... and replacing at the date. */
  lemma ReissueRefusedExactly(e: Entitlement, now: Time)
    ensures ReissueRefusal(e, now)
         == if InForce(e, now) then None
            else if e.status == "expired" || (e.validUntil.Some? && e.validUntil.value <= now) then
              Some("subscription_expired")
            else Some("subscription_disabled")
  {
  }

  /** A request that is not admitted is told the first thing that is wrong, and changes nothing unless
      only its key is missing. */
  lemma UnadmittedRefusals(db: Db, cfg: Config, guid: Guid, r: TokenRequest, draw: Draw, now: Time)
    requires !Admitted(db, cfg, guid, r, now) && UniqueIndexes(db.devices)
    ensures
      var outcome := CreateToken(db, cfg, guid, r, draw, now);
      && outcome.result
         == (if r.key.BadKey? then TokenInvalid("invalid_idempotency_key")
             else if r.platform.BadPlatform? then TokenInvalid("invalid_requested_platform")
             else if guid !in db.subscriptions then TokenNotFound
             else if guid !in db.entitlements then TokenInvalid("entitlement_missing")
             else if !InForce(db.entitlements[guid], now) then
               TokenInvalid(if db.entitlements[guid].status in {"active", "expired"} then "subscription_expired"
                            else "subscription_disabled")
             else TokenInvalid("device_issuance_key_required"))
      && (!Opened(db, guid, r, now) ==> outcome.db == db)
  {
    if guid in db.entitlements {
      IssueRefusedExactly(db.entitlements[guid], now);
    }
    ExpireUnique(db.devices, guid, now);
  }

  /** The row a keyless legacy request adopts: unkeyed, of that name, and the newest of those that can be
      handed out, if there are any. */
  lemma LegacyChoice(t: Table, sub: Guid, name: string)
    ensures
      var found := FindLegacy(t, sub, name);
      && (found.None? <==> forall i :: 0 <= i < |t| ==> !LegacyCandidate(t[i], sub, name))
      && (found.Some? ==>
            forall i :: 0 <= i < |t| && LegacyCandidate(t[i], sub, name) && t[i].credential.Complete() ==>
              t[found.value].credential.Complete() && i <= found.value)
  {
    var complete := FindLast(t, (d: Device) => LegacyCandidate(d, sub, name) && d.credential.Complete());
    var any := FindLast(t, (d: Device) => LegacyCandidate(d, sub, name));
  }

  /** Adopting gives that row the key and the request, keeps its own platform, and answers with it if its
      credential can be read back. */
  lemma AdoptsExactly(db: Db, cfg: Config, guid: Guid, r: TokenRequest, draw: Draw, now: Time)
    requires UniqueIndexes(db.devices) && Admitted(db, cfg, guid, r, now) && MayAdopt(db, cfg, guid, r, now)
    requires FindKey(db.devices, guid, KeyOf(db, cfg, guid, r, now)).None?
    ensures
      var t := ExpirePending(db.devices, guid, now);
      var outcome := CreateToken(db, cfg, guid, r, draw, now);
      var i, u := FindLegacy(t, guid, NameOf(db, guid, r, now)).value, outcome.db.devices;
      && |u| == |t| && outcome.db == db.(devices := u) && u == t[i := u[i]]
      && u[i] == t[i].(issuanceKey := Some(KeyOf(db, cfg, guid, r, now)), issuanceHash := Some(RequestHash(guid, r)),
                       requestedPlatform := if t[i].requestedPlatform.Some? then t[i].requestedPlatform
                                            else RequestedPlatform(r.platform))
      && (if ReplayAnswer(cfg, u[i]).None? then
            outcome.result.TokenExisting? && outcome.result.publicId == u[i].publicId
          else outcome.result == TokenInvalid(ReplayAnswer(cfg, u[i]).value))
  {
    var t := ExpirePending(db.devices, guid, now);
    var i := FindLegacy(t, guid, NameOf(db, guid, r, now)).value;
    SlotIsOccupancy(db, guid, now);
    ExpiryKeepsKeys(db.devices, guid, KeyOf(db, cfg, guid, r, now), now);
    ExpireUnique(db.devices, guid, now);
    AdoptUnique(t, i, guid, KeyOf(db, cfg, guid, r, now), RequestHash(guid, r), RequestedPlatform(r.platform));
    AdoptedToken(t, cfg, guid, db.entitlements[guid].max, r, draw, now, i);
    AdmittedCommits(db, cfg, guid, r, draw, now);
  }

  lemma AdoptedToken(t: Table, cfg: Config, guid: Guid, max: int, r: TokenRequest, draw: Draw, now: Time, i: nat)
    requires r.key.NoKey? && cfg.newPolicyMode.Legacy? && !cfg.requireIssuanceKey
    requires
      var slots := CountActive(t, guid) + CountPending(t, guid, now);
      var name := r.displayName.GetOr(DefaultDisplayName(slots + 1));
      FindKey(t, guid, EffectiveKey(cfg, r, name)).None? && FindLegacy(t, guid, name) == Some(i)
    requires i < |t| && t[i].credential.Complete()
    ensures
      var slots := CountActive(t, guid) + CountPending(t, guid, now);
      var key := EffectiveKey(cfg, r, r.displayName.GetOr(DefaultDisplayName(slots + 1)));
      var (u, result) := IssueToken(t, cfg, guid, max, r, draw, now);
      && u == t[i := AdoptLegacy(t[i], key, RequestHash(guid, r), RequestedPlatform(r.platform))]
      && (if ReplayAnswer(cfg, u[i]).None? then result.TokenExisting? && result.publicId == u[i].publicId
          else result == TokenInvalid(ReplayAnswer(cfg, u[i]).value))
  {
  }

  /* ---------- replacing ---------- */

  /** The row that has been replaced: revoked, without credential and without key. */
  predicate Retired(d: Device, row: Device, now: Time, reason: Reason) {
    && row == d.(revokedAt := Some(now), revocationReason := row.revocationReason, credential := row.credential,
                 issuanceKey := None, issuanceHash := row.issuanceHash)
    && row.revocationReason == (if d.revocationReason.Some? then d.revocationReason else Some(reason))
    && row.credential.Erased() && (d.issuanceKey.Some? ==> row.issuanceHash.None?)
  }

  /** What every replacement takes over. */
  predicate TakesOver(d: Device, row: Device, draw: Draw, until: Time) {
    && Drawn(row, d.sub, draw, until) && row.displayName == d.displayName
    && row.issuanceKey == d.issuanceKey && row.issuanceHash == d.issuanceHash
  }

  lemma RetiredRow(t: Table, i: nat, guid: Guid, reason: Reason, now: Time)
    requires i < |t| && t[i].revokedAt.None?
    ensures
      var u := Retire(t, i, guid, reason, now);
      && Retired(t[i], u[i], now, reason)
      && forall j :: 0 <= j < |t| && j != i ==> Swept(t[j], u[j], guid, now)
  {
  }

  /** What the table looks like after a replacement of row i. */
  predicate ReplacedIn(t: Table, u: Table, i: nat, reason: Reason, draw: Draw, until: Time, now: Time) {
    && i < |t| && |u| == |t| + 1
    && Retired(t[i], u[i], now, reason) && TakesOver(t[i], u[|t|], draw, until)
    && forall j :: 0 <= j < |t| && j != i ==> Swept(t[j], u[j], t[i].sub, now)
  }

  /** A regeneration that is allowed replaces the row by one with the same owner, platform and transfer
      history and a new secret. */
  lemma RegeneratedRowExactly(db: Db, cfg: Config, i: nat, draw: Draw, now: Time)
    requires UniqueIndexes(db.devices) && i < |db.devices|
    requires MayReissue(db, db.devices[i].sub, db.devices[i].publicId, draw, now)
    ensures
      var d := db.devices[i];
      var outcome := Regenerate(db, cfg, d.sub, d.publicId, draw, now);
      var u := outcome.db.devices;
      && outcome.result.TokenCreated? && outcome.result.publicId == draw.publicId
      && outcome.result.expiresAt == now + cfg.pendingTtl
      && outcome.db == db.(devices := u)
      && ReplacedIn(db.devices, u, i, Regenerated, draw, now + cfg.pendingTtl, now)
      && u[|db.devices|].policy == d.policy && u[|db.devices|].requestedPlatform == d.requestedPlatform
      && u[|db.devices|].lastTransferAt == d.lastTransferAt && u[|db.devices|].transferCount == d.transferCount
  {
    var d := db.devices[i];
    NamedRow(db.devices, i);
    RegeneratesExactly(db, cfg, d.sub, d.publicId, draw, now);
    RetiredRow(db.devices, i, d.sub, Regenerated, now);
  }

  /** A transfer that is allowed replaces it by an unowned row for the new platform, and is recorded. */
  lemma TransferredRowExactly(
      db: Db, cfg: Config, i: nat, operationId: Option<string>, platform: Option<Platform>, draw: Draw, now: Time)
    requires UniqueIndexes(db.devices) && i < |db.devices|
    requires MayTransfer(db, cfg, db.devices[i].sub, db.devices[i].publicId, operationId, platform, draw, now)
    ensures
      var d := db.devices[i];
      var outcome := Transfer(db, cfg, d.sub, d.publicId, operationId, platform, draw, now);
      var u, n := outcome.db.devices, |db.devices|;
      && outcome.result.TokenCreated? && outcome.result.publicId == draw.publicId
      && outcome.result.expiresAt == now + cfg.pendingTtl
      && outcome.db == db.(devices := u, transfers := db.transfers[operationId.value :=
                             TransferEntry(d.sub, i, n, TransferPayload(d.sub, d.publicId, platform.value), now)])
      && ReplacedIn(db.devices, u, i, Transferred, draw, now + cfg.pendingTtl, now)
      && u[n].policy == FeedPolicy(2, Enforce, Unbound, None, None) && u[n].requestedPlatform == platform
      && u[n].lastTransferAt == Some(now) && u[n].transferCount == d.transferCount + 1
  {
    var d := db.devices[i];
    NamedRow(db.devices, i);
    TransfersExactly(db, cfg, d.sub, d.publicId, operationId, platform, draw, now);
    RetiredRow(db.devices, i, d.sub, Transferred, now);
  }

  /** The secret that a regeneration or transfer of a personal link withdraws never opens it again, over
      any run. */
  lemma WithdrawnSecretNeverOpens(
      db: Db, e: Event, i: nat, events: seq<Event>, cfg: Config, token: Option<string>, p: Presented,
      replacement: Protected, later: Time)
    requires TableInvariant(db.devices) && UniqueIndexes(db.devices) && i < |db.devices|
    requires db.devices[i].channel.DeviceLink? && MayReplace(db, e)
    requires e.op.guid == db.devices[i].sub && e.op.publicId == db.devices[i].publicId
    ensures
      var d, end := db.devices[i], Run(Step(db, e), events);
      !Validate(end, cfg, d.sub, d.publicId, token, p, replacement, later).result.Permit?
  {
    NamedRow(db.devices, i);
    if e.op.OpRegenerate? {
      RegeneratedRowExactly(db, e.op.cfg, i, e.op.draw, e.at);
    } else {
      TransferredRowExactly(db, e.op.cfg, i, e.op.operationId, e.op.platform, e.op.draw, e.at);
    }
    StepGood(db, e);
    StepUnique(db, e);
    RevokedStaysShut(Step(db, e), i, events, cfg, token, p, replacement, later);
  }

  /** A table whose last row is a pending link of row i's subscription, within the limit. */
  predicate Pends(db: Db, u: Table, i: nat, draw: Draw, at: Time, until: Time) {
    && i < |db.devices| && |u| == |db.devices| + 1 && db.devices[i].sub in db.entitlements
    && Drawn(u[|db.devices|], db.devices[i].sub, draw, until)
    && CountActive(u, db.devices[i].sub) + CountPending(u, db.devices[i].sub, at)
       <= db.entitlements[db.devices[i].sub].max
  }

  lemma RegeneratedPends(db: Db, cfg: Config, i: nat, draw: Draw, now: Time)
    requires UniqueIndexes(db.devices) && i < |db.devices| && cfg.pendingTtl > 0
    requires MayReissue(db, db.devices[i].sub, db.devices[i].publicId, draw, now)
    ensures
      var u := Regenerate(db, cfg, db.devices[i].sub, db.devices[i].publicId, draw, now).db.devices;
      Pends(db, u, i, draw, now, now + cfg.pendingTtl)
  {
    RegeneratedRowExactly(db, cfg, i, draw, now);
    RegenerateReports(db, cfg, db.devices[i].sub, db.devices[i].publicId, draw, now);
    RegeneratedMax(db, cfg, db.devices[i].sub, db.devices[i].publicId, draw, now);
  }

  lemma RegeneratedMax(db: Db, cfg: Config, guid: Guid, publicId: string, draw: Draw, now: Time)
    ensures
      var result := Regenerate(db, cfg, guid, publicId, draw, now).result;
      result.TokenCreated? ==> guid in db.entitlements && result.max == db.entitlements[guid].max
  {
  }

  lemma TransferredPends(
      db: Db, cfg: Config, i: nat, operationId: Option<string>, platform: Option<Platform>, draw: Draw, now: Time)
    requires UniqueIndexes(db.devices) && i < |db.devices| && cfg.pendingTtl > 0
    requires MayTransfer(db, cfg, db.devices[i].sub, db.devices[i].publicId, operationId, platform, draw, now)
    ensures
      var d := db.devices[i];
      var u := Transfer(db, cfg, d.sub, d.publicId, operationId, platform, draw, now).db.devices;
      Pends(db, u, i, draw, now, now + cfg.pendingTtl)
  {
    var d := db.devices[i];
    TransferredRowExactly(db, cfg, i, operationId, platform, draw, now);
    TransferRowReports(db, cfg, d.sub, db.entitlements[d.sub].max, i, operationId.value, platform.value,
                       TransferPayload(d.sub, d.publicId, platform.value), draw, now);
    TransferredMax(db, cfg, d.sub, db.entitlements[d.sub].max, i, operationId.value, platform.value,
                   TransferPayload(d.sub, d.publicId, platform.value), draw, now);
    NamedRow(db.devices, i);
  }

  lemma TransferredMax(
      db: Db, cfg: Config, guid: Guid, max: int, i: nat, operationId: string, platform: Platform,
      fingerprint: string, draw: Draw, now: Time)
    requires i < |db.devices|
    ensures
      var result := TransferRow(db, cfg, guid, max, i, operationId, platform, fingerprint, draw, now).result;
      result.TokenCreated? ==> result.max == max
  {
  }

  /** So does the link that replaces one by regeneration, for the same owner ... */
  lemma RegeneratedLinkOpens(
      db: Db, cfg: Config, i: nat, draw: Draw, now: Time, cfg': Config, p: Presented, replacement: Protected,
      later: Time)
    requires TableInvariant(db.devices) && UniqueIndexes(db.devices) && i < |db.devices| && cfg.pendingTtl > 0
    requires MayReissue(db, db.devices[i].sub, db.devices[i].publicId, draw, now)
    ensures
      var d := db.devices[i];
      var end := Regenerate(db, cfg, d.sub, d.publicId, draw, now).db;
      Validate(end, cfg', d.sub, draw.publicId, Some(draw.secret), p, replacement, later).result.Permit?
      <==> && Entitled(db, d.sub, later) && later < now + cfg.pendingTtl
           && (cfg'.bindingMode.BindingEnforce? && d.policy.mode.Enforce? ==>
                 Admits(d.policy, d.requestedPlatform, p))
  {
    var d := db.devices[i];
    var end := Regenerate(db, cfg, d.sub, d.publicId, draw, now).db;
    RegeneratedRowExactly(db, cfg, i, draw, now);
    RegeneratedPends(db, cfg, i, draw, now);
    RegenerateGood(db, cfg, d.sub, d.publicId, draw, now);
    StepUnique(db, Event(OpRegenerate(cfg, d.sub, d.publicId, draw), now));
    PendingLinkOpens(end, |db.devices|, db.entitlements[d.sub].max, now, cfg', p, replacement, later);
  }

  lemma CommittedTransferUnique(
      db: Db, cfg: Config, guid: Guid, publicId: string, operationId: Option<string>, platform: Option<Platform>,
      draw: Draw, now: Time)
    requires UniqueIndexes(db.devices)
    ensures UniqueIndexes(Transfer(db, cfg, guid, publicId, operationId, platform, draw, now).db.devices)
  {
  }

  /** ... and by transfer, for whoever presents the new platform first. */
  lemma TransferredLinkOpens(
      db: Db, cfg: Config, i: nat, operationId: Option<string>, platform: Option<Platform>, draw: Draw, now: Time,
      cfg': Config, p: Presented, replacement: Protected, later: Time)
    requires TableInvariant(db.devices) && UniqueIndexes(db.devices) && i < |db.devices| && cfg.pendingTtl > 0
    requires MayTransfer(db, cfg, db.devices[i].sub, db.devices[i].publicId, operationId, platform, draw, now)
    ensures
      var d := db.devices[i];
      var end := Transfer(db, cfg, d.sub, d.publicId, operationId, platform, draw, now).db;
      Validate(end, cfg', d.sub, draw.publicId, Some(draw.secret), p, replacement, later).result.Permit?
      <==> && Entitled(db, d.sub, later) && later < now + cfg.pendingTtl
           && (cfg'.bindingMode.BindingEnforce? ==>
                 p.header.Hwid? && p.keys.current.Some? && (p.platform.Some? ==> p.platform == platform))
  {
    var d := db.devices[i];
    var end := Transfer(db, cfg, d.sub, d.publicId, operationId, platform, draw, now).db;
    TransferredRowExactly(db, cfg, i, operationId, platform, draw, now);
    TransferredPends(db, cfg, i, operationId, platform, draw, now);
    TransferGood(db, cfg, d.sub, d.publicId, operationId, platform, draw, now);
    CommittedTransferUnique(db, cfg, d.sub, d.publicId, operationId, platform, draw, now);
    PendingLinkOpens(end, |db.devices|, db.entitlements[d.sub].max, now, cfg', p, replacement, later);
  }

  /* ---------- the guards, spelled out ---------- */

  /** A request is looked at if and only if its arguments are good and its subscription entitled. */
  lemma OpenedWhenEntitled(db: Db, guid: Guid, r: TokenRequest, now: Time)
    ensures Opened(db, guid, r, now) <==> !r.key.BadKey? && !r.platform.BadPlatform? && Entitled(db, guid, now)
  {
  }

  /** The slots that the other rows of row i's subscription take. */
  function OthersOccupy(t: Table, i: nat, now: Time): nat
    requires i < |t|
  {
    |set j: nat | j < |t| && j != i && Occupies(t[j], t[i].sub, now)|
  }

  lemma OthersCount(t: Table, i: nat, now: Time)
    requires i < |t|
    ensures OthersOccupy(t, i, now) == CountOccupied(t, t[i].sub, now) - if Live(t[i], now) then 1 else 0
  {
    var occupied := OccupiedIds(t, t[i].sub, now);
    assert (set j: nat | j < |t| && j != i && Occupies(t[j], t[i].sub, now)) == occupied - {i};
    WithoutOne(occupied, i);
  }

  /** Row i can be replaced if and only if it is unrevoked, its subscription entitled and a slot left by
      the others ... */
  lemma ReplaceableExactly(db: Db, i: nat, draw: Draw, now: Time)
    requires UniqueIndexes(db.devices) && i < |db.devices|
    ensures
      var d := db.devices[i];
      MayReissue(db, d.sub, d.publicId, draw, now)
      <==> && Entitled(db, d.sub, now) && d.revokedAt.None?
           && OthersOccupy(db.devices, i, now) < db.entitlements[d.sub].max
           && !PublicIdTaken(db.devices, draw.publicId)
  {
    NamedRow(db.devices, i);
    OthersCount(db.devices, i, now);
  }

  /** ... and transferred if and only if, besides, nobody has used the operation id and the cooldown has
      passed. */
  lemma TransferableExactly(
      db: Db, cfg: Config, i: nat, operationId: Option<string>, platform: Option<Platform>, draw: Draw, now: Time)
    requires UniqueIndexes(db.devices) && i < |db.devices|
    ensures
      var d := db.devices[i];
      MayTransfer(db, cfg, d.sub, d.publicId, operationId, platform, draw, now)
      <==> && MayReissue(db, d.sub, d.publicId, draw, now)
           && operationId.Some? && platform.Some? && operationId.value !in db.transfers
           && (d.lastTransferAt.Some? ==> d.lastTransferAt.value + cfg.transferCooldown <= now)
  {
    NamedRow(db.devices, i);
  }
}
