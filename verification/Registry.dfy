/** The repository's write-locked transactions as functions from one database state to the
    next.  A transaction that breaks a unique index leaves the state as it was. */
module Registry {
  import opened Text
  import opened Canonical
  import opened DevicePolicy
  import opened DeviceTable

  datatype Config = Config(
    pendingTtl: int,
    reservationTtl: int,
    transferCooldown: int,
    bindingMode: BindingMode,
    newPolicyMode: PolicyMode,
    newPolicyVersion: int,
    requireIssuanceKey: bool,
    credentialKeys: set<string>,
    unreadable: set<string>)

  datatype Entitlement = Entitlement(version: int, status: string, validUntil: Option<Time>, max: int)

  datatype LogEntry = LogEntry(
    sub: Guid, kind: string, fingerprint: string, expectedVersion: int, result: Entitlement, appliedAt: Time)

  datatype TransferEntry = TransferEntry(
    sub: Guid, source: nat, replacement: nat, fingerprint: string, appliedAt: Time)

  datatype Db = Db(
    devices: Table,
    subscriptions: set<Guid>,
    externalIds: map<string, Guid>,
    entitlements: map<Guid, Entitlement>,
    log: map<string, LogEntry>,
    transfers: map<string, TransferEntry>)

  const EMPTY := Db([], {}, map[], map[], map[], map[])

  datatype Outcome<+R> = Outcome(db: Db, result: R)

  /** Values drawn from the random source for a new link. */
  datatype Draw = Draw(publicId: string, secret: string, credential: Protected)

  /* ---------- entitlements ---------- */

  predicate ValidEntitlement(e: Entitlement) {
    e.version >= 1 && IsEntitlementStatus(e.status) && 1 <= e.max <= 100
  }

  predicate Blank(s: string) {
    Trim(s) == ""
  }

  datatype SubscriptionResult =
    | SubscriptionCreated(guid: Guid)
    | SubscriptionExists(guid: Guid)
    | SubscriptionRejected
    | SubscriptionViolation

  function CreationOperationId(guid: Guid): string {
    "subscription-creation:" + guid
  }

  function CreationEntry(guid: Guid, e: Entitlement, now: Time): LogEntry {
    var kind := "subscription_creation";
    LogEntry(guid, kind, EntitlementPayload(guid, kind, 0, e.status, e.validUntil, e.max), 0, e, now)
  }

  function CreateSubscription(
      db: Db, guid: Guid, externalId: Option<string>, e: Entitlement, now: Time): Outcome<SubscriptionResult>
  {
    if !ValidEntitlement(e) then Outcome(db, SubscriptionRejected)
    else if externalId.Some? && !Blank(externalId.value) && externalId.value in db.externalIds then
      Outcome(db, SubscriptionExists(db.externalIds[externalId.value]))
    else if guid in db.subscriptions || (externalId.Some? && externalId.value in db.externalIds)
            || CreationOperationId(guid) in db.log then
      Outcome(db, SubscriptionViolation)
    else
      Outcome(
        db.(subscriptions := db.subscriptions + {guid},
            externalIds := if externalId.Some? then db.externalIds[externalId.value := guid] else db.externalIds,
            entitlements := db.entitlements[guid := e],
            log := db.log[CreationOperationId(guid) := CreationEntry(guid, e, now)]),
        SubscriptionCreated(guid))
  }

  datatype OperationRequest = OperationRequest(
    operationId: string, kind: string, expectedVersion: int, status: string,
    validUntil: Option<Time>, max: int)

  datatype OperationResult =
    | OperationApplied(entry: LogEntry, active: nat)
    | OperationAlreadyApplied(entry: LogEntry)
    | OperationIdempotencyConflict(entry: LogEntry)
    | OperationVersionConflict(actual: Option<int>)
    | OperationSubscriptionNotFound
    | OperationLimitDecrease(current: int)
    | OperationActiveDevicesConflict(current: int, active: nat)
    | OperationRejected
    | OperationViolation

  predicate OperationIdCharacter(c: char) {
    'A' <= c <= 'Z' || 'a' <= c <= 'z' || '0' <= c <= '9' || c == ':' || c == '_' || c == '-'
  }

  /** The pattern's end anchor also matches before a final newline. */
  predicate OperationIdText(s: string) {
    var body := if |s| > 0 && s[|s| - 1] == '\n' then s[..|s| - 1] else s;
    |body| > 0 && forall c :: c in body ==> OperationIdCharacter(c)
  }

  predicate ValidOperation(r: OperationRequest) {
    && !Blank(r.operationId) && |r.operationId| <= 128 && OperationIdText(r.operationId)
    && !Blank(r.kind) && |r.kind| <= 32
    && r.expectedVersion > 0
    && ValidEntitlement(Entitlement(r.expectedVersion + 1, r.status, r.validUntil, r.max))
  }

  function OperationFingerprint(guid: Guid, r: OperationRequest): string {
    EntitlementPayload(guid, r.kind, r.expectedVersion, r.status, r.validUntil, r.max)
  }

  /** The unique index on (subscription, result version). */
  predicate ResultVersionTaken(log: map<string, LogEntry>, sub: Guid, version: int) {
    exists id :: id in log && log[id].sub == sub && log[id].result.version == version
  }

  function ApplyOperation(db: Db, guid: Guid, r: OperationRequest, now: Time): Outcome<OperationResult> {
    if !ValidOperation(r) then Outcome(db, OperationRejected)
    else
      var fingerprint := OperationFingerprint(guid, r);
      if r.operationId in db.log then
        var entry := db.log[r.operationId];
        Outcome(db, if entry.fingerprint == fingerprint then OperationAlreadyApplied(entry)
                    else OperationIdempotencyConflict(entry))
      else if guid !in db.subscriptions then Outcome(db, OperationSubscriptionNotFound)
      else if guid !in db.entitlements then Outcome(db, OperationVersionConflict(None))
      else
        var current := db.entitlements[guid];
        var active := CountActive(db.devices, guid);
        if current.version != r.expectedVersion then
          Outcome(db, OperationVersionConflict(Some(current.version)))
        else if r.max < current.max then Outcome(db, OperationLimitDecrease(current.version))
        else if r.max < active then Outcome(db, OperationActiveDevicesConflict(current.version, active))
        else
          var update := Entitlement(current.version + 1, r.status, r.validUntil, r.max);
          var entry := LogEntry(guid, r.kind, fingerprint, r.expectedVersion, update, now);
          if ResultVersionTaken(db.log, guid, update.version) then Outcome(db, OperationViolation)
          else
            Outcome(
              db.(entitlements := db.entitlements[guid := update],
                  log := db.log[r.operationId := entry]),
              OperationApplied(entry, active))
  }

  datatype PutResult =
    | PutApplied(version: int, active: nat)
    | PutAlreadyApplied(version: int, active: nat)
    | PutStale(version: int, active: nat)
    | PutInvalidState(version: int, active: nat)
    | PutSubscriptionNotFound
    | PutLimitDecrease(version: int, active: nat)
    | PutActiveDevicesExceedNewLimit(current: Option<int>, active: nat)
    | PutRejected

  function PutEntitlement(db: Db, guid: Guid, e: Entitlement): Outcome<PutResult> {
    if !ValidEntitlement(e) then Outcome(db, PutRejected)
    else if guid !in db.subscriptions then Outcome(db, PutSubscriptionNotFound)
    else
      var current := if guid in db.entitlements then Some(db.entitlements[guid]) else None;
      var active := CountActive(db.devices, guid);
      var applied := Outcome(db.(entitlements := db.entitlements[guid := e]), PutApplied(e.version, active));
      if current.Some? && e.max < current.value.max then
        Outcome(db, PutLimitDecrease(current.value.version, active))
      else if e.max < active then
        Outcome(db, PutActiveDevicesExceedNewLimit(
                      if current.Some? then Some(current.value.version) else None, active))
      else if current.None? || e.version > current.value.version then applied
      else if e.version < current.value.version then Outcome(db, PutStale(current.value.version, active))
      else if e == current.value then Outcome(db, PutAlreadyApplied(current.value.version, active))
      else Outcome(db, PutInvalidState(current.value.version, active))
  }

  /* ---------- personal links ---------- */

  datatype TokenResult =
    | TokenNotFound
    | TokenInvalid(code: string)
    | TokenLimitReached(active: nat, pending: nat, max: int)
    | TokenCreated(publicId: string, displayName: string, active: nat, pending: nat, max: int, expiresAt: Time)
    | TokenExisting(publicId: string, displayName: string, active: nat, pending: nat, max: int,
                    pendingExpiresAt: Option<Time>)
    | TokenViolation

  datatype KeyArgument = NoKey | BadKey | Key(value: string)
  datatype PlatformArgument = NoPlatform | BadPlatform | OnPlatform(value: Platform)

  datatype TokenRequest = TokenRequest(
    displayName: Option<string>, platform: PlatformArgument, key: KeyArgument)

  function RequestedPlatform(p: PlatformArgument): Option<Platform> {
    if p.OnPlatform? then Some(p.value) else None
  }

  predicate PastValidity(e: Entitlement, now: Time) {
    e.validUntil.Some? && e.validUntil.value <= now
  }

  /** Issuing reports a disabled subscription before an out-of-date one. */
  function IssueRefusal(e: Entitlement, now: Time): Option<string> {
    if e.status == EXPIRED then Some("subscription_expired")
    else if e.status != ACTIVE then Some("subscription_disabled")
    else if PastValidity(e, now) then Some("subscription_expired")
    else None
  }

  /** Regenerating and transferring report them the other way round. */
  function ReissueRefusal(e: Entitlement, now: Time): Option<string> {
    if e.status == EXPIRED || PastValidity(e, now) then Some("subscription_expired")
    else if e.status != ACTIVE then Some("subscription_disabled")
    else None
  }

  function CredentialError(cfg: Config, c: Protected): Option<string> {
    if c.keyId !in cfg.credentialKeys then Some("credential_key_unavailable")
    else if c.ciphertext in cfg.unreadable then Some("credential_corrupted")
    else None
  }

  function DefaultDisplayName(slot: nat): string {
    "Устройство " + Decimal(slot)
  }

  /** Keys issued to callers without an idempotency key.  The keyed hash in them is injective. */
  function LegacyKey(displayName: string): string {
    "legacy-display-name:v1:" + displayName
  }

  function ModeName(mode: PolicyMode): string {
    match mode
    case Legacy => "legacy"
    case Observe => "observe"
    case Enforce => "enforce"
  }

  function CompatibilityKey(name: Option<string>, platform: Option<Platform>, mode: PolicyMode): string {
    "protected-compatibility:v2:" + name.GetOr("") + "\0" + OptionalPlatform(platform) + "\0" + ModeName(mode)
  }

  function NewPolicy(cfg: Config): FeedPolicy {
    FeedPolicy(cfg.newPolicyVersion, cfg.newPolicyMode,
               if cfg.newPolicyMode.Legacy? then Grandfathered else Unbound, None, None)
  }

  const TRANSFERRED_POLICY := FeedPolicy(HWID_IDENTITY, Enforce, Unbound, None, None)

  function NewLink(
      sub: Guid, draw: Draw, displayName: string, expiresAt: Time, key: Option<string>,
      hash: Option<string>, platform: Option<Platform>, policy: FeedPolicy,
      lastTransferAt: Option<Time>, transferCount: nat, origin: Origin): Device
  {
    Device(sub, draw.publicId, draw.secret, displayName, Some(expiresAt), None, None, None,
           Columns(draw.credential), key, hash, platform, policy, lastTransferAt, transferCount,
           DeviceLink, LegacyState, None, origin)
  }

  /** A row without a request hash is compared by name and platform instead. */
  predicate ReplayCompatible(d: Device, name: Option<string>, platform: Option<Platform>, hash: string) {
    if d.issuanceHash.Some? then d.issuanceHash.value == hash
    else (name.None? || name.value == d.displayName) && d.requestedPlatform == platform
  }

  /** Replays a request whose key is already held by row i. */
  function ReplayIssuance(
      t: Table, i: nat, name: Option<string>, platform: Option<Platform>, hash: string, cfg: Config,
      active: nat, pending: nat, max: int): (Table, TokenResult)
    requires i < |t|
  {
    var d := t[i];
    if !ReplayCompatible(d, name, platform, hash) then (t, TokenInvalid("idempotency_key_reused"))
    else
      var t1 := t[i := d.(issuanceHash := Coalesce(d.issuanceHash, Some(hash)))];
      if d.revokedAt.Some? then (t1, TokenInvalid("device_issuance_revoked"))
      else if !d.credential.Complete() then (t1, TokenInvalid("credential_reissue_required"))
      else
        var error := CredentialError(cfg, d.credential.Get());
        if error.Some? then (t1, TokenInvalid(error.value))
        else (t1, TokenExisting(d.publicId, d.displayName, active, pending, max, d.pendingExpiresAt))
  }

  /** Gives an unkeyed legacy row the compatibility key it is asked for. */
  function AdoptLegacy(d: Device, key: string, hash: string, platform: Option<Platform>): Device {
    d.(issuanceKey := Some(key), issuanceHash := Some(hash),
       requestedPlatform := Coalesce(d.requestedPlatform, platform))
  }

  /** The key a request is issued under, once its display name is settled. */
  function EffectiveKey(cfg: Config, r: TokenRequest, displayName: string): string {
    if r.key.Key? then r.key.value
    else if cfg.newPolicyMode.Legacy? then LegacyKey(displayName)
    else CompatibilityKey(r.displayName, RequestedPlatform(r.platform), cfg.newPolicyMode)
  }

  /** Issues a key that no row holds: adopt a legacy row of that name, or add a row if a slot
      is free. */
  function IssueNew(
      t: Table, cfg: Config, guid: Guid, max: int, r: TokenRequest, displayName: string, key: string,
      hash: string, draw: Draw, now: Time): (Table, TokenResult)
  {
    var active, pending := CountActive(t, guid), CountPending(t, guid, now);
    var platform := RequestedPlatform(r.platform);
    var legacy := if r.key.NoKey? && cfg.newPolicyMode.Legacy? then FindLegacy(t, guid, displayName) else None;
    if legacy.Some? && t[legacy.value].credential.Complete() then
      var d := t[legacy.value];
      var u := t[legacy.value := AdoptLegacy(d, key, hash, platform)];
      var error := CredentialError(cfg, d.credential.Get());
      if error.Some? then (u, TokenInvalid(error.value))
      else (u, TokenExisting(d.publicId, d.displayName, active, pending, max, d.pendingExpiresAt))
    else if active + pending >= max then (t, TokenLimitReached(active, pending, max))
    else
      (t + [IssuedLink(cfg, guid, draw, displayName, key, hash, platform, now)],
       TokenCreated(draw.publicId, displayName, active, pending + 1, max, now + cfg.pendingTtl))
  }

  function IssuedLink(
      cfg: Config, guid: Guid, draw: Draw, displayName: string, key: string, hash: string,
      platform: Option<Platform>, now: Time): Device
  {
    NewLink(guid, draw, displayName, now + cfg.pendingTtl, Some(key), Some(hash), platform, NewPolicy(cfg),
            None, 0, Issued)
  }

  /** Everything after the expiry of stale reservations, on the table that expiry produced. */
  function IssueToken(
      t: Table, cfg: Config, guid: Guid, max: int, r: TokenRequest, draw: Draw, now: Time): (Table, TokenResult)
  {
    var active, pending := CountActive(t, guid), CountPending(t, guid, now);
    var displayName := r.displayName.GetOr(DefaultDisplayName(active + pending + 1));
    var key := EffectiveKey(cfg, r, displayName);
    var hash := IssuancePayload(guid, r.displayName, RequestedPlatform(r.platform));
    if r.key.NoKey? && cfg.requireIssuanceKey then (t, TokenInvalid("device_issuance_key_required"))
    else
      var existing := FindKey(t, guid, key);
      if existing.Some? then
        ReplayIssuance(t, existing.value, r.displayName, RequestedPlatform(r.platform), hash, cfg,
                       active, pending, max)
      else IssueNew(t, cfg, guid, max, r, displayName, key, hash, draw, now)
  }

  /** Commits a new table unless it breaks a unique index. */
  function CommitTable<R>(db: Db, t: Table, result: R, violation: R): Outcome<R> {
    if UniqueIndexes(t) then Outcome(db.(devices := t), result) else Outcome(db, violation)
  }

  function CreateToken(
      db: Db, cfg: Config, guid: Guid, r: TokenRequest, draw: Draw, now: Time): Outcome<TokenResult>
  {
    if r.key.BadKey? then Outcome(db, TokenInvalid("invalid_idempotency_key"))
    else if r.platform.BadPlatform? then Outcome(db, TokenInvalid("invalid_requested_platform"))
    else if guid !in db.subscriptions then Outcome(db, TokenNotFound)
    else if guid !in db.entitlements then Outcome(db, TokenInvalid("entitlement_missing"))
    else
      var refusal := IssueRefusal(db.entitlements[guid], now);
      if refusal.Some? then Outcome(db, TokenInvalid(refusal.value))
      else
        var (t, result) := IssueToken(
          ExpirePending(db.devices, guid, now), cfg, guid, db.entitlements[guid].max, r, draw, now);
        CommitTable(db, t, result, TokenViolation)
  }

  /** The table once row i has given up its key and been revoked, and stale reservations
      have been expired. */
  function Retire(t: Table, i: nat, guid: Guid, reason: Reason, now: Time): (r: Table)
    requires i < |t|
    ensures |r| == |t|
  {
    ExpirePending(t[i := RevokeRow(ReleaseKey(t[i]), now, reason)], guid, now)
  }

  function RegeneratedLink(cfg: Config, d: Device, i: nat, draw: Draw, now: Time): Device {
    NewLink(d.sub, draw, d.displayName, now + cfg.pendingTtl, d.issuanceKey, d.issuanceHash,
            d.requestedPlatform, d.policy, d.lastTransferAt, d.transferCount, RegeneratedFrom(i))
  }

  function TransferredLink(cfg: Config, d: Device, i: nat, platform: Platform, draw: Draw, now: Time): Device {
    NewLink(d.sub, draw, d.displayName, now + cfg.pendingTtl, d.issuanceKey, d.issuanceHash,
            Some(platform), TRANSFERRED_POLICY, Some(now), d.transferCount + 1, TransferredFrom(i))
  }

  /** The slots taken once a row has been retired, if none is left for its replacement. */
  function NoSlotLeft(t: Table, guid: Guid, max: int, now: Time): Option<TokenResult> {
    var active, pending := CountActive(t, guid), CountPending(t, guid, now);
    if active + pending >= max then Some(TokenLimitReached(active, pending, max)) else None
  }

  function ReplacementCreated(t: Table, guid: Guid, row: Device, max: int, now: Time): TokenResult
    requires row.pendingExpiresAt.Some?
  {
    TokenCreated(row.publicId, row.displayName, CountActive(t, guid), CountPending(t, guid, now) + 1, max,
                 row.pendingExpiresAt.value)
  }

  function RegenerateRow(
      db: Db, cfg: Config, guid: Guid, max: int, i: nat, draw: Draw, now: Time): Outcome<TokenResult>
    requires i < |db.devices|
  {
    var t := Retire(db.devices, i, guid, Regenerated, now);
    var refusal := NoSlotLeft(t, guid, max, now);
    if refusal.Some? then Outcome(db, refusal.value)
    else
      var row := RegeneratedLink(cfg, db.devices[i], i, draw, now);
      CommitTable(db, t + [row], ReplacementCreated(t, guid, row, max, now), TokenViolation)
  }

  function Regenerate(
      db: Db, cfg: Config, guid: Guid, publicId: string, draw: Draw, now: Time): Outcome<TokenResult>
  {
    if guid !in db.subscriptions then Outcome(db, TokenNotFound)
    else if guid !in db.entitlements then Outcome(db, TokenInvalid("entitlement_missing"))
    else
      var refusal := ReissueRefusal(db.entitlements[guid], now);
      var found := FindDevice(db.devices, guid, publicId);
      if refusal.Some? then Outcome(db, TokenInvalid(refusal.value))
      else if found.None? || db.devices[found.value].revokedAt.Some? then
        Outcome(db, TokenInvalid("device_token_not_found"))
      else RegenerateRow(db, cfg, guid, db.entitlements[guid].max, found.value, draw, now)
  }

  predicate CoolingDown(d: Device, cfg: Config, now: Time) {
    d.lastTransferAt.Some? && d.lastTransferAt.value + cfg.transferCooldown > now
  }

  function ReplayTransfer(
      db: Db, cfg: Config, guid: Guid, publicId: string, entry: TransferEntry, fingerprint: string,
      now: Time): TokenResult
    requires entry.source < |db.devices| && entry.replacement < |db.devices| && guid in db.entitlements
  {
    var d := db.devices[entry.replacement];
    if entry.fingerprint != fingerprint || db.devices[entry.source].publicId != publicId then
      TokenInvalid("idempotency_key_reused")
    else if !d.credential.Complete() then TokenInvalid("credential_reissue_required")
    else
      var error := CredentialError(cfg, d.credential.Get());
      if error.Some? then TokenInvalid(error.value)
      else TokenExisting(d.publicId, d.displayName, CountActive(db.devices, guid),
                         CountPending(db.devices, guid, now), db.entitlements[guid].max, d.pendingExpiresAt)
  }

  /** The inner joins of the replay query: a recorded operation of this subscription. */
  predicate TransferRecorded(db: Db, guid: Guid, operationId: string) {
    operationId in db.transfers && db.transfers[operationId].sub == guid
    && guid in db.subscriptions && guid in db.entitlements
    && db.transfers[operationId].source < |db.devices| && db.transfers[operationId].replacement < |db.devices|
  }

  function TransferRow(
      db: Db, cfg: Config, guid: Guid, max: int, i: nat, operationId: string, platform: Platform,
      fingerprint: string, draw: Draw, now: Time): Outcome<TokenResult>
    requires i < |db.devices|
  {
    var t := Retire(db.devices, i, guid, Transferred, now);
    var refusal := NoSlotLeft(t, guid, max, now);
    if refusal.Some? then Outcome(db, refusal.value)
    else
      var row := TransferredLink(cfg, db.devices[i], i, platform, draw, now);
      if operationId in db.transfers || !UniqueIndexes(t + [row]) then Outcome(db, TokenViolation)
      else
        Outcome(
          db.(devices := t + [row],
              transfers := db.transfers[operationId := TransferEntry(guid, i, |t|, fingerprint, now)]),
          ReplacementCreated(t, guid, row, max, now))
  }

  function Transfer(
      db: Db, cfg: Config, guid: Guid, publicId: string, operationId: Option<string>, platform: Option<Platform>,
      draw: Draw, now: Time): Outcome<TokenResult>
  {
    if operationId.None? then Outcome(db, TokenInvalid("invalid_idempotency_key"))
    else if platform.None? then Outcome(db, TokenInvalid("invalid_requested_platform"))
    else
      var fingerprint := TransferPayload(guid, publicId, platform.value);
      if TransferRecorded(db, guid, operationId.value) then
        Outcome(db, ReplayTransfer(db, cfg, guid, publicId, db.transfers[operationId.value], fingerprint, now))
      else if guid !in db.subscriptions then Outcome(db, TokenNotFound)
      else if guid !in db.entitlements then Outcome(db, TokenInvalid("entitlement_missing"))
      else
        var refusal := ReissueRefusal(db.entitlements[guid], now);
        var found := FindDevice(db.devices, guid, publicId);
        if refusal.Some? then Outcome(db, TokenInvalid(refusal.value))
        else if found.None? || db.devices[found.value].revokedAt.Some? then
          Outcome(db, TokenInvalid("device_token_not_found"))
        else if CoolingDown(db.devices[found.value], cfg, now) then
          Outcome(db, TokenInvalid("device_transfer_cooldown_active"))
        else
          TransferRow(db, cfg, guid, db.entitlements[guid].max, found.value, operationId.value, platform.value,
                      fingerprint, draw, now)
  }

  function Revoke(db: Db, guid: Guid, publicId: string, now: Time): Outcome<bool> {
    var found := FindDevice(db.devices, guid, publicId);
    if guid !in db.subscriptions || found.None? then Outcome(db, false)
    else
      Outcome(db.(devices := db.devices[found.value := DisableRow(db.devices[found.value], now, UserRevoked)]), true)
  }

  datatype RevokeAllResult = RevokeAllResult(found: bool, revoked: nat)

  function UnrevokedIds(t: Table, sub: Guid): set<nat> {
    set i: nat | i < |t| && t[i].sub == sub && t[i].revokedAt.None?
  }

  function RevokeAll(db: Db, guid: Guid, now: Time): Outcome<RevokeAllResult> {
    if guid !in db.subscriptions then Outcome(db, RevokeAllResult(false, 0))
    else
      Outcome(db.(devices := ResetAllRows(db.devices, guid, now)),
              RevokeAllResult(true, |UnrevokedIds(db.devices, guid)|))
  }

  datatype ReadResult = ReadNotFound | ReadInvalid(code: string) | ReadAvailable(id: nat, credential: Protected)

  /** The unlocked read of a stored credential. */
  function ReadCredential(db: Db, cfg: Config, guid: Guid, publicId: string): ReadResult {
    var found := FindDevice(db.devices, guid, publicId);
    if guid !in db.subscriptions || found.None? then ReadNotFound
    else
      var d := db.devices[found.value];
      if d.revokedAt.Some? then ReadInvalid("device_token_revoked")
      else if !d.credential.Complete() then ReadInvalid("credential_reissue_required")
      else
        var error := CredentialError(cfg, d.credential.Get());
        if error.Some? then ReadInvalid(error.value) else ReadAvailable(found.value, d.credential.Get())
  }

  /** The later compare-and-set that re-encrypts a credential read earlier. */
  function ReadRepair(db: Db, id: nat, previous: Protected, replacement: Protected): Outcome<bool> {
    if id < |db.devices| && db.devices[id].credential == Columns(previous) then
      Outcome(db.(devices := db.devices[id := db.devices[id].(credential := Columns(replacement))]), true)
    else Outcome(db, false)
  }

  /* ---------- access ---------- */

  datatype Status =
    | SubscriptionNotFound | SubscriptionDisabled | SubscriptionExpired | DeviceTokenInvalid
    | DeviceTokenRevoked | DeviceTokenExpired | DeviceLimitReached | DeviceIdentityRequired
    | DeviceTransferRequired

  datatype Access =
    | Permit(active: nat, max: int, validUntil: Option<Time>)
    | Forbid(status: Status, active: nat, max: int, reason: Option<string>)
    | AccessViolation

  function Refuse(status: Status): Access {
    Forbid(status, 0, 0, None)
  }

  /** What a request presents: its platform, its HWID header and whether the observation it
      leaves behind raises the row's risk to the review threshold. */
  datatype Presented = Presented(platform: Option<Platform>, header: HwidHeader, keys: IdentityKeys, risky: bool)

  function ContextOf(p: Presented): Context {
    Context(p.platform, Identify(p.header, p.keys))
  }

  function NoteRisk(policy: FeedPolicy, decision: Decision, risky: bool): FeedPolicy {
    if decision.shouldRecord && risky && !policy.mode.Legacy? then policy.(binding := Review) else policy
  }

  function DeniedStatus(reason: Option<string>): Status {
    if reason == Some("identity_missing") || reason == Some("identity_invalid")
       || reason == Some("identity_hash_unavailable") then DeviceIdentityRequired
    else DeviceTransferRequired
  }

  /** The row after an access that passed every check up to the policy. */
  function AccessRow(d: Device, cfg: Config, p: Presented, replacement: Protected, now: Time): (Device, Decision) {
    var decision := Evaluate(cfg.bindingMode, d.policy, d.requestedPlatform, ContextOf(p));
    var noted := NoteRisk(d.policy, decision, p.risky);
    var bound := Rebind(noted, d.requestedPlatform, ContextOf(p), decision);
    var kept := Backfill(d, replacement).(policy := bound);
    (if decision.allowed then MarkUsed(kept, now) else kept, decision)
  }

  function Validate(
      db: Db, cfg: Config, guid: Guid, publicId: string, token: Option<string>, p: Presented,
      replacement: Protected, now: Time): Outcome<Access>
  {
    var found := FindDevice(db.devices, guid, publicId);
    if token.None? || guid !in db.subscriptions || guid !in db.entitlements || found.None? then
      Outcome(db, Refuse(DeviceTokenInvalid))
    else
      var i, d, e := found.value, db.devices[found.value], db.entitlements[guid];
      if d.revokedAt.Some? then Outcome(db, Refuse(DeviceTokenRevoked))
      else if token.value != d.secretHash then Outcome(db, Refuse(DeviceTokenInvalid))
      else if d.activatedAt.None? && d.pendingExpiresAt.Some? && d.pendingExpiresAt.value <= now then
        Outcome(db.(devices := db.devices[i := RevokeRow(d, now, ExpiredPending)]), Refuse(DeviceTokenExpired))
      else if e.status == EXPIRED then Outcome(db, Refuse(SubscriptionExpired))
      else if e.status != ACTIVE then Outcome(db, Refuse(SubscriptionDisabled))
      else if PastValidity(e, now) then Outcome(db, Refuse(SubscriptionExpired))
      else
        var active := CountActive(db.devices, guid);
        if d.activatedAt.None? && active >= e.max then
          Outcome(db, Forbid(DeviceLimitReached, active, e.max, None))
        else
          var (row, decision) := AccessRow(d, cfg, p, replacement, now);
          var access :=
            if decision.allowed then
              Permit(if d.activatedAt.None? then active + 1 else active, e.max, e.validUntil)
            else Forbid(DeniedStatus(decision.reason), active, e.max, decision.reason);
          CommitTable(db, db.devices[i := row], access, AccessViolation)
  }

  datatype Resolution = Resolution(access: Access, publicId: Option<string>, created: bool, provisioning: bool)

  function Denied(access: Access): Resolution {
    Resolution(access, None, false, false)
  }

  function NewUnified(
      sub: Guid, draw: Draw, displayName: string, p: Presented, current: IdentityHash, until: Time): Device
  {
    Device(sub, draw.publicId, draw.secret, displayName, Some(until), None, None, None,
           NO_CREDENTIAL, None, None, p.platform,
           FeedPolicy(HWID_IDENTITY, Enforce, Bound, p.platform, Some(current)),
           None, 0, UnifiedFeed, Provisioning, Some(until), Issued)
  }

  predicate ReservationExpired(d: Device, now: Time) {
    d.activatedAt.None? && d.provisioningExpiresAt.Some? && d.provisioningExpiresAt.value <= now
  }

  predicate IsDisabled(d: Device) {
    d.revokedAt.Some? || d.state.Disabled?
  }

  /** Resolving a known HWID. */
  function ResolveKnown(
      db: Db, cfg: Config, guid: Guid, e: Entitlement, i: nat, current: IdentityHash, p: Presented,
      displayName: string, now: Time): Outcome<Resolution>
    requires i < |db.devices|
  {
    var d := db.devices[i];
    var occupied := CountOccupied(db.devices, guid, now);
    if IsDisabled(d) then Outcome(db, Denied(Forbid(DeviceTokenRevoked, occupied, e.max, None)))
    else if ReservationExpired(d, now) && occupied >= e.max then
      Outcome(db, Denied(Forbid(DeviceLimitReached, occupied, e.max, None)))
    else
      var reserved := if ReservationExpired(d, now) then Reserve(d, now + cfg.reservationTtl) else d;
      var t := db.devices[i := ObserveIdentity(reserved, p.platform, displayName, current)];
      CommitTable(db, t,
                  Resolution(Permit(CountOccupied(t, guid, now), e.max, e.validUntil), Some(d.publicId), false,
                             d.activatedAt.None?),
                  Denied(AccessViolation))
  }

  /** Resolving a HWID that has no row under either configured key. */
  function ResolveNew(
      db: Db, cfg: Config, guid: Guid, e: Entitlement, current: IdentityHash, p: Presented,
      displayName: string, draw: Draw, now: Time): Outcome<Resolution>
  {
    var occupied := CountOccupied(db.devices, guid, now);
    if occupied >= e.max then Outcome(db, Denied(Forbid(DeviceLimitReached, occupied, e.max, None)))
    else
      var row := NewUnified(guid, draw, displayName, p, current, now + cfg.reservationTtl);
      CommitTable(db, db.devices + [row],
                  Resolution(Permit(occupied + 1, e.max, e.validUntil), Some(draw.publicId), true, true),
                  Denied(AccessViolation))
  }

  /** Why the feed of a subscription is refused before any device is looked up. */
  function FeedRefusal(db: Db, guid: Guid, secretVerified: bool, now: Time): Option<Status> {
    if guid !in db.subscriptions then Some(SubscriptionNotFound)
    else if !secretVerified then Some(DeviceTokenInvalid)
    else if guid !in db.entitlements then Some(SubscriptionDisabled)
    else if db.entitlements[guid].status == EXPIRED || PastValidity(db.entitlements[guid], now) then
      Some(SubscriptionExpired)
    else if db.entitlements[guid].status != ACTIVE then Some(SubscriptionDisabled)
    else None
  }

  function Resolve(
      db: Db, cfg: Config, guid: Guid, hasToken: bool, secretVerified: bool, p: Presented,
      displayName: string, draw: Draw, now: Time): Outcome<Resolution>
  {
    var identity := Identify(p.header, p.keys);
    if !identity.Identified? then Outcome(db, Denied(Refuse(DeviceIdentityRequired)))
    else if !hasToken then Outcome(db, Denied(Refuse(DeviceTokenInvalid)))
    else
      var refusal := FeedRefusal(db, guid, secretVerified, now);
      if refusal.Some? then Outcome(db, Denied(Refuse(refusal.value)))
      else
        var e := db.entitlements[guid];
        var found := FindUnified(db.devices, guid, identity.current, identity.previous);
        if found.Some? then ResolveKnown(db, cfg, guid, e, found.value, identity.current, p, displayName, now)
        else ResolveNew(db, cfg, guid, e, identity.current, p, displayName, draw, now)
  }

  /** The unified row an UPDATE of the feed protocol addresses. */
  function FeedRow(db: Db, guid: Guid, publicId: string): (r: Option<nat>)
    ensures r.Some? ==> r.value < |db.devices| && IsUnified(db.devices[r.value], guid)
                        && db.devices[r.value].publicId == publicId
  {
    var found := FindDevice(db.devices, guid, publicId);
    if guid in db.subscriptions && found.Some? && db.devices[found.value].channel.UnifiedFeed? then found else None
  }

  function Activated(d: Device, now: Time): Device {
    MarkUsed(d, now).(pendingExpiresAt := None, provisioningExpiresAt := None, state := ActiveState)
  }

  function MarkActivated(db: Db, guid: Guid, publicId: string, now: Time): Db {
    var found := FeedRow(db, guid, publicId);
    if found.None? || db.devices[found.value].revokedAt.Some? then db
    else db.(devices := db.devices[found.value := Activated(db.devices[found.value], now)])
  }

  function Failed(d: Device, until: Time): Device {
    d.(state := ProvisioningFailed,
       provisioningExpiresAt := Coalesce(d.provisioningExpiresAt, Some(until)),
       pendingExpiresAt := Coalesce(d.pendingExpiresAt, Some(until)))
  }

  function MarkFailed(db: Db, cfg: Config, guid: Guid, publicId: string, now: Time): Db {
    var found := FeedRow(db, guid, publicId);
    if found.None? || db.devices[found.value].revokedAt.Some? then db
    else db.(devices := db.devices[found.value := Failed(db.devices[found.value], now + cfg.reservationTtl)])
  }

  datatype EnableResult =
    | EnableNotFound
    | EnableInactive(max: int)
    | EnableExisting(occupied: nat, max: int)
    | EnableLimitReached(occupied: nat, max: int)
    | Enabled(occupied: nat, max: int)

  function Reenabled(d: Device, until: Time): Device {
    Reserve(d, until).(revokedAt := None, revocationReason := None, activatedAt := None)
  }

  function Enable(db: Db, cfg: Config, guid: Guid, publicId: string, now: Time): Outcome<EnableResult> {
    var found := FeedRow(db, guid, publicId);
    if found.None? then Outcome(db, EnableNotFound)
    else if guid !in db.entitlements then Outcome(db, EnableInactive(0))
    else
      var d, e := db.devices[found.value], db.entitlements[guid];
      var occupied := CountOccupied(db.devices, guid, now);
      if e.status != ACTIVE || PastValidity(e, now) then Outcome(db, EnableInactive(e.max))
      else if d.revokedAt.None? then Outcome(db, EnableExisting(occupied, e.max))
      else if occupied >= e.max then Outcome(db, EnableLimitReached(occupied, e.max))
      else
        Outcome(db.(devices := db.devices[found.value := Reenabled(d, now + cfg.reservationTtl)]),
                Enabled(occupied + 1, e.max))
  }

  /* ---------- runs ---------- */

  datatype Operation =
    | OpCreateSubscription(guid: Guid, externalId: Option<string>, entitlement: Entitlement)
    | OpApplyOperation(guid: Guid, operation: OperationRequest)
    | OpPutEntitlement(guid: Guid, entitlement: Entitlement)
    | OpCreateToken(cfg: Config, guid: Guid, token: TokenRequest, draw: Draw)
    | OpRegenerate(cfg: Config, guid: Guid, publicId: string, draw: Draw)
    | OpTransfer(cfg: Config, guid: Guid, publicId: string, operationId: Option<string>,
                 platform: Option<Platform>, draw: Draw)
    | OpRevoke(guid: Guid, publicId: string)
    | OpRevokeAll(guid: Guid)
    | OpReadRepair(id: nat, previous: Protected, replacement: Protected)
    | OpValidate(cfg: Config, guid: Guid, publicId: string, secret: Option<string>, presented: Presented,
                 replacement: Protected)
    | OpResolve(cfg: Config, guid: Guid, hasToken: bool, secretVerified: bool, presented: Presented,
                displayName: string, draw: Draw)
    | OpMarkActivated(guid: Guid, publicId: string)
    | OpMarkFailed(cfg: Config, guid: Guid, publicId: string)
    | OpEnable(cfg: Config, guid: Guid, publicId: string)

  /** A committed transaction with the time it was given.  Activation and read-repair are
      events of their own, so every interleaving with the reads that led to them is a run. */
  datatype Event = Event(op: Operation, at: Time)

  function Step(db: Db, e: Event): Db {
    match e.op
    case OpCreateSubscription(g, x, ent) => CreateSubscription(db, g, x, ent, e.at).db
    case OpApplyOperation(g, r) => ApplyOperation(db, g, r, e.at).db
    case OpPutEntitlement(g, ent) => PutEntitlement(db, g, ent).db
    case OpCreateToken(cfg, g, r, f) => CreateToken(db, cfg, g, r, f, e.at).db
    case OpRegenerate(cfg, g, p, f) => Regenerate(db, cfg, g, p, f, e.at).db
    case OpTransfer(cfg, g, p, o, pl, f) => Transfer(db, cfg, g, p, o, pl, f, e.at).db
    case OpRevoke(g, p) => Revoke(db, g, p, e.at).db
    case OpRevokeAll(g) => RevokeAll(db, g, e.at).db
    case OpReadRepair(i, a, b) => ReadRepair(db, i, a, b).db
    case OpValidate(cfg, g, p, s, pr, c) => Validate(db, cfg, g, p, s, pr, c, e.at).db
    case OpResolve(cfg, g, h, v, pr, n, f) => Resolve(db, cfg, g, h, v, pr, n, f, e.at).db
    case OpMarkActivated(g, p) => MarkActivated(db, g, p, e.at)
    case OpMarkFailed(cfg, g, p) => MarkFailed(db, cfg, g, p, e.at)
    case OpEnable(cfg, g, p) => Enable(db, cfg, g, p, e.at).db
  }

  function Run(db: Db, events: seq<Event>): Db
    decreases |events|
  {
    if |events| == 0 then db else Run(Step(db, events[0]), events[1..])
  }

  lemma RunCons(db: Db, e: Event, rest: seq<Event>)
    ensures Run(db, [e] + rest) == Run(Step(db, e), rest)
  {
    assert ([e] + rest)[1..] == rest;
  }

  lemma RunThree(db: Db, e0: Event, e1: Event, e2: Event, rest: seq<Event>)
    ensures Run(db, [e0, e1, e2] + rest) == Run(Step(Step(Step(db, e0), e1), e2), rest)
  {
    RunCons(db, e0, [e1, e2] + rest);
    RunCons(Step(db, e0), e1, [e2] + rest);
    RunCons(Step(Step(db, e0), e1), e2, rest);
    assert [e0, e1, e2] + rest == [e0] + ([e1, e2] + rest) && [e1, e2] + rest == [e1] + ([e2] + rest);
  }
}
