/** What an access to a link must do: whom it admits, whom it binds the link to, and what it leaves of
    the row. */
module LinkAccess {
  import opened Text
  import opened Canonical
  import opened DevicePolicy
  import opened DeviceTable
  import opened Registry
  import opened Lifecycle
  import opened Uniqueness
  import opened Ownership
  import opened Reports
  import opened FeedAdmission

  /* ---------- the policy ---------- */

  predicate Contradicts(expected: Option<string>, platform: Option<string>) {
    expected.Some? && platform.Some? && expected.value != platform.value
  }

  predicate BoundToPlatform(policy: FeedPolicy) {
    (policy.binding.Bound? || policy.binding.Review?) && policy.boundPlatform.Some?
  }

  /** A configured key reproduces the stored hash from the header. */
  predicate Reproduces(header: HwidHeader, keys: IdentityKeys, bound: IdentityHash) {
    header == Hwid(bound.hwid) && keys.current.Some?
    && (bound.key == keys.current.value || keys.previous == Some(bound.key))
  }

  /** Whom a link admits under full enforcement, version by version. */
  predicate Admits(policy: FeedPolicy, requested: Option<string>, p: Presented) {
    if policy.version == 1 then
      !Contradicts(if BoundToPlatform(policy) then policy.boundPlatform else requested, p.platform)
    else if policy.version == 2 then
      if policy.boundIdentity.Some? then
        Reproduces(p.header, p.keys, policy.boundIdentity.value)
        && !Contradicts(if policy.boundPlatform.Some? then policy.boundPlatform else requested, p.platform)
      else p.header.Hwid? && p.keys.current.Some? && !Contradicts(requested, p.platform)
    else false
  }

  /** An access passes the policy if and only if enforcement is off somewhere or the link admits it. */
  lemma PassesExactly(global: BindingMode, policy: FeedPolicy, requested: Option<string>, p: Presented)
    ensures Evaluate(global, policy, requested, ContextOf(p)).allowed
        <==> (global.BindingEnforce? && policy.mode.Enforce? ==> Admits(policy, requested, p))
  {
  }

  /** The binding is evaluated at all. */
  predicate Watched(global: BindingMode, policy: FeedPolicy) {
    !global.BindingOff? && !policy.mode.Legacy?
  }

  /** The hash a link has stored after an access: the first HWID that does not contradict the requested
      platform binds a version-2 link, and a hash under the previous key is renewed. */
  function HashAfter(global: BindingMode, policy: FeedPolicy, requested: Option<string>, p: Presented)
    : Option<IdentityHash>
  {
    if !Watched(global, policy) || policy.version != 2 || !p.header.Hwid? || p.keys.current.None? then
      policy.boundIdentity
    else if policy.boundIdentity.None? then
      if Contradicts(requested, p.platform) then None
      else Some(IdentityHash(p.keys.current.value, p.header.value))
    else if Reproduces(p.header, p.keys, policy.boundIdentity.value)
            && !Contradicts(if policy.boundPlatform.Some? then policy.boundPlatform else requested, p.platform) then
      Some(IdentityHash(p.keys.current.value, p.header.value))
    else policy.boundIdentity
  }

  /** A version-1 link is bound to the first platform seen that is not another than the requested one. */
  predicate BindsPlatform(global: BindingMode, policy: FeedPolicy, requested: Option<string>, p: Presented) {
    Watched(global, policy) && policy.version == 1 && p.platform.Some? && !BoundToPlatform(policy)
    && !Contradicts(requested, p.platform)
  }

  predicate BindsHwid(global: BindingMode, policy: FeedPolicy, requested: Option<string>, p: Presented) {
    policy.boundIdentity.None? && HashAfter(global, policy, requested, p).Some?
  }

  function PlatformAfter(global: BindingMode, policy: FeedPolicy, requested: Option<string>, p: Presented)
    : Option<string>
  {
    if BindsPlatform(global, policy, requested, p) then p.platform
    else if BindsHwid(global, policy, requested, p) then
      if p.platform.Some? then p.platform else if requested.Some? then requested else policy.boundPlatform
    else policy.boundPlatform
  }

  function BindingAfter(global: BindingMode, policy: FeedPolicy, requested: Option<string>, p: Presented)
    : BindingState
  {
    if BindsPlatform(global, policy, requested, p) || BindsHwid(global, policy, requested, p) then Bound
    else if p.risky && Watched(global, policy) then Review
    else policy.binding
  }

  predicate PolicyLeft(global: BindingMode, policy: FeedPolicy, requested: Option<string>, p: Presented) {
    var decision := Evaluate(global, policy, requested, ContextOf(p));
    Rebind(NoteRisk(policy, decision, p.risky), requested, ContextOf(p), decision)
    == FeedPolicy(policy.version, policy.mode, BindingAfter(global, policy, requested, p),
                  PlatformAfter(global, policy, requested, p), HashAfter(global, policy, requested, p))
  }

  lemma PlatformPolicyLeft(global: BindingMode, policy: FeedPolicy, requested: Option<string>, p: Presented)
    requires Watched(global, policy) && policy.version == 1
    ensures PolicyLeft(global, policy, requested, p)
  {
  }

  lemma IdentityPolicyLeft(global: BindingMode, policy: FeedPolicy, requested: Option<string>, p: Presented)
    requires Watched(global, policy) && policy.version == 2
    ensures PolicyLeft(global, policy, requested, p)
  {
  }

  lemma PolicyAfterAccess(global: BindingMode, policy: FeedPolicy, requested: Option<string>, p: Presented)
    ensures PolicyLeft(global, policy, requested, p)
  {
    if Watched(global, policy) && policy.version == 1 {
      PlatformPolicyLeft(global, policy, requested, p);
    } else if Watched(global, policy) && policy.version == 2 {
      IdentityPolicyLeft(global, policy, requested, p);
    }
  }

  /* ---------- one access ---------- */

  /** Everything an access has to satisfy. */
  predicate Qualifies(db: Db, cfg: Config, i: nat, token: Option<string>, p: Presented, now: Time)
    requires i < |db.devices|
  {
    var d := db.devices[i];
    && Entitled(db, d.sub, now) && token == Some(d.secretHash) && d.revokedAt.None?
    && (d.activatedAt.Some?
        || ((d.pendingExpiresAt.None? || now < d.pendingExpiresAt.value)
            && CountActive(db.devices, d.sub) < db.entitlements[d.sub].max))
    && (cfg.bindingMode.BindingEnforce? && d.policy.mode.Enforce? ==> Admits(d.policy, d.requestedPlatform, p))
  }

  lemma QualifiesExactly(db: Db, cfg: Config, i: nat, token: Option<string>, p: Presented, now: Time)
    requires i < |db.devices|
    ensures Qualifies(db, cfg, i, token, p, now) <==> MayAccess(db, cfg, i, token, p, now)
  {
    PassesExactly(cfg.bindingMode, db.devices[i].policy, db.devices[i].requestedPlatform, p);
  }

  /** The row after a permitted access. */
  predicate Accessed(d: Device, row: Device, global: BindingMode, p: Presented, replacement: Protected, now: Time) {
    && row == d.(activatedAt := row.activatedAt, credential := row.credential, policy := row.policy)
    && row.activatedAt == (if d.activatedAt.Some? then d.activatedAt else Some(now))
    && (if d.credential.Complete() then row.credential == d.credential else row.credential == Columns(replacement))
    && row.policy == d.policy.(binding := BindingAfter(global, d.policy, d.requestedPlatform, p),
                               boundPlatform := PlatformAfter(global, d.policy, d.requestedPlatform, p),
                               boundIdentity := HashAfter(global, d.policy, d.requestedPlatform, p))
  }

  /** A personal link is entered if and only if the access qualifies, and what it leaves: the row active
      from the first time on, bound as above and with a stored credential, and nothing else changed. */
  lemma OpenedExactly(
      db: Db, cfg: Config, i: nat, token: Option<string>, p: Presented, replacement: Protected, now: Time)
    requires TableInvariant(db.devices) && UniqueIndexes(db.devices)
    requires i < |db.devices| && db.devices[i].channel.DeviceLink?
    ensures
      var d := db.devices[i];
      var outcome := Validate(db, cfg, d.sub, d.publicId, token, p, replacement, now);
      && (outcome.result.Permit? <==> Qualifies(db, cfg, i, token, p, now))
      && (outcome.result.Permit? ==>
            && |outcome.db.devices| == |db.devices|
            && outcome.db == db.(devices := db.devices[i := outcome.db.devices[i]])
            && Accessed(d, outcome.db.devices[i], cfg.bindingMode, p, replacement, now)
            && outcome.result == Permit(CountActive(outcome.db.devices, d.sub), db.entitlements[d.sub].max,
                                        db.entitlements[d.sub].validUntil))
  {
    NamedRow(db.devices, i);
    QualifiesExactly(db, cfg, i, token, p, now);
    LinkPermittedExactly(db, cfg, i, token, p, replacement, now);
    PermittedExactly(db, cfg, i, token, p, replacement, now);
    PolicyAfterAccess(cfg.bindingMode, db.devices[i].policy, db.devices[i].requestedPlatform, p);
  }

  lemma RefusedPolicy(global: BindingMode, policy: FeedPolicy, requested: Option<string>, p: Presented)
    ensures
      var decision := Evaluate(global, policy, requested, ContextOf(p));
      !decision.allowed ==>
        Rebind(NoteRisk(policy, decision, p.risky), requested, ContextOf(p), decision)
        == policy.(binding := if p.risky then Review else policy.binding)
  {
  }

  /** The row after an access that only the policy refuses: neither activated nor bound, but with a stored
      credential and perhaps a review. */
  predicate TurnedAway(d: Device, row: Device, p: Presented, replacement: Protected) {
    && row == d.(credential := row.credential, policy := d.policy.(binding := row.policy.binding))
    && row.policy.binding == (if p.risky then Review else d.policy.binding)
    && row.credential == (if d.credential.Complete() then d.credential else Columns(replacement))
  }

  lemma AccessRowLeft(d: Device, cfg: Config, p: Presented, replacement: Protected, now: Time)
    ensures
      var (row, decision) := AccessRow(d, cfg, p, replacement, now);
      && (decision.allowed ==> Accessed(d, row, cfg.bindingMode, p, replacement, now))
      && (!decision.allowed ==>
            TurnedAway(d, row, p, replacement)
            && (DeniedStatus(decision.reason).DeviceIdentityRequired?
                || DeniedStatus(decision.reason).DeviceTransferRequired?))
  {
    PolicyAfterAccess(cfg.bindingMode, d.policy, d.requestedPlatform, p);
    RefusedPolicy(cfg.bindingMode, d.policy, d.requestedPlatform, p);
  }

  /** An access touches no other row and nothing else. */
  lemma AccessTouches(
      db: Db, cfg: Config, i: nat, token: Option<string>, p: Presented, replacement: Protected, now: Time)
    requires UniqueIndexes(db.devices) && i < |db.devices|
    ensures
      var after := Validate(db, cfg, db.devices[i].sub, db.devices[i].publicId, token, p, replacement, now).db;
      |after.devices| == |db.devices| && after == db.(devices := db.devices[i := after.devices[i]])
  {
    NamedRow(db.devices, i);
    assert db.devices[i := db.devices[i]] == db.devices;
  }

  predicate Left(
      d: Device, row: Device, access: Access, cfg: Config, p: Presented, replacement: Protected, now: Time)
  {
    match access
    case Permit(_, _, _) => Accessed(d, row, cfg.bindingMode, p, replacement, now)
    case AccessViolation => row == d
    case Forbid(status, _, _, _) =>
      if status.DeviceIdentityRequired? || status.DeviceTransferRequired? then TurnedAway(d, row, p, replacement)
      else status.DeviceTokenExpired? || row == d
  }

  /** Where the row left behind comes from. */
  predicate RowFrom(
      d: Device, row: Device, access: Access, cfg: Config, p: Presented, replacement: Protected, now: Time)
  {
    var (accessed, decision) := AccessRow(d, cfg, p, replacement, now);
    match access
    case Permit(_, _, _) => decision.allowed && row == accessed
    case AccessViolation => row == d
    case Forbid(status, _, _, _) =>
      || status.DeviceTokenExpired?
      || (!decision.allowed && row == accessed && status == DeniedStatus(decision.reason))
      || (row == d && !status.DeviceIdentityRequired? && !status.DeviceTransferRequired?)
  }

  lemma ValidatedRow(
      db: Db, cfg: Config, i: nat, token: Option<string>, p: Presented, replacement: Protected, now: Time)
    requires UniqueIndexes(db.devices) && i < |db.devices|
    ensures
      var outcome := Validate(db, cfg, db.devices[i].sub, db.devices[i].publicId, token, p, replacement, now);
      i < |outcome.db.devices|
      && RowFrom(db.devices[i], outcome.db.devices[i], outcome.result, cfg, p, replacement, now)
  {
    NamedRow(db.devices, i);
  }

  lemma RowFromLeft(
      d: Device, row: Device, access: Access, cfg: Config, p: Presented, replacement: Protected, now: Time)
    requires RowFrom(d, row, access, cfg, p, replacement, now)
    ensures Left(d, row, access, cfg, p, replacement, now)
  {
    AccessRowLeft(d, cfg, p, replacement, now);
  }

  /** What an access leaves, of a device of either channel: a permitted one and one that the policy
      refuses as above, and any other nothing, unless it finds the deadline passed. */
  lemma AccessLeaves(
      db: Db, cfg: Config, i: nat, token: Option<string>, p: Presented, replacement: Protected, now: Time)
    requires UniqueIndexes(db.devices) && i < |db.devices|
    ensures
      var outcome := Validate(db, cfg, db.devices[i].sub, db.devices[i].publicId, token, p, replacement, now);
      i < |outcome.db.devices|
      && Left(db.devices[i], outcome.db.devices[i], outcome.result, cfg, p, replacement, now)
  {
    var outcome := Validate(db, cfg, db.devices[i].sub, db.devices[i].publicId, token, p, replacement, now);
    ValidatedRow(db, cfg, i, token, p, replacement, now);
    RowFromLeft(db.devices[i], outcome.db.devices[i], outcome.result, cfg, p, replacement, now);
  }

  /** A link whose deadline has passed unused is revoked by the access that finds it so. */
  lemma LateAccessExpires(
      db: Db, cfg: Config, i: nat, p: Presented, replacement: Protected, now: Time)
    requires UniqueIndexes(db.devices) && i < |db.devices|
    requires db.devices[i].sub in db.subscriptions && db.devices[i].sub in db.entitlements
    requires db.devices[i].revokedAt.None? && db.devices[i].activatedAt.None?
    requires db.devices[i].pendingExpiresAt.Some? && db.devices[i].pendingExpiresAt.value <= now
    ensures
      var d := db.devices[i];
      var outcome := Validate(db, cfg, d.sub, d.publicId, Some(d.secretHash), p, replacement, now);
      && outcome.result.Forbid? && outcome.result.status.DeviceTokenExpired?
      && |outcome.db.devices| == |db.devices|
      && outcome.db == db.(devices := db.devices[i := outcome.db.devices[i]])
      && outcome.db.devices[i] == d.(revokedAt := Some(now), revocationReason := outcome.db.devices[i].revocationReason,
                                     credential := outcome.db.devices[i].credential)
      && (d.revocationReason.None? ==> outcome.db.devices[i].revocationReason == Some(ExpiredPending))
      && outcome.db.devices[i].credential.Erased()
  {
    NamedRow(db.devices, i);
  }

  /** What a refusal says is true. */
  lemma AccessRefusals(
      db: Db, cfg: Config, guid: Guid, publicId: string, token: Option<string>, p: Presented,
      replacement: Protected, now: Time)
    ensures
      var access := Validate(db, cfg, guid, publicId, token, p, replacement, now).result;
      var found := FindDevice(db.devices, guid, publicId);
      access.Forbid? ==>
        if found.None? || guid !in db.subscriptions || guid !in db.entitlements then access.status.DeviceTokenInvalid?
        else
          var d, e := db.devices[found.value], db.entitlements[guid];
          match access.status
          case DeviceTokenInvalid => token != Some(d.secretHash)
          case DeviceTokenRevoked => d.revokedAt.Some?
          case DeviceTokenExpired =>
            d.activatedAt.None? && d.pendingExpiresAt.Some? && d.pendingExpiresAt.value <= now
          case SubscriptionExpired =>
            e.status == "expired" || (e.validUntil.Some? && e.validUntil.value <= now)
          case SubscriptionDisabled => e.status != "active" && e.status != "expired"
          case DeviceLimitReached => d.activatedAt.None? && CountActive(db.devices, guid) >= e.max
          case DeviceIdentityRequired =>
            !Admits(d.policy, d.requestedPlatform, p) && d.policy.version == 2
            && (!p.header.Hwid? || p.keys.current.None?)
          case DeviceTransferRequired =>
            !Admits(d.policy, d.requestedPlatform, p)
            && (d.policy.version == 2 ==> p.header.Hwid? && p.keys.current.Some?)
          case _ => false
  {
    var found := FindDevice(db.devices, guid, publicId);
    if found.Some? {
      RefusalNames(cfg.bindingMode, db.devices[found.value].policy, db.devices[found.value].requestedPlatform, p);
    }
  }

  lemma RefusalNames(global: BindingMode, policy: FeedPolicy, requested: Option<string>, p: Presented)
    ensures
      var decision := Evaluate(global, policy, requested, ContextOf(p));
      !decision.allowed ==>
        && !Admits(policy, requested, p)
        && (DeniedStatus(decision.reason).DeviceIdentityRequired?
            <==> policy.version == 2 && (!p.header.Hwid? || p.keys.current.None?))
        && (DeniedStatus(decision.reason).DeviceTransferRequired?
            || DeniedStatus(decision.reason).DeviceIdentityRequired?)
  {
    assert "identity_mismatch"[9] == 'm' && "identity_platform_conflict"[9] == 'p';
  }

  /* ---------- the first access ---------- */

  predicate Unbound(d: Device) {
    d.channel.DeviceLink? && d.policy.version == 2 && d.policy.mode.Enforce? && d.policy.boundIdentity.None?
  }

  /** The first access that enforcement permits makes its HWID the owner: after it no run lets an access
      with another HWID, or with none, be permitted under enforcement. */
  lemma FirstAccessOwns(
      db: Db, cfg: Config, i: nat, token: Option<string>, p: Presented, replacement: Protected, now: Time,
      events: seq<Event>, cfg': Config, token': Option<string>, p': Presented, replacement': Protected, later: Time)
    requires TableInvariant(db.devices) && UniqueIndexes(db.devices)
    requires i < |db.devices| && Unbound(db.devices[i])
    requires cfg.bindingMode.BindingEnforce? && cfg'.bindingMode.BindingEnforce?
    requires Validate(db, cfg, db.devices[i].sub, db.devices[i].publicId, token, p, replacement, now).result.Permit?
    ensures
      var d := db.devices[i];
      var entered := Validate(db, cfg, d.sub, d.publicId, token, p, replacement, now).db;
      && p.header.Hwid? && p.keys.current.Some?
      && entered.devices[i].policy.boundIdentity == Some(IdentityHash(p.keys.current.value, p.header.value))
      && entered.devices[i].policy.binding.Bound?
      && (Validate(Run(entered, events), cfg', d.sub, d.publicId, token', p', replacement', later).result.Permit? ==>
            p'.header == p.header)
  {
    var d := db.devices[i];
    var entered := Validate(db, cfg, d.sub, d.publicId, token, p, replacement, now).db;
    OpenedExactly(db, cfg, i, token, p, replacement, now);
    ValidateGood(db, cfg, d.sub, d.publicId, token, p, replacement, now);
    ValidateUnique(db, cfg, d.sub, d.publicId, token, p, replacement, now);
    EnforcedAccessIsOwners(entered, events, i, cfg', token', p', replacement', later);
  }

  /** So does the first platform with a version-1 link. */
  lemma FirstPlatformOwns(
      db: Db, cfg: Config, i: nat, token: Option<string>, p: Presented, replacement: Protected, now: Time,
      events: seq<Event>, cfg': Config, token': Option<string>, p': Presented, replacement': Protected, later: Time)
    requires TableInvariant(db.devices) && UniqueIndexes(db.devices)
    requires i < |db.devices| && db.devices[i].channel.DeviceLink? && db.devices[i].policy.version == 1
    requires db.devices[i].policy.mode.Enforce? && !BoundToPlatform(db.devices[i].policy) && p.platform.Some?
    requires cfg.bindingMode.BindingEnforce? && cfg'.bindingMode.BindingEnforce?
    requires Validate(db, cfg, db.devices[i].sub, db.devices[i].publicId, token, p, replacement, now).result.Permit?
    ensures
      var d := db.devices[i];
      var entered := Validate(db, cfg, d.sub, d.publicId, token, p, replacement, now).db;
      && entered.devices[i].policy.boundPlatform == p.platform && entered.devices[i].policy.binding.Bound?
      && (Validate(Run(entered, events), cfg', d.sub, d.publicId, token', p', replacement', later).result.Permit? ==>
            p'.platform.None? || p'.platform == p.platform)
  {
    var d := db.devices[i];
    var entered := Validate(db, cfg, d.sub, d.publicId, token, p, replacement, now).db;
    OpenedExactly(db, cfg, i, token, p, replacement, now);
    ValidateGood(db, cfg, d.sub, d.publicId, token, p, replacement, now);
    ValidateUnique(db, cfg, d.sub, d.publicId, token, p, replacement, now);
    BoundPlatformAdmits(entered, events, i, cfg', token', p', replacement', later);
  }

  lemma BoundPlatformAdmits(
      db: Db, events: seq<Event>, i: nat, cfg: Config, token: Option<string>, p: Presented,
      replacement: Protected, now: Time)
    requires TableInvariant(db.devices) && UniqueIndexes(db.devices) && i < |db.devices|
    requires PlatformBound(db.devices[i]) && db.devices[i].policy.mode.Enforce? && cfg.bindingMode.BindingEnforce?
    ensures
      var d := db.devices[i];
      Validate(Run(db, events), cfg, d.sub, d.publicId, token, p, replacement, now).result.Permit? ==>
        p.platform.None? || p.platform == d.policy.boundPlatform
  {
    var later := Run(db, events);
    RunGood(db, events);
    RunUnique(db, events);
    assert Evolves(db.devices[i], later.devices[i]);
    PermittedPassesPolicy(later, cfg, i, token, p, replacement, now);
    PassesExactly(cfg.bindingMode, later.devices[i].policy, later.devices[i].requestedPlatform, p);
  }
}
