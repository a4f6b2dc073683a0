/** What the transactions tell their callers: the counts they report are those of the state they
    leave behind, and access is permitted exactly when it should be. */
module Reports {
  import opened Text
  import opened Canonical
  import opened DevicePolicy
  import opened DeviceTable
  import opened Registry
  import opened Lifecycle
  import opened Uniqueness
  import opened IdentityRows
  import opened Ownership

  /* ---------- counts ---------- */

  /** The same rows are active and pending. */
  predicate SameOccupancy(a: Device, b: Device) {
    b.sub == a.sub && b.revokedAt == a.revokedAt && b.activatedAt == a.activatedAt
    && b.pendingExpiresAt == a.pendingExpiresAt
  }

  lemma PutSameCounts(t: Table, i: nat, d: Device, sub: Guid, now: Time)
    requires i < |t| && SameOccupancy(t[i], d)
    ensures CountActive(t[i := d], sub) == CountActive(t, sub)
    ensures CountPending(t[i := d], sub, now) == CountPending(t, sub, now)
  {
    assert ActiveIds(t[i := d], sub) == ActiveIds(t, sub);
    assert PendingIds(t[i := d], sub, now) == PendingIds(t, sub, now);
  }

  /** One more reservation. */
  lemma AppendPending(t: Table, d: Device, sub: Guid, now: Time)
    requires IsPending(d, sub, now)
    ensures CountActive(t + [d], sub) == CountActive(t, sub)
    ensures CountPending(t + [d], sub, now) == CountPending(t, sub, now) + 1
  {
    assert ActiveIds(t + [d], sub) == ActiveIds(t, sub);
    assert PendingIds(t + [d], sub, now) == PendingIds(t, sub, now) + {|t|};
  }

  lemma ActivateCounts(t: Table, i: nat, d: Device, sub: Guid)
    requires i < |t| && IsActive(d, sub) && t[i].sub == sub
    ensures CountActive(t[i := d], sub) == CountActive(t, sub) + if IsActive(t[i], sub) then 0 else 1
  {
    var before, after := ActiveIds(t, sub), ActiveIds(t[i := d], sub);
    SameWithoutOne(before, after, i);
    WithoutOne(before, i);
    WithoutOne(after, i);
  }

  /** The counts in a result are those of a table, within or at the limit as the result says. */
  predicate Accurate(result: TokenResult, t: Table, sub: Guid, now: Time) {
    match result
    case TokenCreated(_, _, active, pending, max, _) =>
      active == CountActive(t, sub) && pending == CountPending(t, sub, now) && active + pending <= max
    case TokenExisting(_, _, active, pending, _, _) =>
      active == CountActive(t, sub) && pending == CountPending(t, sub, now)
    case TokenLimitReached(active, pending, max) =>
      active == CountActive(t, sub) && pending == CountPending(t, sub, now) && active + pending >= max
    case _ => true
  }

  lemma ReplayReports(
      t: Table, i: nat, name: Option<string>, platform: Option<Platform>, hash: string, cfg: Config,
      sub: Guid, max: int, now: Time)
    requires i < |t|
    ensures
      var (u, result) := ReplayIssuance(t, i, name, platform, hash, cfg, CountActive(t, sub),
                                        CountPending(t, sub, now), max);
      Accurate(result, u, sub, now)
  {
    PutSameCounts(t, i, t[i].(issuanceHash := Coalesce(t[i].issuanceHash, Some(hash))), sub, now);
  }

  lemma IssueNewReports(
      t: Table, cfg: Config, guid: Guid, max: int, r: TokenRequest, displayName: string, key: string,
      hash: string, draw: Draw, now: Time)
    requires cfg.pendingTtl > 0
    ensures
      var (u, result) := IssueNew(t, cfg, guid, max, r, displayName, key, hash, draw, now);
      Accurate(result, u, guid, now)
  {
    var platform := RequestedPlatform(r.platform);
    var legacy := FindLegacy(t, guid, displayName);
    if legacy.Some? {
      PutSameCounts(t, legacy.value, AdoptLegacy(t[legacy.value], key, hash, platform), guid, now);
    }
    AppendPending(t, IssuedLink(cfg, guid, draw, displayName, key, hash, platform, now), guid, now);
  }

  lemma IssueTokenReports(t: Table, cfg: Config, guid: Guid, max: int, r: TokenRequest, draw: Draw, now: Time)
    requires cfg.pendingTtl > 0
    ensures
      var (u, result) := IssueToken(t, cfg, guid, max, r, draw, now);
      Accurate(result, u, guid, now)
  {
    var active, pending := CountActive(t, guid), CountPending(t, guid, now);
    var displayName := r.displayName.GetOr(DefaultDisplayName(active + pending + 1));
    var key := EffectiveKey(cfg, r, displayName);
    var hash := IssuancePayload(guid, r.displayName, RequestedPlatform(r.platform));
    var existing := FindKey(t, guid, key);
    if existing.Some? {
      ReplayReports(t, existing.value, r.displayName, RequestedPlatform(r.platform), hash, cfg, guid, max, now);
    } else {
      IssueNewReports(t, cfg, guid, max, r, displayName, key, hash, draw, now);
    }
  }

  /** Whatever issuing reports is true of the state it leaves. */
  lemma CreateTokenReports(db: Db, cfg: Config, guid: Guid, r: TokenRequest, draw: Draw, now: Time)
    requires cfg.pendingTtl > 0
    ensures
      var outcome := CreateToken(db, cfg, guid, r, draw, now);
      Accurate(outcome.result, outcome.db.devices, guid, now)
  {
    if guid in db.entitlements {
      IssueTokenReports(ExpirePending(db.devices, guid, now), cfg, guid, db.entitlements[guid].max, r, draw, now);
    }
  }

  lemma RetireCounts(t: Table, i: nat, guid: Guid, reason: Reason, now: Time)
    requires i < |t| && t[i].sub == guid
    ensures
      var u := Retire(t, i, guid, reason, now);
      CountActive(u, guid) + CountPending(u, guid, now)
      == CountOccupied(t, guid, now) - if Live(t[i], now) then 1 else 0
  {
    var d := RevokeRow(ReleaseKey(t[i]), now, reason);
    PutCounts(t, i, d, guid, now);
    ExpiringKeepsOccupancy(t[i := d], guid, guid, now);
    ActiveAndPendingAreOccupied(Retire(t, i, guid, reason, now), guid, now);
  }

  /** A regeneration that creates reports the state it leaves.  One that reaches the limit reports
      what it had counted before it was undone: the row it would have replaced is missing. */
  lemma RegenerateReports(db: Db, cfg: Config, guid: Guid, publicId: string, draw: Draw, now: Time)
    requires cfg.pendingTtl > 0
    ensures
      var outcome := Regenerate(db, cfg, guid, publicId, draw, now);
      && (outcome.result.TokenCreated? ==> Accurate(outcome.result, outcome.db.devices, guid, now))
      && (outcome.result.TokenLimitReached? ==>
            && outcome.db == db
            && var i := FindDevice(db.devices, guid, publicId).value;
               outcome.result.active + outcome.result.pending
               == CountOccupied(db.devices, guid, now) - if Live(db.devices[i], now) then 1 else 0)
  {
    var found := FindDevice(db.devices, guid, publicId);
    if found.Some? {
      var i := found.value;
      RetireCounts(db.devices, i, guid, Regenerated, now);
      AppendPending(Retire(db.devices, i, guid, Regenerated, now),
                    RegeneratedLink(cfg, db.devices[i], i, draw, now), guid, now);
    }
  }

  lemma TransferRowReports(
      db: Db, cfg: Config, guid: Guid, max: int, i: nat, operationId: string, platform: Platform,
      fingerprint: string, draw: Draw, now: Time)
    requires cfg.pendingTtl > 0 && i < |db.devices| && db.devices[i].sub == guid
    ensures
      var outcome := TransferRow(db, cfg, guid, max, i, operationId, platform, fingerprint, draw, now);
      outcome.result.TokenCreated? ==> Accurate(outcome.result, outcome.db.devices, guid, now)
  {
    RetireCounts(db.devices, i, guid, Transferred, now);
    AppendPending(Retire(db.devices, i, guid, Transferred, now),
                  TransferredLink(cfg, db.devices[i], i, platform, draw, now), guid, now);
  }

  /** The occupancy that resolving and enabling report is that of the state they leave. */
  lemma FeedReports(
      db: Db, cfg: Config, guid: Guid, hasToken: bool, secretVerified: bool, p: Presented,
      displayName: string, draw: Draw, now: Time)
    requires cfg.reservationTtl > 0
    ensures
      var outcome := Resolve(db, cfg, guid, hasToken, secretVerified, p, displayName, draw, now);
      outcome.result.access.Permit? ==> outcome.result.access.active == CountOccupied(outcome.db.devices, guid, now)
  {
    var identity := Identify(p.header, p.keys);
    if identity.Identified? {
      var d := NewUnified(guid, draw, displayName, p, identity.current, now + cfg.reservationTtl);
      AppendPending(db.devices, d, guid, now);
      ActiveAndPendingAreOccupied(db.devices, guid, now);
      ActiveAndPendingAreOccupied(db.devices + [d], guid, now);
    }
  }

  lemma EnableReports(db: Db, cfg: Config, guid: Guid, publicId: string, now: Time)
    requires cfg.reservationTtl > 0
    ensures
      var outcome := Enable(db, cfg, guid, publicId, now);
      outcome.result.Enabled? ==>
        outcome.result.occupied == CountOccupied(outcome.db.devices, guid, now) <= outcome.result.max
  {
    var found := FeedRow(db, guid, publicId);
    if found.Some? {
      PutCounts(db.devices, found.value, Reenabled(db.devices[found.value], now + cfg.reservationTtl), guid, now);
    }
  }

  /* ---------- access ---------- */

  /** Everything an access has to satisfy. */
  predicate MayAccess(db: Db, cfg: Config, i: nat, token: Option<string>, p: Presented, now: Time)
    requires i < |db.devices|
  {
    var d := db.devices[i];
    && d.sub in db.subscriptions && d.sub in db.entitlements
    && token == Some(d.secretHash) && d.revokedAt.None?
    && db.entitlements[d.sub].status == ACTIVE && !PastValidity(db.entitlements[d.sub], now)
    && (d.activatedAt.Some? || (Live(d, now) && CountActive(db.devices, d.sub) < db.entitlements[d.sub].max))
    && Evaluate(cfg.bindingMode, d.policy, d.requestedPlatform, ContextOf(p)).allowed
  }

  /** The one way a permitted access can still fail: it would rewrite the hash of a feed row under the
      current key, and another row of the subscription has that hash already. */
  predicate RefreshClashes(db: Db, cfg: Config, i: nat, p: Presented)
    requires i < |db.devices|
  {
    var d := db.devices[i];
    var identity := Identify(p.header, p.keys);
    && d.channel.UnifiedFeed?
    && Evaluate(cfg.bindingMode, d.policy, d.requestedPlatform, ContextOf(p)).shouldRefresh
    && identity.Identified?
    && exists j :: 0 <= j < |db.devices| && j != i && IsUnified(db.devices[j], d.sub)
                   && db.devices[j].policy.boundIdentity == Some(identity.current)
  }

  /** Recording an access breaks an index exactly then. */
  lemma RecordingClashes(db: Db, cfg: Config, i: nat, p: Presented, replacement: Protected, now: Time)
    requires TableInvariant(db.devices) && UniqueIndexes(db.devices) && i < |db.devices|
    ensures
      var row := AccessRow(db.devices[i], cfg, p, replacement, now).0;
      UniqueIndexes(db.devices[i := row]) <==> !RefreshClashes(db, cfg, i, p)
  {
    var t, d := db.devices, db.devices[i];
    var row := AccessRow(d, cfg, p, replacement, now).0;
    var u := t[i := row];
    RowAfterAccess(d, cfg, p, replacement, now);
    assert RowInvariant(d);
    if RefreshClashes(db, cfg, i, p) {
      var j :| 0 <= j < |t| && j != i && IsUnified(t[j], d.sub)
               && t[j].policy.boundIdentity == Some(Identify(p.header, p.keys).current);
      assert IdentityClash(u[i], u[j]) && IdentityClash(u[j], u[i]);
      assert if i < j then Clash(u[i], u[j]) else Clash(u[j], u[i]);
    } else {
      forall a, b | 0 <= a < b < |u| ensures !Clash(u[a], u[b]) {
        assert !Clash(t[a], t[b]);
      }
    }
  }

  /** What an access can change of the indexed columns: the bound hash, by a first binding or a
      refresh, and of a feed row by a refresh only. */
  lemma RowAfterAccess(d: Device, cfg: Config, p: Presented, replacement: Protected, now: Time)
    requires RowInvariant(d)
    ensures
      var row := AccessRow(d, cfg, p, replacement, now).0;
      var identity := Identify(p.header, p.keys);
      && row.sub == d.sub && row.publicId == d.publicId && row.channel == d.channel
      && row.issuanceKey == d.issuanceKey
      && (d.channel.UnifiedFeed? ==>
            row.policy.boundIdentity
            == if Evaluate(cfg.bindingMode, d.policy, d.requestedPlatform, ContextOf(p)).shouldRefresh
                  && identity.Identified? then Some(identity.current) else d.policy.boundIdentity)
  {
    BindOrRefresh(cfg.bindingMode, d.policy, d.requestedPlatform, ContextOf(p));
    var decision := Evaluate(cfg.bindingMode, d.policy, d.requestedPlatform, ContextOf(p));
    var noted := NoteRisk(d.policy, decision, p.risky);
    if d.policy.boundIdentity.Some? {
      BoundRowKeepsHash(noted, d.requestedPlatform, ContextOf(p), decision);
    }
  }

  lemma BindOrRefresh(global: BindingMode, policy: FeedPolicy, requested: Option<string>, context: Context)
    ensures
      var decision := Evaluate(global, policy, requested, context);
      !(decision.shouldBind && decision.shouldRefresh)
  {
  }

  lemma BoundRowKeepsHash(policy: FeedPolicy, requested: Option<string>, context: Context, decision: Decision)
    requires policy.boundIdentity.Some? && !(decision.shouldBind && decision.shouldRefresh)
    ensures Rebind(policy, requested, context, decision).boundIdentity
         == if decision.shouldRefresh && context.identity.Identified? then Some(context.identity.current)
            else policy.boundIdentity
  {
  }

  /** An access is permitted if and only if it satisfies all of it and does not clash; the link is then
      active, and the count reported includes it. */
  lemma PermittedExactly(
      db: Db, cfg: Config, i: nat, token: Option<string>, p: Presented, replacement: Protected, now: Time)
    requires TableInvariant(db.devices) && UniqueIndexes(db.devices) && i < |db.devices|
    ensures
      var d := db.devices[i];
      var outcome := Validate(db, cfg, d.sub, d.publicId, token, p, replacement, now);
      && (outcome.result.Permit? <==> MayAccess(db, cfg, i, token, p, now) && !RefreshClashes(db, cfg, i, p))
      && (outcome.result.AccessViolation? <==> MayAccess(db, cfg, i, token, p, now) && RefreshClashes(db, cfg, i, p))
      && (outcome.result.Permit? ==>
            IsActive(outcome.db.devices[i], d.sub)
            && outcome.result.active == CountActive(outcome.db.devices, d.sub))
  {
    NamedRow(db.devices, i);
    RecordingClashes(db, cfg, i, p, replacement, now);
    RefreshAllowed(db.devices[i], cfg, p);
    var d := db.devices[i];
    var row := AccessRow(d, cfg, p, replacement, now).0;
    if d.revokedAt.None? && Evaluate(cfg.bindingMode, d.policy, d.requestedPlatform, ContextOf(p)).allowed {
      ActivateCounts(db.devices, i, row, d.sub);
    }
  }

  lemma RefreshAllowed(d: Device, cfg: Config, p: Presented)
    ensures
      var decision := Evaluate(cfg.bindingMode, d.policy, d.requestedPlatform, ContextOf(p));
      decision.shouldRefresh ==> decision.allowed
  {
  }

  /** For a personal link nothing can clash, and for a device of the feed nothing does while every HWID
      has one row. */
  lemma NothingClashes(db: Db, cfg: Config, i: nat, p: Presented)
    requires TableInvariant(db.devices) && i < |db.devices|
    requires db.devices[i].channel.DeviceLink? || OneRowPerHwid(db.devices)
    ensures !RefreshClashes(db, cfg, i, p)
  {
    if RefreshClashes(db, cfg, i, p) {
      var t, d := db.devices, db.devices[i];
      assert RowInvariant(d);
      RefreshMatches(d, cfg, p);
      var j :| 0 <= j < |t| && j != i && IsUnified(t[j], d.sub)
               && t[j].policy.boundIdentity == Some(Identify(p.header, p.keys).current);
      assert SameHwid(t[i], t[j]) && SameHwid(t[j], t[i]);
      assert false;
    }
  }

  lemma RefreshMatches(d: Device, cfg: Config, p: Presented)
    requires d.policy.boundIdentity.Some?
    requires Evaluate(cfg.bindingMode, d.policy, d.requestedPlatform, ContextOf(p)).shouldRefresh
    ensures p.header == Hwid(d.policy.boundIdentity.value.hwid)
    ensures Identify(p.header, p.keys).Identified?
            && Identify(p.header, p.keys).current.hwid == d.policy.boundIdentity.value.hwid
  {
    MatchMeansSameHwid(p.header, p.keys, d.policy.boundIdentity.value);
  }

  /** So for a personal link the condition is the plain one. */
  lemma LinkPermittedExactly(
      db: Db, cfg: Config, i: nat, token: Option<string>, p: Presented, replacement: Protected, now: Time)
    requires TableInvariant(db.devices) && UniqueIndexes(db.devices)
    requires i < |db.devices| && db.devices[i].channel.DeviceLink?
    ensures
      var result := Validate(db, cfg, db.devices[i].sub, db.devices[i].publicId, token, p, replacement, now).result;
      !result.AccessViolation? && (result.Permit? <==> MayAccess(db, cfg, i, token, p, now))
  {
    PermittedExactly(db, cfg, i, token, p, replacement, now);
    NothingClashes(db, cfg, i, p);
  }

  /** After a reset no device of the subscription takes a slot, at any time. */
  lemma ResetFreesEverySlot(db: Db, guid: Guid, now: Time, later: Time)
    requires guid in db.subscriptions
    ensures CountOccupied(RevokeAll(db, guid, now).db.devices, guid, later) == 0
  {
    assert OccupiedIds(RevokeAll(db, guid, now).db.devices, guid, later) == {};
  }
}
