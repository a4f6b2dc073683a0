/** The entitlement of a subscription and the log of operations that changed it stay coherent,
    with unlogged updates interleaved freely. */
module EntitlementLog {
  import opened Text
  import opened Canonical
  import opened DeviceTable
  import opened Registry

  /** A logged operation agrees with the entitlement: its version has been reached, and where it
      is the latest version it is the entitlement. */
  predicate Mirrors(entry: LogEntry, entitlements: map<Guid, Entitlement>) {
    entry.sub in entitlements
    && entry.result.version <= entitlements[entry.sub].version
    && (entry.result.version == entitlements[entry.sub].version ==> entry.result == entitlements[entry.sub])
  }

  /** A log entry carries the fingerprint of the very operation it records. */
  predicate Recorded(entry: LogEntry) {
    IsEntitlementStatus(entry.result.status)
    && entry.fingerprint == EntitlementPayload(entry.sub, entry.kind, entry.expectedVersion, entry.result.status,
                                               entry.result.validUntil, entry.result.max)
  }

  predicate DistinctVersions(a: LogEntry, b: LogEntry) {
    a.sub == b.sub ==> a.result.version != b.result.version
  }

  ghost predicate AllMirror(log: map<string, LogEntry>, entitlements: map<Guid, Entitlement>) {
    forall id :: id in log ==> Mirrors(log[id], entitlements)
  }

  ghost predicate AllRecorded(log: map<string, LogEntry>) {
    forall id :: id in log ==> Recorded(log[id])
  }

  ghost predicate AllDistinct(log: map<string, LogEntry>) {
    forall id, other :: id in log && other in log && id != other ==> DistinctVersions(log[id], log[other])
  }

  ghost predicate LogInvariant(db: Db) {
    db.entitlements.Keys <= db.subscriptions
    && AllMirror(db.log, db.entitlements) && AllRecorded(db.log) && AllDistinct(db.log)
  }

  /** A new version, or nothing new at all. */
  predicate Advances(a: Entitlement, b: Entitlement) {
    b.version > a.version || b == a
  }

  ghost predicate AllAdvance(a: map<Guid, Entitlement>, b: map<Guid, Entitlement>) {
    forall sub :: sub in a ==> sub in b && Advances(a[sub], b[sub])
  }

  ghost predicate AllKept(a: map<string, LogEntry>, b: map<string, LogEntry>) {
    forall id :: id in a ==> id in b && b[id] == a[id]
  }

  ghost predicate LogGrows(db: Db, after: Db) {
    AllAdvance(db.entitlements, after.entitlements) && AllKept(db.log, after.log)
  }

  ghost predicate LogStep(db: Db, after: Db) {
    LogInvariant(after) && LogGrows(db, after)
  }

  lemma LogGrowsTransitive(a: Db, b: Db, c: Db)
    requires LogGrows(a, b) && LogGrows(b, c)
    ensures LogGrows(a, c)
  {
  }

  predicate SameEntitlements(db: Db, after: Db) {
    after.subscriptions == db.subscriptions && after.entitlements == db.entitlements && after.log == db.log
  }

  lemma MirrorsNewer(entry: LogEntry, entitlements: map<Guid, Entitlement>, guid: Guid, e: Entitlement)
    requires Mirrors(entry, entitlements)
    requires guid in entitlements ==> e.version > entitlements[guid].version
    ensures Mirrors(entry, entitlements[guid := e])
    ensures entry.sub == guid ==> entry.result.version != e.version
  {
  }

  lemma AllMirrorNewer(log: map<string, LogEntry>, entitlements: map<Guid, Entitlement>, guid: Guid, e: Entitlement)
    requires AllMirror(log, entitlements)
    requires guid in entitlements ==> e.version > entitlements[guid].version
    ensures AllMirror(log, entitlements[guid := e]) && AllAdvance(entitlements, entitlements[guid := e])
    ensures forall id :: id in log && log[id].sub == guid ==> log[id].result.version != e.version
  {
    forall id | id in log
      ensures Mirrors(log[id], entitlements[guid := e])
      ensures log[id].sub == guid ==> log[id].result.version != e.version
    {
      MirrorsNewer(log[id], entitlements, guid, e);
    }
  }

  lemma AppendEntry(log: map<string, LogEntry>, entitlements: map<Guid, Entitlement>, id: string, entry: LogEntry)
    requires AllMirror(log, entitlements) && AllRecorded(log) && AllDistinct(log)
    requires id !in log && Mirrors(entry, entitlements) && Recorded(entry)
    requires forall other :: other in log && log[other].sub == entry.sub ==>
               log[other].result.version != entry.result.version
    ensures AllMirror(log[id := entry], entitlements) && AllRecorded(log[id := entry])
    ensures AllDistinct(log[id := entry]) && AllKept(log, log[id := entry])
  {
  }

  lemma Unchanged(db: Db)
    requires LogInvariant(db)
    ensures LogStep(db, db)
  {
  }

  /** A newer entitlement, not logged. */
  lemma NewerEntitlement(db: Db, guid: Guid, e: Entitlement)
    requires LogInvariant(db) && guid in db.subscriptions
    requires guid in db.entitlements ==> e.version > db.entitlements[guid].version
    ensures LogStep(db, db.(entitlements := db.entitlements[guid := e]))
  {
    AllMirrorNewer(db.log, db.entitlements, guid, e);
    Unchanged(db);
  }

  /** A newer entitlement together with the log entry that records it. */
  lemma NewerLoggedEntitlement(db: Db, guid: Guid, e: Entitlement, id: string, entry: LogEntry)
    requires LogInvariant(db) && guid in db.subscriptions && id !in db.log
    requires guid in db.entitlements ==> e.version > db.entitlements[guid].version
    requires entry.sub == guid && entry.result == e && Recorded(entry)
    ensures LogStep(db, db.(entitlements := db.entitlements[guid := e], log := db.log[id := entry]))
  {
    AllMirrorNewer(db.log, db.entitlements, guid, e);
    AppendEntry(db.log, db.entitlements[guid := e], id, entry);
  }

  lemma CreateSubscriptionLogs(db: Db, guid: Guid, externalId: Option<string>, e: Entitlement, now: Time)
    requires LogInvariant(db)
    ensures LogStep(db, CreateSubscription(db, guid, externalId, e, now).db)
  {
    var outcome := CreateSubscription(db, guid, externalId, e, now);
    if outcome.result.SubscriptionCreated? {
      var named := db.(subscriptions := outcome.db.subscriptions, externalIds := outcome.db.externalIds);
      NewerLoggedEntitlement(named, guid, e, CreationOperationId(guid), CreationEntry(guid, e, now));
    } else {
      Unchanged(db);
    }
  }

  lemma PutEntitlementLogs(db: Db, guid: Guid, e: Entitlement)
    requires LogInvariant(db)
    ensures LogStep(db, PutEntitlement(db, guid, e).db)
  {
    if PutEntitlement(db, guid, e).result.PutApplied? {
      NewerEntitlement(db, guid, e);
    } else {
      Unchanged(db);
    }
  }

  /** The next version is always free, so the unique index on result versions never stops an
      operation. */
  lemma NextVersionIsFree(db: Db, guid: Guid)
    requires LogInvariant(db) && guid in db.entitlements
    ensures !ResultVersionTaken(db.log, guid, db.entitlements[guid].version + 1)
  {
    forall id | id in db.log && db.log[id].sub == guid
      ensures db.log[id].result.version != db.entitlements[guid].version + 1
    {
      assert Mirrors(db.log[id], db.entitlements);
    }
  }

  lemma OperationViolationUnreachable(db: Db, guid: Guid, r: OperationRequest, now: Time)
    requires LogInvariant(db)
    ensures !ApplyOperation(db, guid, r, now).result.OperationViolation?
  {
    if guid in db.entitlements {
      NextVersionIsFree(db, guid);
    }
  }

  lemma ApplyOperationLogs(db: Db, guid: Guid, r: OperationRequest, now: Time)
    requires LogInvariant(db)
    ensures LogStep(db, ApplyOperation(db, guid, r, now).db)
  {
    var outcome := ApplyOperation(db, guid, r, now);
    if outcome.result.OperationApplied? {
      NewerLoggedEntitlement(db, guid, outcome.result.entry.result, r.operationId, outcome.result.entry);
    } else {
      Unchanged(db);
    }
  }

  /* ---------- transactions that leave entitlements alone ---------- */

  lemma ActivationLeavesEntitlements(db: Db, guid: Guid, publicId: string, now: Time)
    ensures SameEntitlements(db, MarkActivated(db, guid, publicId, now))
  {
  }

  lemma ValidateLeavesEntitlements(
      db: Db, cfg: Config, guid: Guid, publicId: string, token: Option<string>, p: Presented,
      replacement: Protected, now: Time)
    ensures SameEntitlements(db, Validate(db, cfg, guid, publicId, token, p, replacement, now).db)
  {
  }

  lemma LinksLeaveEntitlements(db: Db, e: Event)
    requires e.op.OpCreateToken? || e.op.OpRegenerate? || e.op.OpTransfer?
    ensures SameEntitlements(db, Step(db, e))
  {
  }

  lemma AccessLeavesEntitlements(db: Db, e: Event)
    requires e.op.OpValidate? || e.op.OpResolve?
    ensures SameEntitlements(db, Step(db, e))
  {
    match e.op
    case OpValidate(cfg, g, p, s, pr, c) => ValidateLeavesEntitlements(db, cfg, g, p, s, pr, c, e.at);
    case _ =>
  }

  lemma ReservationsLeaveEntitlements(db: Db, e: Event)
    requires e.op.OpMarkFailed? || e.op.OpEnable?
    ensures SameEntitlements(db, Step(db, e))
  {
  }

  lemma RevocationsLeaveEntitlements(db: Db, e: Event)
    requires e.op.OpRevoke? || e.op.OpRevokeAll? || e.op.OpReadRepair?
    ensures SameEntitlements(db, Step(db, e))
  {
  }

  lemma StepLogs(db: Db, e: Event)
    requires LogInvariant(db)
    ensures LogStep(db, Step(db, e))
  {
    match e.op
    case OpCreateSubscription(g, x, ent) => CreateSubscriptionLogs(db, g, x, ent, e.at);
    case OpApplyOperation(g, r) => ApplyOperationLogs(db, g, r, e.at);
    case OpPutEntitlement(g, ent) => PutEntitlementLogs(db, g, ent);
    case OpCreateToken(_, _, _, _) => LinksLeaveEntitlements(db, e);
    case OpRegenerate(_, _, _, _) => LinksLeaveEntitlements(db, e);
    case OpTransfer(_, _, _, _, _, _) => LinksLeaveEntitlements(db, e);
    case OpValidate(_, _, _, _, _, _) => AccessLeavesEntitlements(db, e);
    case OpResolve(_, _, _, _, _, _, _) => AccessLeavesEntitlements(db, e);
    case OpMarkActivated(g, p) => ActivationLeavesEntitlements(db, g, p, e.at);
    case OpMarkFailed(_, _, _) => ReservationsLeaveEntitlements(db, e);
    case OpEnable(_, _, _) => ReservationsLeaveEntitlements(db, e);
    case _ => RevocationsLeaveEntitlements(db, e);
  }

  /** Coherence over runs: from the empty database every interleaving keeps the log invariant,
      every entitlement only ever advances and no log entry is ever lost or rewritten. */
  lemma {:induction false} RunLogs(db: Db, events: seq<Event>)
    requires LogInvariant(db)
    ensures LogStep(db, Run(db, events))
    decreases |events|
  {
    if |events| > 0 {
      StepLogs(db, events[0]);
      RunLogs(Step(db, events[0]), events[1..]);
      LogGrowsTransitive(db, Step(db, events[0]), Run(db, events));
    }
  }

  /** The operation a log entry records, up to the spaces around its type. */
  predicate SameOperation(entry: LogEntry, guid: Guid, r: OperationRequest) {
    guid == entry.sub && Trim(r.kind) == Trim(entry.kind) && r.expectedVersion == entry.expectedVersion
    && r.status == entry.result.status && r.validUntil == entry.result.validUntil && r.max == entry.result.max
  }

  lemma SameFingerprint(entry: LogEntry, guid: Guid, r: OperationRequest)
    requires Recorded(entry) && IsEntitlementStatus(r.status)
    ensures entry.fingerprint == OperationFingerprint(guid, r) <==> SameOperation(entry, guid, r)
  {
    if entry.fingerprint == OperationFingerprint(guid, r) {
      EntitlementPayloadInjective(
        entry.sub, entry.kind, entry.expectedVersion, entry.result.status, entry.result.validUntil, entry.result.max,
        guid, r.kind, r.expectedVersion, r.status, r.validUntil, r.max);
    }
  }

  /** An operation id takes effect once: after it has been applied, any later request under the
      same id changes nothing, and is answered with the recorded result if and only if it asks for
      the same operation. */
  lemma OperationsApplyOnce(
      db: Db, guid: Guid, r: OperationRequest, now: Time, events: seq<Event>,
      guid': Guid, r': OperationRequest, now': Time)
    requires LogInvariant(db) && ApplyOperation(db, guid, r, now).result.OperationApplied?
    requires r'.operationId == r.operationId && ValidOperation(r')
    ensures
      var entry := ApplyOperation(db, guid, r, now).result.entry;
      var later := Run(ApplyOperation(db, guid, r, now).db, events);
      && entry.result == Entitlement(db.entitlements[guid].version + 1, r.status, r.validUntil, r.max)
      && SameOperation(entry, guid, r)
      && ApplyOperation(later, guid', r', now')
         == Outcome(later, if SameOperation(entry, guid', r') then OperationAlreadyApplied(entry)
                           else OperationIdempotencyConflict(entry))
  {
    var first := ApplyOperation(db, guid, r, now);
    ApplyOperationLogs(db, guid, r, now);
    RunLogs(first.db, events);
    assert first.db.log[r.operationId] == first.result.entry && Recorded(first.result.entry);
    assert Run(first.db, events).log[r.operationId] == first.result.entry;
    SameFingerprint(first.result.entry, guid', r');
  }

  /** An update of either kind that is refused leaves the entitlement alone, and one that is
      applied moves its version forward and never lowers its limit. */
  lemma AppliedMeansNewer(db: Db, guid: Guid, r: OperationRequest, e: Entitlement, now: Time)
    requires LogInvariant(db)
    ensures
      var operation := ApplyOperation(db, guid, r, now);
      if operation.result.OperationApplied? then
        guid in db.entitlements && operation.db.entitlements[guid].version == db.entitlements[guid].version + 1
        && operation.db.entitlements[guid].max >= db.entitlements[guid].max
        && r.expectedVersion == db.entitlements[guid].version
      else operation.db == db
    ensures
      var put := PutEntitlement(db, guid, e);
      if put.result.PutApplied? then
        put.db.entitlements[guid] == e
        && (guid in db.entitlements ==>
              e.version > db.entitlements[guid].version && e.max >= db.entitlements[guid].max)
      else put.db == db
  {
  }
}
