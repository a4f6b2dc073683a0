/** When a subscription must be created and an entitlement changed, and to what. */
module EntitlementUpdates {
  import opened Text
  import opened Canonical
  import opened DeviceTable
  import opened Registry
  import opened EntitlementLog

  /** What an entitlement may look like. */
  predicate Proper(e: Entitlement) {
    e.version >= 1 && e.status in {"active", "disabled", "expired"} && 1 <= e.max <= 100
  }

  lemma ProperExactly(e: Entitlement)
    ensures ValidEntitlement(e) <==> Proper(e)
  {
  }

  /** The limit is neither lowered nor below the active devices. */
  predicate LimitHolds(db: Db, guid: Guid, max: int) {
    (guid in db.entitlements ==> db.entitlements[guid].max <= max)
    && |set i: nat | i < |db.devices| && db.devices[i].sub == guid && db.devices[i].revokedAt.None?
                     && db.devices[i].activatedAt.Some?| <= max
  }

  lemma ActiveCount(db: Db, guid: Guid)
    ensures CountActive(db.devices, guid)
         == |set i: nat | i < |db.devices| && db.devices[i].sub == guid && db.devices[i].revokedAt.None?
                          && db.devices[i].activatedAt.Some?|
  {
    assert ActiveIds(db.devices, guid)
        == set i: nat | i < |db.devices| && db.devices[i].sub == guid && db.devices[i].revokedAt.None?
                        && db.devices[i].activatedAt.Some?;
  }

  /** A new operation is applied if and only if it is well-formed, its id is new, it expects the version
      in force and the limit holds; it then replaces the entitlement and is recorded, and nothing else
      changes. */
  lemma OperationAppliedExactly(db: Db, guid: Guid, r: OperationRequest, now: Time)
    requires LogInvariant(db) && ValidOperation(r)
    ensures
      var outcome := ApplyOperation(db, guid, r, now);
      && (outcome.result.OperationApplied?
          <==> && r.operationId !in db.log && guid in db.entitlements
               && db.entitlements[guid].version == r.expectedVersion && LimitHolds(db, guid, r.max))
      && (outcome.result.OperationApplied? ==>
            var e := Entitlement(r.expectedVersion + 1, r.status, r.validUntil, r.max);
            && r.operationId in outcome.db.log
            && outcome.db == db.(entitlements := db.entitlements[guid := e],
                                 log := db.log[r.operationId := outcome.db.log[r.operationId]])
            && SameOperation(outcome.db.log[r.operationId], guid, r)
            && outcome.db.log[r.operationId].result == e && outcome.db.log[r.operationId].appliedAt == now)
      && (!outcome.result.OperationApplied? ==> outcome.db == db)
  {
    ActiveCount(db, guid);
    OperationViolationUnreachable(db, guid, r, now);
  }

  /** What a refused operation is told is true. */
  lemma OperationRefusals(db: Db, guid: Guid, r: OperationRequest, now: Time)
    requires LogInvariant(db)
    ensures
      match ApplyOperation(db, guid, r, now).result
      case OperationApplied(_, active) => active == CountActive(db.devices, guid)
      case OperationAlreadyApplied(entry) => r.operationId in db.log && entry == db.log[r.operationId]
      case OperationIdempotencyConflict(entry) => r.operationId in db.log && entry == db.log[r.operationId]
      case OperationVersionConflict(actual) =>
        if guid in db.entitlements then
          actual == Some(db.entitlements[guid].version) && db.entitlements[guid].version != r.expectedVersion
        else actual.None?
      case OperationSubscriptionNotFound => guid !in db.subscriptions
      case OperationLimitDecrease(current) =>
        guid in db.entitlements && current == db.entitlements[guid].version && r.max < db.entitlements[guid].max
      case OperationActiveDevicesConflict(current, active) =>
        guid in db.entitlements && current == db.entitlements[guid].version
        && active == CountActive(db.devices, guid) && r.max < active
      case OperationRejected => !ValidOperation(r)
      case OperationViolation => false
  {
    OperationViolationUnreachable(db, guid, r, now);
  }

  /** An unlogged update is applied if and only if it is proper, newer, or the first, and the limit
      holds. */
  lemma PutAppliedExactly(db: Db, guid: Guid, e: Entitlement)
    ensures
      var outcome := PutEntitlement(db, guid, e);
      && (outcome.result.PutApplied?
          <==> && Proper(e) && guid in db.subscriptions && LimitHolds(db, guid, e.max)
               && (guid in db.entitlements ==> db.entitlements[guid].version < e.version))
      && outcome.db == (if outcome.result.PutApplied? then db.(entitlements := db.entitlements[guid := e]) else db)
      && (outcome.result.PutAlreadyApplied? ==> guid in db.entitlements && db.entitlements[guid] == e)
      && (outcome.result.PutStale? ==> guid in db.entitlements && e.version < db.entitlements[guid].version)
      && (outcome.result.PutInvalidState? ==>
            guid in db.entitlements && e.version == db.entitlements[guid].version && e != db.entitlements[guid])
      && (outcome.result.PutLimitDecrease? ==> guid in db.entitlements && e.max < db.entitlements[guid].max)
      && (outcome.result.PutActiveDevicesExceedNewLimit? ==> e.max < CountActive(db.devices, guid))
      && (outcome.result.PutSubscriptionNotFound? ==> guid !in db.subscriptions)
      && (outcome.result.PutRejected? <==> !Proper(e))
  {
    ProperExactly(e);
    ActiveCount(db, guid);
  }

  /** A subscription is created if and only if its entitlement is proper and its id, its external id and
      the id of its creation are new; it starts with that entitlement and no devices. */
  lemma CreatedExactly(db: Db, guid: Guid, externalId: Option<string>, e: Entitlement, now: Time)
    ensures
      var outcome := CreateSubscription(db, guid, externalId, e, now);
      && (outcome.result.SubscriptionCreated?
          <==> && Proper(e) && guid !in db.subscriptions && CreationOperationId(guid) !in db.log
               && (externalId.Some? ==> externalId.value !in db.externalIds))
      && (outcome.result.SubscriptionCreated? ==>
            && outcome.result.guid == guid && outcome.db.devices == db.devices
            && outcome.db.transfers == db.transfers
            && outcome.db.subscriptions == db.subscriptions + {guid}
            && outcome.db.entitlements == db.entitlements[guid := e]
            && outcome.db.externalIds == (if externalId.Some? then db.externalIds[externalId.value := guid]
                                          else db.externalIds)
            && CreationOperationId(guid) in outcome.db.log
            && outcome.db.log == db.log[CreationOperationId(guid) := outcome.db.log[CreationOperationId(guid)]]
            && outcome.db.log[CreationOperationId(guid)].result == e)
      && (outcome.result.SubscriptionExists? ==>
            externalId.Some? && externalId.value in db.externalIds
            && outcome.result.guid == db.externalIds[externalId.value])
      && (!outcome.result.SubscriptionCreated? ==> outcome.db == db)
  {
    ProperExactly(e);
  }
}
