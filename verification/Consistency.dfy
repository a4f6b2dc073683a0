/** Everything that holds of the database between transactions: the unique indexes, the row
    invariant with its promise of erasure, rows rooted in subscriptions, and a coherent log. */
module Consistency {
  import opened Text
  import opened Canonical
  import opened DevicePolicy
  import opened DeviceTable
  import opened Registry
  import opened Lifecycle
  import opened Uniqueness
  import opened SlotBound
  import opened SlotRuns
  import opened EntitlementLog

  ghost predicate Consistent(db: Db) {
    UniqueIndexes(db.devices) && TableInvariant(db.devices) && Rooted(db) && LogInvariant(db)
  }

  /** What a transaction promises of the state it leaves: it is consistent, and within every limit if
      the state before was. */
  ghost predicate Leaves(db: Db, after: Db, now: Time) {
    Consistent(after) && KeepsBound(db, after, now)
  }

  lemma StepConsistent(db: Db, e: Event)
    requires Consistent(db)
    ensures Consistent(Step(db, e)) && (!e.op.OpMarkActivated? ==> KeepsBound(db, Step(db, e), e.at))
  {
    StepGood(db, e);
    StepUnique(db, e);
    StepLogs(db, e);
    if e.op.OpMarkActivated? {
      ActivationBounded(db, e.op.guid, e.op.publicId, e.at);
    } else {
      StepBounded(db, e);
    }
  }

  /** The empty database is consistent, and every run leaves it so. */
  lemma {:induction false} RunConsistent(db: Db, events: seq<Event>)
    requires Consistent(db)
    ensures Consistent(Run(db, events))
    decreases |events|
  {
    if |events| > 0 {
      StepConsistent(db, events[0]);
      RunConsistent(Step(db, events[0]), events[1..]);
    }
  }

  lemma EmptyConsistent()
    ensures Consistent(EMPTY)
  {
  }

  /* ---------- transaction by transaction ---------- */

  lemma CreateSubscriptionLeaves(db: Db, guid: Guid, externalId: Option<string>, e: Entitlement, now: Time)
    requires Consistent(db)
    ensures Leaves(db, CreateSubscription(db, guid, externalId, e, now).db, now)
  {
    StepConsistent(db, Event(OpCreateSubscription(guid, externalId, e), now));
  }

  lemma ApplyOperationLeaves(db: Db, guid: Guid, r: OperationRequest, now: Time)
    requires Consistent(db)
    ensures Leaves(db, ApplyOperation(db, guid, r, now).db, now)
  {
    StepConsistent(db, Event(OpApplyOperation(guid, r), now));
  }

  lemma PutEntitlementLeaves(db: Db, guid: Guid, e: Entitlement, now: Time)
    requires Consistent(db)
    ensures Leaves(db, PutEntitlement(db, guid, e).db, now)
  {
    StepConsistent(db, Event(OpPutEntitlement(guid, e), now));
  }

  lemma CreateTokenLeaves(db: Db, cfg: Config, guid: Guid, r: TokenRequest, draw: Draw, now: Time)
    requires Consistent(db)
    ensures Leaves(db, CreateToken(db, cfg, guid, r, draw, now).db, now)
  {
    StepConsistent(db, Event(OpCreateToken(cfg, guid, r, draw), now));
  }

  lemma RegenerateLeaves(db: Db, cfg: Config, guid: Guid, publicId: string, draw: Draw, now: Time)
    requires Consistent(db)
    ensures Leaves(db, Regenerate(db, cfg, guid, publicId, draw, now).db, now)
  {
    StepConsistent(db, Event(OpRegenerate(cfg, guid, publicId, draw), now));
  }

  lemma TransferLeaves(
      db: Db, cfg: Config, guid: Guid, publicId: string, operationId: Option<string>,
      platform: Option<Platform>, draw: Draw, now: Time)
    requires Consistent(db)
    ensures Leaves(db, Transfer(db, cfg, guid, publicId, operationId, platform, draw, now).db, now)
  {
    StepConsistent(db, Event(OpTransfer(cfg, guid, publicId, operationId, platform, draw), now));
  }

  lemma RevokeLeaves(db: Db, guid: Guid, publicId: string, now: Time)
    requires Consistent(db)
    ensures Leaves(db, Revoke(db, guid, publicId, now).db, now)
  {
    StepConsistent(db, Event(OpRevoke(guid, publicId), now));
  }

  lemma RevokeAllLeaves(db: Db, guid: Guid, now: Time)
    requires Consistent(db)
    ensures Leaves(db, RevokeAll(db, guid, now).db, now)
  {
    StepConsistent(db, Event(OpRevokeAll(guid), now));
  }

  lemma ReadRepairLeaves(db: Db, id: nat, previous: Protected, replacement: Protected, now: Time)
    requires Consistent(db)
    ensures Leaves(db, ReadRepair(db, id, previous, replacement).db, now)
  {
    StepConsistent(db, Event(OpReadRepair(id, previous, replacement), now));
  }

  lemma ValidateLeaves(
      db: Db, cfg: Config, guid: Guid, publicId: string, token: Option<string>, p: Presented,
      replacement: Protected, now: Time)
    requires Consistent(db)
    ensures Leaves(db, Validate(db, cfg, guid, publicId, token, p, replacement, now).db, now)
  {
    ValidateGood(db, cfg, guid, publicId, token, p, replacement, now);
    ValidateUnique(db, cfg, guid, publicId, token, p, replacement, now);
    ValidateSlots(db, cfg, guid, publicId, token, p, replacement, now);
    SlotStepKeeps(db, Validate(db, cfg, guid, publicId, token, p, replacement, now).db, guid, now);
    ValidateLeavesEntitlements(db, cfg, guid, publicId, token, p, replacement, now);
  }

  lemma ResolveLeaves(
      db: Db, cfg: Config, guid: Guid, hasToken: bool, secretVerified: bool, p: Presented,
      displayName: string, draw: Draw, now: Time)
    requires Consistent(db)
    ensures Leaves(db, Resolve(db, cfg, guid, hasToken, secretVerified, p, displayName, draw, now).db, now)
  {
    StepConsistent(db, Event(OpResolve(cfg, guid, hasToken, secretVerified, p, displayName, draw), now));
  }

  lemma MarkActivatedLeaves(db: Db, guid: Guid, publicId: string, now: Time)
    requires Consistent(db)
    ensures Consistent(MarkActivated(db, guid, publicId, now))
  {
    MarkActivatedGood(db, guid, publicId, now);
    MarkActivatedUnique(db, guid, publicId, now);
    ActivationBounded(db, guid, publicId, now);
    ActivationLeavesEntitlements(db, guid, publicId, now);
  }

  lemma MarkFailedLeaves(db: Db, cfg: Config, guid: Guid, publicId: string, now: Time)
    requires Consistent(db)
    ensures Leaves(db, MarkFailed(db, cfg, guid, publicId, now), now)
  {
    StepConsistent(db, Event(OpMarkFailed(cfg, guid, publicId), now));
  }

  lemma EnableLeaves(db: Db, cfg: Config, guid: Guid, publicId: string, now: Time)
    requires Consistent(db)
    ensures Leaves(db, Enable(db, cfg, guid, publicId, now).db, now)
  {
    StepConsistent(db, Event(OpEnable(cfg, guid, publicId), now));
  }
}
