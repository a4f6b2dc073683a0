/** The log of transfers: an operation that has been recorded is never lost, and is answered again
    with the device it made. */
module TransferLog {
  import opened Text
  import opened Canonical
  import opened DevicePolicy
  import opened DeviceTable
  import opened Registry
  import opened Lifecycle
  import opened Uniqueness
  import opened EntitlementLog
  import opened Ownership
  import opened Forks
  import opened IssuedLinks

  ghost predicate TransfersKept(db: Db, after: Db) {
    forall id :: id in db.transfers ==> id in after.transfers && after.transfers[id] == db.transfers[id]
  }

  lemma LinksKeepTransfers(db: Db, e: Event)
    requires e.op.OpCreateToken? || e.op.OpRegenerate? || e.op.OpTransfer?
    ensures TransfersKept(db, Step(db, e))
  {
  }

  lemma AccessKeepsTransfers(db: Db, e: Event)
    requires e.op.OpValidate? || e.op.OpResolve?
    ensures TransfersKept(db, Step(db, e))
  {
    match e.op
    case OpValidate(cfg, g, p, s, pr, c) => ValidateTable(db, cfg, g, p, s, pr, c, e.at);
    case _ =>
  }

  lemma FeedKeepsTransfers(db: Db, e: Event)
    requires e.op.OpMarkActivated? || e.op.OpMarkFailed? || e.op.OpEnable?
    ensures TransfersKept(db, Step(db, e))
  {
  }

  lemma OthersKeepTransfers(db: Db, e: Event)
    requires e.op.OpCreateSubscription? || e.op.OpApplyOperation? || e.op.OpPutEntitlement?
             || e.op.OpRevoke? || e.op.OpRevokeAll? || e.op.OpReadRepair?
    ensures TransfersKept(db, Step(db, e))
  {
  }

  lemma StepKeepsTransfers(db: Db, e: Event)
    ensures TransfersKept(db, Step(db, e))
  {
    match e.op
    case OpCreateToken(_, _, _, _) => LinksKeepTransfers(db, e);
    case OpRegenerate(_, _, _, _) => LinksKeepTransfers(db, e);
    case OpTransfer(_, _, _, _, _, _) => LinksKeepTransfers(db, e);
    case OpValidate(_, _, _, _, _, _) => AccessKeepsTransfers(db, e);
    case OpResolve(_, _, _, _, _, _, _) => AccessKeepsTransfers(db, e);
    case OpMarkActivated(_, _) => FeedKeepsTransfers(db, e);
    case OpMarkFailed(_, _, _) => FeedKeepsTransfers(db, e);
    case OpEnable(_, _, _) => FeedKeepsTransfers(db, e);
    case _ => OthersKeepTransfers(db, e);
  }

  lemma {:induction false} RunKeepsTransfers(db: Db, events: seq<Event>)
    ensures TransfersKept(db, Run(db, events))
    decreases |events|
  {
    if |events| > 0 {
      StepKeepsTransfers(db, events[0]);
      RunKeepsTransfers(Step(db, events[0]), events[1..]);
    }
  }

  /** What a replay of a transfer can say of the device it made. */
  function TransferAnswer(cfg: Config, d: Device): Option<string> {
    if !d.credential.Complete() then Some("credential_reissue_required")
    else if d.credential.keyId.value !in cfg.credentialKeys then Some("credential_key_unavailable")
    else if d.credential.ciphertext.value in cfg.unreadable then Some("credential_corrupted")
    else None
  }

  /** A transfer takes effect once: after it, over any run, its operation id changes nothing again and is
      answered with the device it made, if that can be handed out, for the same device and platform, and
      refused as a reuse for others. */
  lemma TransferTakesEffectOnce(
      db: Db, cfg: Config, i: nat, operationId: string, platform: Platform, draw: Draw, now: Time,
      events: seq<Event>, cfg': Config, publicId': string, platform': Platform, draw': Draw, later: Time)
    requires TableInvariant(db.devices) && UniqueIndexes(db.devices) && LogInvariant(db) && i < |db.devices|
    requires
      var d := db.devices[i];
      MayTransfer(db, cfg, d.sub, d.publicId, Some(operationId), Some(platform), draw, now)
    ensures
      var d := db.devices[i];
      var end := Run(Transfer(db, cfg, d.sub, d.publicId, Some(operationId), Some(platform), draw, now).db, events);
      var replay := Transfer(end, cfg', d.sub, publicId', Some(operationId), Some(platform'), draw', later);
      && |db.devices| < |end.devices| && replay.db == end
      && var row := end.devices[|db.devices|];
         if publicId' != d.publicId || platform' != platform then
           replay.result == TokenInvalid("idempotency_key_reused")
         else if TransferAnswer(cfg', row).Some? then replay.result == TokenInvalid(TransferAnswer(cfg', row).value)
         else replay.result.TokenExisting? && replay.result.publicId == draw.publicId
  {
    var d := db.devices[i];
    var done := Transfer(db, cfg, d.sub, d.publicId, Some(operationId), Some(platform), draw, now).db;
    var end := Run(done, events);
    TransferredRowExactly(db, cfg, i, Some(operationId), Some(platform), draw, now);
    TransferGood(db, cfg, d.sub, d.publicId, Some(operationId), Some(platform), draw, now);
    StepLogs(db, Event(OpTransfer(cfg, d.sub, d.publicId, Some(operationId), Some(platform), draw), now));
    RunGood(done, events);
    RunLogs(done, events);
    RunKeepsTransfers(done, events);
    RecordedReplays(end, cfg', d.sub, operationId, i, |db.devices|, d.publicId, platform, publicId', platform', draw',
                    later);
    assert Evolves(done.devices[|db.devices|], end.devices[|db.devices|]);
  }

  /** The replay of what a log entry records. */
  lemma RecordedReplays(
      db: Db, cfg: Config, guid: Guid, operationId: string, source: nat, row: nat, publicId: string,
      platform: Platform, publicId': string, platform': Platform, draw: Draw, now: Time)
    requires guid in db.subscriptions && guid in db.entitlements
    requires source < |db.devices| && row < |db.devices| && db.devices[source].publicId == publicId
    requires operationId in db.transfers
    requires db.transfers[operationId] == TransferEntry(guid, source, row, TransferPayload(guid, publicId, platform),
                                                        db.transfers[operationId].appliedAt)
    ensures
      var replay := Transfer(db, cfg, guid, publicId', Some(operationId), Some(platform'), draw, now);
      && replay.db == db
      && (if publicId' != publicId || platform' != platform then
            replay.result == TokenInvalid("idempotency_key_reused")
          else if TransferAnswer(cfg, db.devices[row]).Some? then
            replay.result == TokenInvalid(TransferAnswer(cfg, db.devices[row]).value)
          else replay.result.TokenExisting? && replay.result.publicId == db.devices[row].publicId)
  {
    if TransferPayload(guid, publicId, platform) == TransferPayload(guid, publicId', platform') {
      TransferPayloadInjective(guid, publicId, platform, guid, publicId', platform');
    }
  }
}
