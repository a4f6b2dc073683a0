/** What revoking must do, for one device or for all of a subscription, and what is left to read. */
module Revocations {
  import opened Text
  import opened Canonical
  import opened DevicePolicy
  import opened DeviceTable
  import opened Registry
  import opened Lifecycle
  import opened Uniqueness
  import opened Ownership
  import opened FeedAdmission
  import opened LinkAccess

  /** A row that has been revoked, now unless it was before, stores no credential, and is disabled if it
      belongs to the feed.  Nothing else about it changes. */
  predicate Withdrawn(d: Device, row: Device, now: Time, reason: Reason) {
    && row == d.(revokedAt := row.revokedAt, revocationReason := row.revocationReason, credential := row.credential,
                 state := row.state)
    && row.revokedAt == (if d.revokedAt.Some? then d.revokedAt else Some(now))
    && row.revocationReason == (if d.revocationReason.Some? then d.revocationReason else Some(reason))
    && row.credential.Erased()
    && (if d.channel.UnifiedFeed? then row.state.Disabled? else row.state == d.state)
  }

  /** A device is revoked if and only if its subscription has a row of that public id. */
  lemma RevokedExactly(db: Db, guid: Guid, publicId: string, now: Time)
    ensures
      var outcome := Revoke(db, guid, publicId, now);
      && (outcome.result
          <==> guid in db.subscriptions
               && exists i :: 0 <= i < |db.devices| && db.devices[i].sub == guid && db.devices[i].publicId == publicId)
      && (!outcome.result ==> outcome.db == db)
  {
    var found := FindDevice(db.devices, guid, publicId);
    if found.Some? {
      assert db.devices[found.value].publicId == publicId;
    }
  }

  /** ... and what that does to the row, on either channel, and to nothing else. */
  lemma RevocationEffect(db: Db, i: nat, now: Time)
    requires UniqueIndexes(db.devices) && i < |db.devices| && db.devices[i].sub in db.subscriptions
    ensures
      var after := Revoke(db, db.devices[i].sub, db.devices[i].publicId, now).db;
      && |after.devices| == |db.devices| && after == db.(devices := db.devices[i := after.devices[i]])
      && Withdrawn(db.devices[i], after.devices[i], now, UserRevoked)
  {
    NamedRow(db.devices, i);
  }

  /** A revoked personal link is never opened again, by any secret, in any later state, and its
      credential is never read. */
  lemma RevokedLinkNeverOpens(
      db: Db, i: nat, now: Time, events: seq<Event>, cfg: Config, token: Option<string>, p: Presented,
      replacement: Protected, later: Time)
    requires TableInvariant(db.devices) && UniqueIndexes(db.devices) && i < |db.devices|
    requires db.devices[i].channel.DeviceLink? && db.devices[i].sub in db.subscriptions
    ensures
      var d := db.devices[i];
      var end := Run(Revoke(db, d.sub, d.publicId, now).db, events);
      && !Validate(end, cfg, d.sub, d.publicId, token, p, replacement, later).result.Permit?
      && !ReadCredential(end, cfg, d.sub, d.publicId).ReadAvailable?
  {
    var d := db.devices[i];
    var revoked := Revoke(db, d.sub, d.publicId, now).db;
    RevocationEffect(db, i, now);
    RevokeGood(db, d.sub, d.publicId, now);
    RevocationsUnique(db, d.sub, d.publicId, now);
    RevokedStaysShut(revoked, i, events, cfg, token, p, replacement, later);
  }

  lemma RevokedStaysShut(
      db: Db, i: nat, events: seq<Event>, cfg: Config, token: Option<string>, p: Presented,
      replacement: Protected, later: Time)
    requires TableInvariant(db.devices) && UniqueIndexes(db.devices) && i < |db.devices|
    requires db.devices[i].channel.DeviceLink? && db.devices[i].revokedAt.Some?
    ensures
      var d, end := db.devices[i], Run(db, events);
      && !Validate(end, cfg, d.sub, d.publicId, token, p, replacement, later).result.Permit?
      && !ReadCredential(end, cfg, d.sub, d.publicId).ReadAvailable?
  {
    var end := Run(db, events);
    RunGood(db, events);
    RunUnique(db, events);
    RevokedLinksStayRevoked(db, events, i);
    assert Evolves(db.devices[i], end.devices[i]);
    NamedRow(end.devices, i);
    OpenedExactly(end, cfg, i, token, p, replacement, later);
  }

  /** A reset revokes every unrevoked row of the subscription, says how many, and touches no other. */
  lemma ResetEffect(db: Db, guid: Guid, now: Time)
    ensures
      var outcome := RevokeAll(db, guid, now);
      && (outcome.result.found <==> guid in db.subscriptions)
      && outcome.db == db.(devices := outcome.db.devices) && |outcome.db.devices| == |db.devices|
      && outcome.result.revoked
         == |set i: nat | i < |db.devices| && outcome.db.devices[i].revokedAt != db.devices[i].revokedAt|
      && forall i :: 0 <= i < |db.devices| ==>
           if guid in db.subscriptions && db.devices[i].sub == guid && db.devices[i].revokedAt.None? then
             Withdrawn(db.devices[i], outcome.db.devices[i], now, ResetAll)
           else outcome.db.devices[i] == db.devices[i]
  {
    var u := RevokeAll(db, guid, now).db.devices;
    var moved := set i: nat | i < |db.devices| && u[i].revokedAt != db.devices[i].revokedAt;
    assert moved == if guid in db.subscriptions then UnrevokedIds(db.devices, guid) else {};
  }

  /* ---------- stored credentials ---------- */

  /** A stored credential is read if and only if it is all there, under a configured key, readable, and
      of an unrevoked device. */
  lemma ReadExactly(db: Db, cfg: Config, i: nat)
    requires UniqueIndexes(db.devices) && i < |db.devices|
    ensures
      var d := db.devices[i];
      var result := ReadCredential(db, cfg, d.sub, d.publicId);
      && (result.ReadAvailable?
          <==> && d.sub in db.subscriptions && d.revokedAt.None? && d.credential.Complete()
               && d.credential.keyId.value in cfg.credentialKeys && d.credential.ciphertext.value !in cfg.unreadable)
      && (result.ReadAvailable? ==> result.id == i && d.credential == Columns(result.credential))
      && (result.ReadNotFound? <==> d.sub !in db.subscriptions)
      && (d.sub in db.subscriptions && !result.ReadAvailable? ==>
            result == ReadInvalid(
                        if d.revokedAt.Some? then "device_token_revoked"
                        else if !d.credential.Complete() then "credential_reissue_required"
                        else if d.credential.keyId.value !in cfg.credentialKeys then "credential_key_unavailable"
                        else "credential_corrupted"))
  {
    NamedRow(db.devices, i);
  }

  /** A repair replaces the four columns if and only if they are those that were read. */
  lemma RepairExactly(db: Db, i: nat, previous: Protected, replacement: Protected)
    ensures
      var outcome := ReadRepair(db, i, previous, replacement);
      && (outcome.result
          <==> i < |db.devices|
               && db.devices[i].credential == CredentialColumns(Some(previous.keyId), Some(previous.nonce),
                                                                Some(previous.ciphertext), Some(previous.tag)))
      && (!outcome.result ==> outcome.db == db)
      && (outcome.result ==>
            && |outcome.db.devices| == |db.devices|
            && outcome.db == db.(devices := db.devices[i := outcome.db.devices[i]])
            && outcome.db.devices[i] == db.devices[i].(credential := outcome.db.devices[i].credential)
            && outcome.db.devices[i].credential == CredentialColumns(
                 Some(replacement.keyId), Some(replacement.nonce), Some(replacement.ciphertext), Some(replacement.tag)))
  {
  }
}
