/** What a row keeps for good: its owner, once bound, and the erasure of its credential, once
    revoked for a reason that promises it. */
module Ownership {
  import opened Text
  import opened Canonical
  import opened DevicePolicy
  import opened DeviceTable
  import opened Registry
  import opened Lifecycle
  import opened Uniqueness

  /* ---------- erased credentials ---------- */

  predicate PromisesErasure(d: Device) {
    d.revocationReason.Some? && Erases(d.revocationReason.value)
  }

  /** In every reachable state, whatever unlocked reads and late repairs are interleaved, a row
      revoked by its user, a reset, a regeneration or a transfer stores no credential. */
  lemma RevokedRowsStoreNothing(events: seq<Event>, i: nat)
    requires i < |Run(EMPTY, events).devices| && PromisesErasure(Run(EMPTY, events).devices[i])
    ensures Run(EMPTY, events).devices[i].revokedAt.Some?
    ensures Run(EMPTY, events).devices[i].credential == NO_CREDENTIAL
  {
    RunGood(EMPTY, events);
    assert RowInvariant(Run(EMPTY, events).devices[i]);
  }

  /** A revoked personal link stays as revoked as it first was. */
  lemma RevokedLinksStayRevoked(db: Db, events: seq<Event>, i: nat)
    requires TableInvariant(db.devices) && i < |db.devices|
    requires db.devices[i].channel.DeviceLink? && db.devices[i].revokedAt.Some?
    ensures
      var later := Run(db, events);
      && i < |later.devices|
      && later.devices[i].revokedAt == db.devices[i].revokedAt
      && later.devices[i].revocationReason == db.devices[i].revocationReason
      && (PromisesErasure(db.devices[i]) ==> later.devices[i].credential == NO_CREDENTIAL)
  {
    RunGood(db, events);
    assert Evolves(db.devices[i], Run(db, events).devices[i]);
    assert RowInvariant(Run(db, events).devices[i]);
  }

  /** A credential is read without the lock, the link is revoked, and only then does the repair of
      what was read arrive: it finds nothing to repair. */
  lemma LateRepairFindsNothing(
      db: Db, cfg: Config, guid: Guid, publicId: string, events: seq<Event>, replacement: Protected)
    requires TableInvariant(db.devices)
    requires ReadCredential(db, cfg, guid, publicId).ReadAvailable?
    ensures
      var read := ReadCredential(db, cfg, guid, publicId);
      var later := Run(db, events);
      && read.id < |later.devices|
      && (PromisesErasure(later.devices[read.id]) ==>
            ReadRepair(later, read.id, read.credential, replacement) == Outcome(later, false))
  {
    RunGood(db, events);
    var read := ReadCredential(db, cfg, guid, publicId);
    assert RowInvariant(Run(db, events).devices[read.id]);
  }

  /* ---------- owners ---------- */

  predicate BoundLink(d: Device) {
    d.channel.DeviceLink? && d.policy.version == HWID_IDENTITY && d.policy.boundIdentity.Some?
  }

  /** The row a public id names is the only one. */
  lemma NamedRow(t: Table, i: nat)
    requires UniqueIndexes(t) && i < |t|
    ensures FindDevice(t, t[i].sub, t[i].publicId) == Some(i)
  {
    var found := FindDevice(t, t[i].sub, t[i].publicId);
    assert !(found.value < i) && !(i < found.value);
  }

  /** The HWID of a bound link never changes: not by access, by toggling any mode, nor by rotating
      keys. */
  lemma OwnerIsWriteOnce(db: Db, events: seq<Event>, i: nat)
    requires TableInvariant(db.devices) && i < |db.devices| && BoundLink(db.devices[i])
    ensures
      var later := Run(db, events);
      && i < |later.devices| && BoundLink(later.devices[i])
      && later.devices[i].policy.boundIdentity.value.hwid == db.devices[i].policy.boundIdentity.value.hwid
  {
    RunGood(db, events);
    assert Evolves(db.devices[i], Run(db, events).devices[i]);
  }

  /** Validating a link under full enforcement permits only what the policy permits. */
  lemma PermittedPassesPolicy(
      db: Db, cfg: Config, i: nat, token: Option<string>, p: Presented, replacement: Protected, now: Time)
    requires UniqueIndexes(db.devices) && i < |db.devices|
    ensures
      var d := db.devices[i];
      Validate(db, cfg, d.sub, d.publicId, token, p, replacement, now).result.Permit? ==>
        token == Some(d.secretHash)
        && Evaluate(cfg.bindingMode, d.policy, d.requestedPlatform, ContextOf(p)).allowed
  {
    NamedRow(db.devices, i);
  }

  /** So every access that enforcement permits, at any later time, comes from the HWID that the
      link was first bound to. */
  lemma EnforcedAccessIsOwners(
      db: Db, events: seq<Event>, i: nat, cfg: Config, token: Option<string>, p: Presented,
      replacement: Protected, now: Time)
    requires TableInvariant(db.devices) && UniqueIndexes(db.devices)
    requires i < |db.devices| && BoundLink(db.devices[i])
    requires cfg.bindingMode.BindingEnforce? && db.devices[i].policy.mode.Enforce?
    ensures
      var d := db.devices[i];
      Validate(Run(db, events), cfg, d.sub, d.publicId, token, p, replacement, now).result.Permit? ==>
        p.header == Hwid(d.policy.boundIdentity.value.hwid)
  {
    var later := Run(db, events);
    RunGood(db, events);
    RunUnique(db, events);
    assert Evolves(db.devices[i], later.devices[i]);
    OwnerIsWriteOnce(db, events, i);
    PermittedPassesPolicy(later, cfg, i, token, p, replacement, now);
    EnforcedAccess(later.devices[i].policy, later.devices[i].requestedPlatform, p.platform, p.header, p.keys);
  }
}
